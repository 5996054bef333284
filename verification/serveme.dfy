/** Choice of the server-reservation endpoint from a client's address
    (helpers/serveme.go). */
module Serveme {
  import opened Wrappers

  /** The three reservation endpoints. */
  datatype Endpoint = NA | EU | AU

  /** Host name of each endpoint. */
  function Host(e: Endpoint): string
  {
    match e
    case NA => "na.serveme.tf"
    case EU => "serveme.tf"
    case AU => "au.serveme.tf"
  }

  const KnownHosts: set<string> := {"na.serveme.tf", "serveme.tf", "au.serveme.tf"}

  /** Endpoint serving a two-letter continent code. North and South America
      share the NA endpoint, Asia and Europe the EU one, Oceania has its own,
      and every other code (Africa, Antarctica, the empty string of a failed
      lookup) falls back to EU. */
  function ContinentEndpoint(continent: string): (e: Endpoint)
    ensures e == NA <==> continent == "NA" || continent == "SA"
    ensures e == AU <==> continent == "OC"
    ensures e == EU <==> continent != "NA" && continent != "SA" && continent != "OC"
  {
    if continent == "NA" then NA
    else if continent == "SA" then NA
    else if continent == "AS" then EU
    else if continent == "EU" then EU
    else if continent == "OC" then AU
    else EU
  }

  /** GetServemeContextIP: the continent of an address is looked up by the
      (external) region database `region` and mapped to an endpoint. */
  function EndpointForIP(ipaddr: string, region: string -> string): (e: Endpoint)
    ensures Host(e) in KnownHosts
    ensures e == NA <==> region(ipaddr) in {"NA", "SA"}
    ensures e == AU <==> region(ipaddr) == "OC"
  {
    ContinentEndpoint(region(ipaddr))
  }

  /** The part of `addr` before its first ':' (the first element of Go's
      strings.Split(addr, ":")), which is the whole string when there is no ':'. */
  function HostPart(addr: string): (h: string)
    ensures |h| <= |addr| && h == addr[..|h|]
    ensures ':' !in h
    ensures |h| < |addr| ==> addr[|h|] == ':'
  {
    if addr == [] || addr[0] == ':' then []
    else [addr[0]] + HostPart(addr[1..])
  }

  /** GetServemeContext: the host part of `addr` is resolved to an IPv4
      address by `resolve` (None when resolution fails); a failure selects the
      EU endpoint, otherwise the endpoint of the resolved address is used. */
  function EndpointForAddress(addr: string, resolve: string -> Option<string>, region: string -> string): (e: Endpoint)
    ensures Host(e) in KnownHosts
    ensures resolve(HostPart(addr)).None? ==> e == EU
    ensures resolve(HostPart(addr)).Some? ==> e == EndpointForIP(resolve(HostPart(addr)).value, region)
    ensures e != EU ==> resolve(HostPart(addr)).Some?
    ensures e == AU ==> region(resolve(HostPart(addr)).value) == "OC"
    ensures e == NA ==> region(resolve(HostPart(addr)).value) in {"NA", "SA"}
  {
    match resolve(HostPart(addr))
    case None => EU
    case Some(ip) => EndpointForIP(ip, region)
  }

  /** The host part never contains the separator and, put back together with
      the rest of the address, gives the address again. */
  lemma HostPartSplits(addr: string)
    ensures HostPart(addr) + addr[|HostPart(addr)|..] == addr
    ensures ':' in addr ==> |HostPart(addr)| < |addr|
    ensures ':' !in addr ==> HostPart(addr) == addr
  {
  }

  /** The three endpoints have three distinct hosts, so the routing result is
      always exactly one of three host names. */
  lemma HostsDistinct()
    ensures forall a, b :: Host(a) == Host(b) ==> a == b
    ensures |KnownHosts| == 3
  {
  }
}
