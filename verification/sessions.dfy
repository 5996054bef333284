/** Per-player socket registry and disconnect watcher
    (controllers/socket/sessions/steamid.go). Locks and goroutines are not
    modelled: each exported function is one atomic step on an immutable
    registry, and a watcher's goroutine becomes an explicit Resolve step. */
module Sessions {
  import opened Wrappers

  /** A websocket client; `id` is its session id, `conn` tells apart
      distinct connections. */
  datatype Socket = Socket(id: string, conn: nat)

  /** How a pending watcher goroutine leaves its select. */
  datatype WatcherEvent = TimerElapsed | StopReceived

  /** The registry. `sockets` is steamIDSockets. A watcher is named by a token
      standing for its stop channel: `watchers` is steamIDConnected (steamid to
      the channel stored there), `pending` maps every live watcher goroutine to
      the steamid it watches, `signaled` holds the channels that carry a value,
      and `nextToken` makes every new channel distinct. */
  datatype Registry = Registry(
    sockets: map<string, seq<Socket>>,
    watchers: map<string, nat>,
    pending: map<nat, string>,
    signaled: set<nat>,
    nextToken: nat)

  const Empty := Registry(map[], map[], map[], {}, 0)

  /** The registry invariant: no steamid is mapped to an empty list, the
      channel stored for a steamid belongs to a live goroutine watching that
      steamid, and only live channels carry a signal. */
  predicate Wf(r: Registry)
  {
    && (forall s :: s in r.sockets ==> |r.sockets[s]| > 0)
    && (forall s :: s in r.watchers ==> r.watchers[s] in r.pending && r.pending[r.watchers[s]] == s)
    && (forall t :: t in r.pending ==> t < r.nextToken)
    && r.signaled <= r.pending.Keys
  }

  /** The list stored for `steamId`, or the nil slice when there is none. */
  function SocketsOf(r: Registry, steamId: string): seq<Socket>
  {
    if steamId in r.sockets then r.sockets[steamId] else []
  }

  /** GetSockets: the player's sockets and whether the key is present. */
  function GetSockets(r: Registry, steamId: string): (res: (seq<Socket>, bool))
    ensures res.1 <==> steamId in r.sockets
    ensures res.0 == SocketsOf(r, steamId)
    ensures Wf(r) ==> (res.1 <==> |res.0| > 0)
  {
    if steamId in r.sockets then (r.sockets[steamId], true) else ([], false)
  }

  /** IsConnected: the presence flag of GetSockets. */
  function IsConnected(r: Registry, steamId: string): (b: bool)
    ensures b == GetSockets(r, steamId).1
    ensures Wf(r) ==> (b <==> ConnectedSockets(r, steamId) > 0)
  {
    GetSockets(r, steamId).1
  }

  /** ConnectedSockets: length of the player's list (0 when absent). */
  function ConnectedSockets(r: Registry, steamId: string): (n: nat)
    ensures n == |GetSockets(r, steamId).0|
  {
    |SocketsOf(r, steamId)|
  }

  /** AddSocket: append `so` to the player's list. When this makes the list
      exactly one long and a watcher channel is stored for the player, that
      channel is signalled. */
  function AddSocket(r: Registry, steamId: string, so: Socket): (r': Registry)
    ensures r'.sockets.Keys == r.sockets.Keys + {steamId}
    ensures r'.sockets[steamId] == SocketsOf(r, steamId) + [so]
    ensures ConnectedSockets(r', steamId) == ConnectedSockets(r, steamId) + 1
    ensures forall o :: o != steamId ==> SocketsOf(r', o) == SocketsOf(r, o)
    ensures r'.watchers == r.watchers && r'.pending == r.pending && r'.nextToken == r.nextToken
    ensures ConnectedSockets(r, steamId) == 0 && steamId in r.watchers ==> r'.signaled == r.signaled + {r.watchers[steamId]}
    ensures !(ConnectedSockets(r, steamId) == 0 && steamId in r.watchers) ==> r'.signaled == r.signaled
    ensures Wf(r) ==> Wf(r')
  {
    var list := SocketsOf(r, steamId) + [so];
    var signaled := if |list| == 1 && steamId in r.watchers then r.signaled + {r.watchers[steamId]} else r.signaled;
    r.(sockets := r.sockets[steamId := list], signaled := signaled)
  }

  /** Index of the first socket with session id `id`, if any. */
  function FirstWithId(list: seq<Socket>, id: string): (k: Option<nat>)
    ensures k.None? <==> forall j :: 0 <= j < |list| ==> list[j].id != id
    ensures k.Some? ==> k.value < |list| && list[k.value].id == id
    ensures k.Some? ==> forall j :: 0 <= j < k.value ==> list[j].id != id
  {
    if list == [] then None
    else if list[0].id == id then Some(0)
    else match FirstWithId(list[1..], id)
      case None => None
      case Some(k) => Some(k + 1)
  }

  /** Remove element `i` by moving the last element into its place. */
  function SwapRemove(list: seq<Socket>, i: nat): (res: seq<Socket>)
    requires i < |list|
    ensures |res| == |list| - 1
    ensures multiset(res) == multiset(list) - multiset{list[i]}
    ensures forall j :: 0 <= j < |res| && j != i ==> res[j] == list[j]
    ensures i < |res| ==> res[i] == list[|list| - 1]
  {
    var res := list[i := list[|list| - 1]][..|list| - 1];
    SwapRemoveMultiset(list, i);
    res
  }

  lemma SwapRemoveMultiset(list: seq<Socket>, i: nat)
    requires i < |list|
    ensures multiset(list[i := list[|list| - 1]][..|list| - 1]) == multiset(list) - multiset{list[i]}
  {
    var last := |list| - 1;
    var res := list[i := list[last]][..last];
    if i == last {
      assert list == res + [list[i]];
    } else {
      assert list == list[..i] + [list[i]] + list[i + 1..last] + [list[last]];
      assert res == list[..i] + [list[last]] + list[i + 1..last];
      SwapMultiset(list[..i], list[i], list[i + 1..last], list[last]);
    }
  }

  /** Moving the last element y into the place of x removes one x. */
  lemma SwapMultiset(a: seq<Socket>, x: Socket, b: seq<Socket>, y: Socket)
    ensures multiset(a + [y] + b) == multiset(a + [x] + b + [y]) - multiset{x}
  {
    assert multiset(a + [y] + b) == multiset(a) + multiset{y} + multiset(b);
    assert multiset(a + [x] + b + [y]) == multiset(a) + multiset{x} + multiset(b) + multiset{y};
  }

  /** The list RemoveSocket leaves: the first socket with `sessionId`
      swap-removed, or the list itself when no socket has that id. */
  function RemoveFirst(clients: seq<Socket>, sessionId: string): (res: seq<Socket>)
    ensures FirstWithId(clients, sessionId).None? ==> res == clients
    ensures FirstWithId(clients, sessionId).Some? ==>
            multiset(res) == multiset(clients) - multiset{clients[FirstWithId(clients, sessionId).value]}
  {
    match FirstWithId(clients, sessionId)
    case None => clients
    case Some(i) => SwapRemove(clients, i)
  }

  /** RemoveSocket: remove the first socket whose id is `sessionId` from the
      player's list by swapping it with the last one, and drop the key once
      the list is empty. */
  function RemoveSocket(r: Registry, sessionId: string, steamId: string): (r': Registry)
    ensures r'.watchers == r.watchers && r'.pending == r.pending && r'.signaled == r.signaled && r'.nextToken == r.nextToken
    ensures forall o :: o != steamId ==> (o in r'.sockets <==> o in r.sockets) && SocketsOf(r', o) == SocketsOf(r, o)
    ensures steamId in r'.sockets <==> ConnectedSockets(r', steamId) > 0
    ensures SocketsOf(r', steamId) == RemoveFirst(SocketsOf(r, steamId), sessionId)
    ensures Wf(r) ==> Wf(r')
  {
    var clients' := RemoveFirst(SocketsOf(r, steamId), sessionId);
    if |clients'| == 0 then r.(sockets := r.sockets - {steamId})
    else r.(sockets := r.sockets[steamId := clients'])
  }

  /** AfterDisconnectedFunc, the arming half: a fresh stop channel is stored
      for the player, overwriting any channel stored before, and a watcher
      goroutine starts waiting on it. Returns the new channel's token. */
  function ArmWatcher(r: Registry, steamId: string): (res: (Registry, nat))
    ensures Wf(r) ==> res.1 !in r.pending
    ensures res.1 in res.0.pending && res.0.pending[res.1] == steamId
    ensures res.0.pending == r.pending[res.1 := steamId]
    ensures res.0.watchers.Keys == r.watchers.Keys + {steamId}
    ensures res.0.watchers[steamId] == res.1
    ensures forall o :: o in r.watchers && o != steamId ==> res.0.watchers[o] == r.watchers[o]
    ensures res.0.sockets == r.sockets && res.0.signaled == r.signaled
    ensures Wf(r) ==> Wf(res.0)
  {
    var t := r.nextToken;
    assert Wf(r) ==> t !in r.pending;
    (r.(watchers := r.watchers[steamId := t], pending := r.pending[t := steamId], nextToken := t + 1), t)
  }

  /** The goroutine of watcher `token` leaving its select. On TimerElapsed
      the callback runs iff the player is not connected at that moment; on
      StopReceived (only possible once its channel was signalled) it never
      runs. Either way the goroutine ends and deletes the channel stored for
      its steamid, even if a newer watcher had replaced it. An event that
      cannot happen (an unknown token, a stop on an unsignalled channel)
      changes nothing. Returns whether the callback ran. */
  function Resolve(r: Registry, token: nat, ev: WatcherEvent): (res: (Registry, bool))
    ensures token in r.pending && ev == TimerElapsed ==> (res.1 <==> !IsConnected(r, r.pending[token]))
    ensures ev == StopReceived ==> !res.1
    ensures (token !in r.pending || (ev == StopReceived && token !in r.signaled)) ==> res == (r, false)
    ensures token in r.pending && (ev == TimerElapsed || token in r.signaled) ==>
              && r.pending[token] !in res.0.watchers
              && res.0.pending == r.pending - {token}
              && res.0.watchers == r.watchers - {r.pending[token]}
              && res.0.signaled == r.signaled - {token}
    ensures res.0.sockets == r.sockets && res.0.nextToken == r.nextToken
    ensures Wf(r) ==> Wf(res.0)
  {
    if token !in r.pending then (r, false)
    else if ev == StopReceived && token !in r.signaled then (r, false)
    else
      var steamId := r.pending[token];
      var ran := ev == TimerElapsed && !IsConnected(r, steamId);
      (r.(watchers := r.watchers - {steamId}, pending := r.pending - {token}, signaled := r.signaled - {token}), ran)
  }

  /** The registry at start-up is well formed and nobody is connected. */
  lemma EmptyIsWf(steamId: string)
    ensures Wf(Empty)
    ensures !IsConnected(Empty, steamId) && GetSockets(Empty, steamId) == ([], false)
  {
  }

  /** Adding a socket and then removing it by its session id restores the
      socket lists, provided no other socket of that player has the same id. */
  lemma AddThenRemove(r: Registry, steamId: string, so: Socket)
    requires Wf(r)
    requires forall j :: 0 <= j < |SocketsOf(r, steamId)| ==> SocketsOf(r, steamId)[j].id != so.id
    ensures RemoveSocket(AddSocket(r, steamId, so), so.id, steamId).sockets == r.sockets
  {
    var old_ := SocketsOf(r, steamId);
    var r1 := AddSocket(r, steamId, so);
    assert r1.sockets == r.sockets[steamId := old_ + [so]];
    AppendedIsFound(old_, so);
    assert RemoveFirst(old_ + [so], so.id) == old_;
    var r2 := RemoveSocket(r1, so.id, steamId);
    if old_ == [] {
      assert steamId !in r.sockets;
      assert r2.sockets == r.sockets[steamId := old_ + [so]] - {steamId};
    } else {
      assert r2.sockets == r.sockets[steamId := old_ + [so]][steamId := old_];
      assert r.sockets[steamId] == old_;
    }
  }

  /** A socket appended to a list without its id is found at the end, and
      swap-removing it gives the list back. */
  lemma {:induction false} AppendedIsFound(list: seq<Socket>, so: Socket)
    requires forall j :: 0 <= j < |list| ==> list[j].id != so.id
    ensures FirstWithId(list + [so], so.id) == Some(|list|)
    ensures SwapRemove(list + [so], |list|) == list
  {
    if list != [] {
      assert (list + [so])[1..] == list[1..] + [so];
      AppendedIsFound(list[1..], so);
    }
  }

  /** Removing a player's only socket disconnects the player. */
  lemma RemoveLastDisconnects(r: Registry, steamId: string, so: Socket)
    requires SocketsOf(r, steamId) == [so]
    ensures !IsConnected(RemoveSocket(r, so.id, steamId), steamId)
    ensures ConnectedSockets(RemoveSocket(r, so.id, steamId), steamId) == 0
  {
  }

  /** A watcher armed for a disconnected player runs its callback when its
      timer elapses, if nothing reconnects the player first. */
  lemma WatcherFiresWhileDisconnected(r: Registry, steamId: string)
    requires Wf(r) && !IsConnected(r, steamId)
    ensures var (r1, t) := ArmWatcher(r, steamId);
            Resolve(r1, t, TimerElapsed).1
  {
  }

  /** If the player reconnects after a watcher is armed, the watcher's channel
      is signalled and its callback does not run, whichever way its select
      goes: by the stop signal, or by the timer while the player is connected. */
  lemma ReconnectSuppressesWatcher(r: Registry, steamId: string, so: Socket, ev: WatcherEvent)
    requires Wf(r) && !IsConnected(r, steamId)
    ensures var (r1, t) := ArmWatcher(r, steamId);
            var r2 := AddSocket(r1, steamId, so);
            t in r2.signaled && !Resolve(r2, t, ev).1
  {
  }

  /** Watchers never stack: after a second arming, a reconnect signals only
      the newer channel, and the older goroutine can end only by its timer. */
  lemma RearmOverwrites(r: Registry, steamId: string, so: Socket)
    requires Wf(r) && !IsConnected(r, steamId)
    ensures var (r1, t1) := ArmWatcher(r, steamId);
            var (r2, t2) := ArmWatcher(r1, steamId);
            var r3 := AddSocket(r2, steamId, so);
            t1 != t2 && t2 in r3.signaled && t1 !in r3.signaled
  {
  }

  /** When the older of two watchers for a player ends, it deletes the entry
      of the newer one, so a later reconnect signals nobody. */
  lemma StaleWatcherDeletesNewerEntry(r: Registry, steamId: string, so: Socket)
    requires Wf(r) && !IsConnected(r, steamId)
    ensures var (r1, t1) := ArmWatcher(r, steamId);
            var (r2, t2) := ArmWatcher(r1, steamId);
            var (r3, _) := Resolve(r2, t1, TimerElapsed);
            var r4 := AddSocket(r3, steamId, so);
            steamId !in r3.watchers && t2 in r3.pending && r4.signaled == r3.signaled
  {
  }
}
