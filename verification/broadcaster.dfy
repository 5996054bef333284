/** Delivery decisions of the single-consumer broadcaster
    (controllers/broadcaster/broadcaster.go). The goroutine, the channels and
    the ticker are not modelled: the message channel becomes a queue of
    commands that the consumer folds over until it meets Stop. */
module Broadcaster {
  import opened Wrappers

  /** Opaque handle of a socket.io connection. */
  type SocketRef = nat

  /** A queued message: an empty room means "direct to steamId". */
  datatype Message = Message(room: string, steamId: string, event: string, content: string)

  /** One receive of the consumer's select: a message or the stop signal. */
  datatype Command = Deliver(msg: Message) | Stop

  /** What the consumer does with one message. */
  datatype Delivery =
    | Emit(socket: SocketRef, event: string, content: string)
    | RoomBroadcast(room: string, event: string, content: string)

  /** SendMessage: a direct message to one player. */
  function SendMessage(steamId: string, event: string, content: string): (m: Message)
    ensures m.room == "" && m.steamId == steamId
    ensures m.event == event && m.content == content
  {
    Message("", steamId, event, content)
  }

  /** SendMessageToRoom: a message for every socket in a room. */
  function SendMessageToRoom(room: string, event: string, content: string): (m: Message)
    ensures m.steamId == "" && m.room == room
    ensures m.event == event && m.content == content
  {
    Message(room, "", event, content)
  }

  /** The routing branch of the consumer loop: a message with an empty room
      goes to the socket mapped for its steamId, or is dropped when there is
      none; any other message is broadcast to its room, whatever its steamId. */
  function Route(m: Message, sockets: map<string, SocketRef>): (d: Option<Delivery>)
    ensures d.None? <==> m.room == "" && m.steamId !in sockets
    ensures d.Some? ==> d.value.event == m.event && d.value.content == m.content
    ensures d.Some? && d.value.Emit? <==> m.room == "" && m.steamId in sockets
    ensures d.Some? && d.value.Emit? ==> d.value.socket == sockets[m.steamId]
    ensures d.Some? && d.value.RoomBroadcast? ==> d.value.room == m.room
  {
    if m.room == "" then
      if m.steamId in sockets then Some(Emit(sockets[m.steamId], m.event, m.content))
      else None
    else Some(RoomBroadcast(m.room, m.event, m.content))
  }

  /** What routing one message delivers: its delivery, or nothing. */
  function Routed(m: Message, sockets: map<string, SocketRef>): (out: seq<Delivery>)
    ensures |out| <= 1
    ensures out == [] <==> Route(m, sockets).None?
  {
    match Route(m, sockets) case Some(d) => [d] case None => []
  }

  /** Command k of `queue` is a message, and no Stop comes before it. */
  predicate BeforeStop(queue: seq<Command>, k: nat)
    requires k < |queue|
  {
    queue[k].Deliver? && forall j :: 0 <= j < k ==> queue[j].Deliver?
  }

  /** Behind a leading message, the first message is before any Stop, and so
      is every message that is before a Stop in the rest of the queue. */
  lemma BeforeStopShifts(queue: seq<Command>)
    requires |queue| > 0 && queue[0].Deliver?
    ensures BeforeStop(queue, 0)
    ensures forall k :: 0 <= k < |queue| - 1 && BeforeStop(queue[1..], k) ==> BeforeStop(queue, k + 1)
  {
  }

  /** Everything the consumer delivers from `queue`, in order: one delivery
      per routable message, nothing for a dropped one, nothing after Stop. */
  function Run(queue: seq<Command>, sockets: map<string, SocketRef>): (out: seq<Delivery>)
    ensures |out| <= |queue|
    ensures forall j :: 0 <= j < |out| ==>
      exists k :: 0 <= k < |queue| && BeforeStop(queue, k) && Route(queue[k].msg, sockets) == Some(out[j])
    ensures (forall k :: 0 <= k < |queue| ==> queue[k].Deliver? && Route(queue[k].msg, sockets).Some?) ==> |out| == |queue|
  {
    if queue == [] then []
    else match queue[0]
      case Stop => []
      case Deliver(m) =>
        var head := Routed(m, sockets);
        var rest := Run(queue[1..], sockets);
        BeforeStopShifts(queue);
        assert forall j :: |head| <= j < |head + rest| ==> (head + rest)[j] == rest[j - |head|];
        head + rest
  }

  /** The consumer loop itself, run over a finite queue. It returns the
      deliveries made and how many commands it consumed; `stopped` tells
      whether it returned on a Stop. */
  method Drain(queue: seq<Command>, sockets: map<string, SocketRef>)
    returns (out: seq<Delivery>, consumed: nat, stopped: bool)
    ensures out == Run(queue, sockets)
    ensures consumed <= |queue|
    ensures stopped <==> Stop in queue
    ensures !stopped ==> consumed == |queue|
    ensures stopped ==> consumed >= 1 && queue[consumed - 1] == Stop
    ensures forall k :: 0 <= k < consumed - (if stopped then 1 else 0) ==> queue[k].Deliver?
  {
    out := [];
    var i := 0;
    stopped := false;
    while i < |queue|
      invariant 0 <= i <= |queue|
      invariant forall k :: 0 <= k < i ==> queue[k].Deliver?
      invariant out + Run(queue[i..], sockets) == Run(queue, sockets)
    {
      RunStep(queue, i, sockets);
      if queue[i].Stop? {
        stopped := true;
        consumed := i + 1;
        return;
      }
      var step := Routed(queue[i].msg, sockets);
      Associative(out, step, Run(queue[i + 1..], sockets));
      out := out + step;
      i := i + 1;
    }
    consumed := i;
  }

  /** One step of the fold at position i: a Stop ends it, a message adds its
      routed delivery, if any, in front of the rest. */
  lemma RunStep(queue: seq<Command>, i: nat, sockets: map<string, SocketRef>)
    requires i < |queue|
    ensures queue[i].Stop? ==> Run(queue[i..], sockets) == []
    ensures queue[i].Deliver? ==> Run(queue[i..], sockets) == Routed(queue[i].msg, sockets) + Run(queue[i + 1..], sockets)
  {
  }

  /** Nothing queued after a Stop is ever delivered. */
  lemma {:induction false} NothingAfterStop(pre: seq<Command>, post: seq<Command>, sockets: map<string, SocketRef>)
    ensures Run(pre + [Stop] + post, sockets) == Run(pre, sockets)
  {
    if pre == [] {
      assert (pre + [Stop] + post)[0] == Stop;
    } else {
      assert (pre + [Stop] + post)[1..] == pre[1..] + [Stop] + post;
      NothingAfterStop(pre[1..], post, sockets);
    }
  }

  /** A direct message to an unmapped player is dropped and the consumer
      carries on: the outcome is as if it had never been queued. */
  lemma {:induction false} UnmappedIsDropped(pre: seq<Command>, m: Message, post: seq<Command>, sockets: map<string, SocketRef>)
    requires m.room == "" && m.steamId !in sockets
    ensures Run(pre + [Deliver(m)] + post, sockets) == Run(pre + post, sockets)
  {
    if pre == [] {
      assert (pre + [Deliver(m)] + post)[1..] == post;
      assert pre + post == post;
    } else {
      assert (pre + [Deliver(m)] + post)[1..] == pre[1..] + [Deliver(m)] + post;
      assert (pre + post)[1..] == pre[1..] + post;
      assert (pre + post)[0] == pre[0];
      UnmappedIsDropped(pre[1..], m, post, sockets);
    }
  }

  /** A direct message to a mapped player, queued after any run of messages
      with no Stop among them, is emitted exactly once, to that player's
      socket, after what those messages deliver and before whatever follows. */
  lemma {:induction false} DirectDeliveredOnce(pre: seq<Command>, steamId: string, event: string, content: string,
                                               rest: seq<Command>, sockets: map<string, SocketRef>)
    requires steamId in sockets
    requires forall k :: 0 <= k < |pre| ==> pre[k].Deliver?
    ensures Run(pre + [Deliver(SendMessage(steamId, event, content))] + rest, sockets)
         == Run(pre, sockets) + [Emit(sockets[steamId], event, content)] + Run(rest, sockets)
  {
    var x := Deliver(SendMessage(steamId, event, content));
    if pre == [] {
      assert pre + [x] + rest == [x] + rest;
    } else {
      var q := pre + [x] + rest;
      assert q[0] == pre[0] && q[1..] == pre[1..] + [x] + rest;
      assert Run(q, sockets) == Routed(pre[0].msg, sockets) + Run(q[1..], sockets);
      assert Run(pre, sockets) == Routed(pre[0].msg, sockets) + Run(pre[1..], sockets);
      DirectDeliveredOnce(pre[1..], steamId, event, content, rest, sockets);
      Regroup(Routed(pre[0].msg, sockets), Run(pre[1..], sockets), Emit(sockets[steamId], event, content), Run(rest, sockets));
    }
  }

  /** Concatenation of deliveries is associative. */
  lemma Associative(a: seq<Delivery>, b: seq<Delivery>, c: seq<Delivery>)
    ensures a + b + c == a + (b + c)
  {
  }

  /** Moving the head's deliveries across a delivery in the middle. */
  lemma Regroup(head: seq<Delivery>, mid: seq<Delivery>, d: Delivery, tail: seq<Delivery>)
    ensures head + (mid + [d] + tail) == (head + mid) + [d] + tail
  {
  }

  /** A room message is one broadcast to that room; a message "to the room"
      with an empty room name is routed as a direct message to steamId "". */
  lemma RoomRouting(room: string, event: string, content: string, sockets: map<string, SocketRef>)
    ensures room != "" ==> Route(SendMessageToRoom(room, event, content), sockets) == Some(RoomBroadcast(room, event, content))
    ensures room == "" ==> Route(SendMessageToRoom(room, event, content), sockets) == Route(SendMessage("", event, content), sockets)
  {
  }
}
