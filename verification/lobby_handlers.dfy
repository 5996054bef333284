/** The lobby action handlers of controllers/socket/handler/lobby.go as pure
    transitions over the lobby record. Database access becomes lookups in a
    `World`; persistence becomes the returned lobby; hooks, broadcasts and
    the ready-up timer become an explicit effect list. */
module LobbyHandlers {
  import opened Wrappers
  import opened LobbyModel

  // Messages of lookups that fail inside the database layer (their text is
  // produced there and is not part of this model).
  const MsgNoLobby := "Lobby not found."
  const MsgNoPlayer := "Player not found."
  const MsgNoSlot := "Unknown class or team for this lobby type."

  // Ban messages; the source appends the ban's expiry and reason.
  const MsgJoinBanned := "You have been banned from joining lobbies"
  const MsgMumbleBanned := "You have been banned from joining Mumble lobbies"
  const MsgCreateBanned := "You've been banned from creating lobbies"

  /*************************************************************************
   * Joining and the ready-up timer
   *************************************************************************/

  /** The checks LobbyJoin makes before it resolves the requested slot. */
  predicate JoinAdmissible(w: World, actor: Player, id: nat)
  {
    && BanJoin !in actor.activeBans
    && id in w.lobbies
    && !(w.lobbies[id].mumble && BanJoinMumble in actor.activeBans)
    && w.lobbies[id].state != Ended
    && w.lobbies[id].state != Initializing
  }

  /** GetLobbyID names the requested lobby (GetLobbyID fails, and yields 0,
      when the player plays nowhere). */
  predicate InSameLobby(actor: Player, id: nat)
  {
    actor.playingIn != 0 && actor.playingIn == id
  }

  /** How many ready-up notices `effects` sends to the lobby's private room. */
  function ReadyUpNotices(effects: seq<Effect>, lobbyId: nat): nat
  {
    multiset(effects)[RoomBroadcast(PrivateRoom(lobbyId), ReadyUpEvent, ReadyUpSeconds)]
  }

  /** How many ready-up timers `effects` arms for the lobby. */
  function ReadyUpTimers(effects: seq<Effect>, lobbyId: nat): nat
  {
    multiset(effects)[ReadyUpTimerArmed(lobbyId, ReadyUpSeconds)]
  }

  /** The lobby has just become full and is neither in progress nor already
      readying up: the condition of the block LobbyJoin runs under the lock. */
  predicate FillsUp(lob: Lobby, n: nat)
  {
    IsFull(lob, n) && lob.state != InProgress && lob.state != ReadyingUp
  }

  /** The block LobbyJoin runs under the lobby lock: a lobby that fills up
      starts readying up with a deadline 30 seconds ahead, arms one timer and
      sends one notice to its private room; any other lobby is left alone. */
  function StartReadyUpIfFull(lob: Lobby, n: nat, now: int): (r: Step)
    ensures r.lobby.slots == lob.slots && r.lobby.spectators == lob.spectators
    ensures r.lobby == lob.(state := r.lobby.state, readyUpDeadline := r.lobby.readyUpDeadline)
    ensures FillsUp(lob, n) ==> r.lobby.state == ReadyingUp && r.lobby.readyUpDeadline == now + ReadyUpSeconds
    ensures !FillsUp(lob, n) ==> r == Step(lob, [])
    ensures ReadyUpNotices(r.effects, lob.id) == (if FillsUp(lob, n) then 1 else 0)
    ensures ReadyUpTimers(r.effects, lob.id) == (if FillsUp(lob, n) then 1 else 0)
    ensures forall e :: e in r.effects ==>
      e == ReadyUpTimerArmed(lob.id, ReadyUpSeconds) || e == RoomBroadcast(PrivateRoom(lob.id), ReadyUpEvent, ReadyUpSeconds)
  {
    if FillsUp(lob, n) then
      Step(lob.(state := ReadyingUp, readyUpDeadline := now + ReadyUpSeconds),
           [ReadyUpTimerArmed(lob.id, ReadyUpSeconds),
            RoomBroadcast(PrivateRoom(lob.id), ReadyUpEvent, ReadyUpSeconds)])
    else Step(lob, [])
  }

  /** The leave-hook LobbyJoin fires for the lobby the player played in
      before, when that is another lobby. */
  function PreviousLobbyLeave(actor: Player, id: nat): seq<Effect>
  {
    if actor.playingIn != 0 && !InSameLobby(actor, id) then [LeaveHook(actor.playingIn, actor.steamId)] else []
  }

  /** LobbyJoin after a successful AddPlayer: the join-hook, the locked
      fullness block and a substitute's lobbyStart. */
  function AfterAdd(added: Lobby, actor: Player, id: nat, n: nat, now: int): seq<Effect>
  {
    var join := if InSameLobby(actor, id) then [] else [JoinHook(added.id, actor.steamId)];
    var locked := StartReadyUpIfFull(added, n, now);
    var start := if locked.lobby.state == InProgress then [LobbyStart(actor.steamId)] else [];
    join + locked.effects + start
  }

  /** LobbyJoin: `actor` asks for the slot of (`team`, `cls`) in lobby `id`
      at time `now`. A ban, a missing lobby, or a lobby that has ended or is
      still being set up rejects the request before anything happens. */
  function Join(w: World, actor: Player, id: nat, team: string, cls: string, password: string, now: int, env: Env): (r: Reply)
    requires ValidEnv(env)
    ensures !JoinAdmissible(w, actor, id) ==> r.Rejected? && r.effects == []
    ensures id in w.lobbies && w.lobbies[id].state in {Ended, Initializing} ==> r.Rejected? && r.effects == []
    ensures r.Accepted? ==> JoinAdmissible(w, actor, id) && env.slotIndex(w.lobbies[id].kind, team, cls).Some?
  {
    if BanJoin in actor.activeBans then Rejected(MsgJoinBanned, [])
    else if id !in w.lobbies then Rejected(MsgNoLobby, [])
    else
      var lob := w.lobbies[id];
      if lob.mumble && BanJoinMumble in actor.activeBans then Rejected(MsgMumbleBanned, [])
      else if lob.state == Ended then Rejected("Cannot join a closed lobby.", [])
      else if lob.state == Initializing then Rejected("Lobby is being setup right now.", [])
      else
        match env.slotIndex(lob.kind, team, cls)
        case None => Rejected(MsgNoSlot, [])
        case Some(slot) =>
          var leave := PreviousLobbyLeave(actor, id);
          match env.addPlayer(lob, actor, slot, password)
          case Failure(m) => Rejected(m, leave)
          case Success(added) =>
            var locked := StartReadyUpIfFull(added, env.classCount(lob.kind), now);
            Accepted(locked.lobby, leave + AfterAdd(added, actor, id, env.classCount(lob.kind), now))
  }

  /** Players in unready slots with index in [from, to), in slot order
      (GetUnreadyPlayers). */
  function UnreadyOccupants(slots: map<int, Occupant>, from: int, to: int): (ps: seq<string>)
    decreases to - from
    ensures forall p :: p in ps <==> exists i :: from <= i < to && i in slots && !slots[i].ready && slots[i].steamId == p
    ensures DistinctOccupants(slots) ==> forall k, l :: 0 <= k < l < |ps| ==> ps[k] != ps[l]
  {
    if from >= to then []
    else
      var rest := UnreadyOccupants(slots, from + 1, to);
      if from in slots && !slots[from].ready then
        var ps := [slots[from].steamId] + rest;
        assert DistinctOccupants(slots) ==> forall k, l :: 0 <= k < l < |ps| ==> ps[k] != ps[l] by {
          if DistinctOccupants(slots) {
            assert slots[from].steamId !in rest;
            forall k, l | 0 <= k < l < |ps| ensures ps[k] != ps[l] {
              if k > 0 {
                assert ps[k] == rest[k - 1] && ps[l] == rest[l - 1];
              } else {
                assert ps[l] == rest[l - 1] && ps[l] in rest;
              }
            }
          }
        }
        ps
      else rest
  }

  /** Every player sitting in an unready slot. */
  function Unready(lob: Lobby): set<string>
  {
    set i | i in lob.slots && !lob.slots[i].ready :: lob.slots[i].steamId
  }

  /** The ready-up timer's callback, applied to whatever the lobby is when
      it fires. Unless the lobby is already Waiting, InProgress or Ended, it
      goes back to Waiting, every unready occupant is moved to the
      spectators with one leave-hook each, and no ready flag stays set. */
  function ReadyUpTimeout(lob: Lobby, n: nat): (r: Step)
    requires SlotsInRange(lob, n)
    ensures lob.state in {Waiting, InProgress, Ended} ==> r == Step(lob, [])
    ensures lob.state !in {Waiting, InProgress, Ended} ==>
      && r.lobby == lob.(state := Waiting, slots := r.lobby.slots, spectators := r.lobby.spectators)
      && (forall i :: i in r.lobby.slots <==> i in lob.slots && lob.slots[i].ready)
      && (forall i :: i in r.lobby.slots ==> r.lobby.slots[i] == Occupant(lob.slots[i].steamId, false))
      && r.lobby.spectators == lob.spectators + Unready(lob)
      && (forall e :: e in r.effects ==> e.LeaveHook? && e.lobbyId == lob.id)
      && (forall p :: LeaveHook(lob.id, p) in r.effects <==> p in Unready(lob))
      && (OneSlotPerPlayer(lob) ==> forall k, l :: 0 <= k < l < |r.effects| ==> r.effects[k] != r.effects[l])
    ensures Wf(lob, n) ==> Wf(r.lobby, n)
  {
    if lob.state == Waiting || lob.state == InProgress || lob.state == Ended then Step(lob, [])
    else
      var ps := UnreadyOccupants(lob.slots, 0, 2 * n);
      var kept := map i | i in lob.slots && lob.slots[i].ready :: Occupant(lob.slots[i].steamId, false);
      var hooks := seq(|ps|, k requires 0 <= k < |ps| => LeaveHook(lob.id, ps[k]));
      assert forall p :: p in ps <==> p in Unready(lob);
      assert forall p :: LeaveHook(lob.id, p) in hooks <==> p in ps by {
        forall p ensures LeaveHook(lob.id, p) in hooks <==> p in ps {
          if p in ps {
            var k :| 0 <= k < |ps| && ps[k] == p;
            assert hooks[k] == LeaveHook(lob.id, p);
          }
        }
      }
      Step(lob.(state := Waiting, slots := kept, spectators := lob.spectators + Unready(lob)), hooks)
  }

  /*************************************************************************
   * Leaving, kicking, banning
   *************************************************************************/

  /** removePlayerFromLobby: the shared core of Leave, Kick and Ban. */
  function RemovePlayerFromLobby(w: World, id: nat, steamId: string): (r: Result<Lobby>)
    ensures r.Success? <==>
      && steamId in w.players && id in w.lobbies
      && w.lobbies[id].state != InProgress && w.lobbies[id].state != Ended
      && Playing(w.lobbies[id], steamId)
    ensures steamId in w.players && id in w.lobbies && w.lobbies[id].state == InProgress ==> r == Failure("Lobby is in progress.")
    ensures steamId in w.players && id in w.lobbies && w.lobbies[id].state == Ended ==> r == Failure("Lobby has closed.")
    ensures r.Success? ==>
      var before := w.lobbies[id];
      && !Playing(r.value, steamId)
      && r.value.spectators == before.spectators + {steamId}
      && (forall i :: i in r.value.slots <==> i in before.slots && before.slots[i].steamId != steamId)
      && (forall i :: i in r.value.slots ==> r.value.slots[i] == before.slots[i])
      && r.value == before.(slots := r.value.slots, spectators := r.value.spectators)
  {
    if steamId !in w.players then Failure(MsgNoPlayer)
    else if id !in w.lobbies then Failure(MsgNoLobby)
    else
      var lob := w.lobbies[id];
      if lob.state == InProgress then Failure("Lobby is in progress.")
      else if lob.state == Ended then Failure("Lobby has closed.")
      else if !Playing(lob, steamId) then Failure("Player not playing")
      else
        Success(lob.(slots := map i | i in lob.slots && lob.slots[i].steamId != steamId :: lob.slots[i],
                     spectators := lob.spectators + {steamId}))
  }

  /** playerCanKick: only the lobby's creator or an admin may remove others. */
  function PlayerCanKick(w: World, id: nat, actorId: string): (r: Outcome)
    ensures r.Pass? <==>
      && id in w.lobbies && actorId in w.players
      && (actorId == w.lobbies[id].creator || w.players[actorId].role == Admin)
    ensures actorId in w.players && w.players[actorId].role == Moderator && id in w.lobbies && actorId != w.lobbies[id].creator
            ==> r.Fail?
  {
    if id !in w.lobbies then Fail(MsgNoLobby)
    else if actorId !in w.players then Fail(MsgNoPlayer)
    else if actorId != w.lobbies[id].creator && w.players[actorId].role != Admin then Fail("Not authorized to kick players")
    else Pass
  }

  /** LobbyKick: `actorId` removes `target` from its slot. */
  function Kick(w: World, actorId: string, id: nat, target: string): (r: Reply)
    ensures target == actorId ==> r == Rejected("Player can't kick himself.", [])
    ensures r.Accepted? ==>
      && id in w.lobbies && actorId in w.players
      && (actorId == w.lobbies[id].creator || w.players[actorId].role == Admin)
    ensures target != actorId && PlayerCanKick(w, id, actorId).Pass? ==>
      (r.Accepted? <==> RemovePlayerFromLobby(w, id, target).Success?)
    ensures r.Accepted? ==>
      && Success(r.lobby) == RemovePlayerFromLobby(w, id, target)
      && target in r.lobby.spectators && !Playing(r.lobby, target)
      && r.effects == [LeaveHook(r.lobby.id, target)]
    ensures r.Rejected? ==> r.effects == []
  {
    if target == actorId then Rejected("Player can't kick himself.", [])
    else match PlayerCanKick(w, id, actorId)
      case Fail(m) => Rejected(m, [])
      case Pass =>
        match RemovePlayerFromLobby(w, id, target)
        case Failure(m) => Rejected(m, [])
        case Success(lob) => Accepted(lob, [LeaveHook(lob.id, target)])
  }

  /** LobbyBan: a kick that also bans `target` from this lobby. */
  function Ban(w: World, actorId: string, id: nat, target: string): (r: Reply)
    ensures target == actorId ==> r == Rejected("Player can't kick himself.", [])
    ensures r.Accepted? ==>
      && id in w.lobbies && actorId in w.players
      && (actorId == w.lobbies[id].creator || w.players[actorId].role == Admin)
    ensures target != actorId && PlayerCanKick(w, id, actorId).Pass? ==>
      (r.Accepted? <==> RemovePlayerFromLobby(w, id, target).Success?)
    ensures r.Accepted? ==>
      && r.lobby.banned == w.lobbies[id].banned + {target}
      && Success(r.lobby.(banned := w.lobbies[id].banned)) == RemovePlayerFromLobby(w, id, target)
      && target in r.lobby.spectators && !Playing(r.lobby, target)
      && r.effects == [LeaveHook(r.lobby.id, target)]
    ensures r.Rejected? ==> r.effects == []
  {
    match Kick(w, actorId, id, target)
    case Rejected(m, e) => Rejected(m, e)
    case Accepted(lob, e) => Accepted(lob.(banned := lob.banned + {target}), e)
  }

  /** LobbyLeave: the actor gives up its own slot. */
  function Leave(w: World, actorId: string, id: nat): (r: Reply)
    ensures r.Accepted? <==> RemovePlayerFromLobby(w, id, actorId).Success?
    ensures r.Accepted? ==>
      && Success(r.lobby) == RemovePlayerFromLobby(w, id, actorId)
      && actorId in r.lobby.spectators && !Playing(r.lobby, actorId)
      && r.effects == [LeaveHook(r.lobby.id, actorId)]
    ensures r.Rejected? ==> r.effects == [] && r.msg == RemovePlayerFromLobby(w, id, actorId).msg
  {
    match RemovePlayerFromLobby(w, id, actorId)
    case Failure(m) => Rejected(m, [])
    case Success(lob) => Accepted(lob, [LeaveHook(lob.id, actorId)])
  }

  /*************************************************************************
   * Creator-only mutations and closing
   *************************************************************************/

  /** LobbyClose: the creator or an admin ends a lobby that has not ended. */
  function Close(w: World, actor: Player, id: nat): (r: Reply)
    ensures r.Accepted? <==>
      && id in w.lobbies
      && (actor.steamId == w.lobbies[id].creator || actor.role == Admin)
      && w.lobbies[id].state != Ended
    ensures r.Accepted? ==>
      r.lobby == w.lobbies[id].(state := Ended) && r.effects == [ClosedNotice(w.lobbies[id].id, actor.steamId)]
    ensures id in w.lobbies && actor.steamId == w.lobbies[id].creator && w.lobbies[id].state == Ended
            ==> r == Rejected("Lobby already closed.", [])
    ensures r.Rejected? ==> r.effects == []
  {
    if id !in w.lobbies then Rejected(MsgNoLobby, [])
    else
      var lob := w.lobbies[id];
      if actor.steamId != lob.creator && actor.role != Admin then Rejected("Player not authorized to close lobby.", [])
      else if lob.state == Ended then Rejected("Lobby already closed.", [])
      else Accepted(lob.(state := Ended), [ClosedNotice(lob.id, actor.steamId)])
  }

  /** LobbyChangeOwner: only the creator may hand the lobby to another
      existing player; the lobby's chat is told who leads it now. */
  function ChangeOwner(w: World, actor: Player, id: nat, newOwner: string): (r: Reply)
    ensures r.Accepted? <==> id in w.lobbies && actor.steamId == w.lobbies[id].creator && newOwner in w.players
    ensures r.Accepted? ==>
      && r.lobby == w.lobbies[id].(creator := w.players[newOwner].steamId)
      && r.effects == [OwnerChangedNotice(w.lobbies[id].id, w.players[newOwner].steamId)]
    ensures r.Rejected? ==> r.effects == []
  {
    if id !in w.lobbies then Rejected(MsgNoLobby, [])
    else
      var lob := w.lobbies[id];
      if lob.creator != actor.steamId then Rejected("You aren't authorized to change lobby owner.", [])
      else if newOwner !in w.players then Rejected(MsgNoPlayer, [])
      else
        var heir := w.players[newOwner].steamId;
        Accepted(lob.(creator := heir), [OwnerChangedNotice(lob.id, heir)])
  }

  /** A JSON number argument, given by the results of its Int64 and Float64
      conversions (None when the conversion fails). */
  datatype JsonNumber = JsonNumber(asInt64: Option<int>, asFloat64: Option<real>)

  /** The requirement slot `slot` has now, or the empty one. */
  function CurrentRequirement(lob: Lobby, slot: int): Requirement
  {
    if slot in lob.requirements then lob.requirements[slot] else NoRequirement
  }

  /** LobbySetRequirement: the creator sets one field of one slot's
      requirement. Slot -1 is rejected like any index outside [0, 2N). */
  function SetRequirement(w: World, actor: Player, id: nat, slot: int, field: string, value: JsonNumber, env: Env): (r: Reply)
    ensures r.Accepted? <==>
      && id in w.lobbies
      && actor.steamId == w.lobbies[id].creator
      && 0 <= slot < 2 * env.classCount(w.lobbies[id].kind)
      && (|| (field == "hours" && value.asInt64.Some?)
          || (field == "lobbies" && value.asInt64.Some?)
          || (field == "reliability" && value.asFloat64.Some?))
    ensures slot == -1 ==> r.Rejected?
    ensures id in w.lobbies && actor.steamId == w.lobbies[id].creator
            && 0 <= slot < 2 * env.classCount(w.lobbies[id].kind)
            && field !in {"hours", "lobbies", "reliability"}
            ==> r == Rejected("Invalid requirement type.", [])
    ensures r.Accepted? ==>
      var before := w.lobbies[id];
      var req := CurrentRequirement(before, slot);
      && r.lobby == before.(requirements := r.lobby.requirements)
      && r.lobby.requirements.Keys == before.requirements.Keys + {slot}
      && (forall i :: i in before.requirements && i != slot ==> r.lobby.requirements[i] == before.requirements[i])
      && (field == "hours" ==> r.lobby.requirements[slot] == req.(hours := value.asInt64.value))
      && (field == "lobbies" ==> r.lobby.requirements[slot] == req.(lobbies := value.asInt64.value))
      && (field == "reliability" ==> r.lobby.requirements[slot] == req.(reliability := value.asFloat64.value))
      && r.effects == []
    ensures r.Rejected? ==> r.effects == []
  {
    if id !in w.lobbies then Rejected(MsgNoLobby, [])
    else
      var lob := w.lobbies[id];
      if lob.creator != actor.steamId then Rejected("Only lobby owners can change requirements.", [])
      else if !(slot >= 0 && slot < 2 * env.classCount(lob.kind)) then Rejected("Invalid slot.", [])
      else
        var req := CurrentRequirement(lob, slot);
        var updated :=
          if field == "hours" then
            (match value.asInt64 case Some(n) => Success(req.(hours := n)) case None => Failure("Invalid requirement."))
          else if field == "lobbies" then
            (match value.asInt64 case Some(n) => Success(req.(lobbies := n)) case None => Failure("Invalid requirement."))
          else if field == "reliability" then
            (match value.asFloat64 case Some(f) => Success(req.(reliability := f)) case None => Failure("Invalid requirement."))
          else Failure("Invalid requirement type.");
        match updated
        case Failure(m) => Rejected(m, [])
        case Success(req') => Accepted(lob.(requirements := lob.requirements[slot := req']), [])
  }

  /*************************************************************************
   * Creation: authorisation prefix and requirement seeding
   *************************************************************************/

  /** The first checks of LobbyCreate: a creation ban rejects, and so does an
      earlier lobby of the player's unless the player is an admin or a
      moderator. */
  function CreateAuthorized(actor: Player): (r: Outcome)
    ensures BanCreate in actor.activeBans ==> r == Fail(MsgCreateBanned)
    ensures BanCreate !in actor.activeBans && actor.hasCreatedLobby && actor.role == Regular
            ==> r == Fail("You have already created a lobby.")
    ensures r.Pass? <==> BanCreate !in actor.activeBans && (!actor.hasCreatedLobby || actor.role == Admin || actor.role == Moderator)
  {
    if BanCreate in actor.activeBans then Fail(MsgCreateBanned)
    else if actor.hasCreatedLobby && actor.role != Admin && actor.role != Moderator then Fail("You have already created a lobby.")
    else Pass
  }

  /** Per-class requirement of the create request; `red` and `blu` say which
      teams' slot of that class it applies to. */
  datatype ClassRequirement = ClassRequirement(cls: string, hours: int, lobbies: int, red: bool, blu: bool)

  /** The `requirements` argument of LobbyCreate. Go iterates the class map in
      an unspecified order; `classes` is that order. */
  datatype CreateRequirements = CreateRequirements(classes: seq<ClassRequirement>, generalHours: int, generalLobbies: int)

  /** A saved requirement row. */
  datatype RequirementRow = RequirementRow(slot: int, hours: int, lobbies: int)

  /** `row` is the requirement `c` saves for `team`: it sits at the slot
      LobbyGetPlayerSlot gives for (team, class) and carries c's values. */
  predicate RowFor(kind: LobbyType, team: string, c: ClassRequirement, row: RequirementRow, env: Env)
  {
    env.slotIndex(kind, team, c.cls) == Some(row.slot) && row.hours == c.hours && row.lobbies == c.lobbies
  }

  /** A row of `classes` for `team`, if its class is restricted on `team`. */
  predicate SavedFor(kind: LobbyType, classes: seq<ClassRequirement>, row: RequirementRow, env: Env)
  {
    exists c :: c in classes && ((c.blu && RowFor(kind, "blu", c, row, env)) || (c.red && RowFor(kind, "red", c, row, env)))
  }

  /** How many (class, team) pairs of `classes` are restricted and have a
      slot in this lobby type: the number of rows the class loop saves. */
  function RestrictedPairs(kind: LobbyType, classes: seq<ClassRequirement>, env: Env): nat
  {
    if classes == [] then 0
    else
      var c := classes[0];
      (if c.blu && env.slotIndex(kind, "blu", c.cls).Some? then 1 else 0)
      + (if c.red && env.slotIndex(kind, "red", c.cls).Some? then 1 else 0)
      + RestrictedPairs(kind, classes[1..], env)
  }

  /** newRequirement: one row for the slot of (team, cls), none when the slot
      does not resolve (the error is ignored by the caller). */
  function TeamRow(kind: LobbyType, team: string, c: ClassRequirement, env: Env): (rows: seq<RequirementRow>)
    requires ValidEnv(env)
    ensures rows == [] <==> env.slotIndex(kind, team, c.cls).None?
    ensures |rows| <= 1
    ensures forall row :: row in rows ==> RowFor(kind, team, c, row, env)
    ensures forall row :: row in rows ==> 0 <= row.slot < 2 * env.classCount(kind)
  {
    assert SlotIndexContract(env, kind, team, c.cls);
    match env.slotIndex(kind, team, c.cls)
    case None => []
    case Some(slot) => [RequirementRow(slot, c.hours, c.lobbies)]
  }

  /** The class loop: blu first, then red, for every class in order. Every
      row is the one some class saves for a team it is restricted on, and
      every such class and team whose slot resolves has its row. */
  function ClassRows(kind: LobbyType, classes: seq<ClassRequirement>, env: Env): (rows: seq<RequirementRow>)
    requires ValidEnv(env)
    ensures |rows| <= 2 * |classes|
    ensures |rows| == RestrictedPairs(kind, classes, env)
    ensures forall row :: row in rows ==> 0 <= row.slot < 2 * env.classCount(kind)
    ensures forall row :: row in rows ==> SavedFor(kind, classes, row, env)
    ensures forall c :: c in classes && c.blu && env.slotIndex(kind, "blu", c.cls).Some? ==>
              RequirementRow(env.slotIndex(kind, "blu", c.cls).value, c.hours, c.lobbies) in rows
    ensures forall c :: c in classes && c.red && env.slotIndex(kind, "red", c.cls).Some? ==>
              RequirementRow(env.slotIndex(kind, "red", c.cls).value, c.hours, c.lobbies) in rows
  {
    if classes == [] then []
    else
      var c := classes[0];
      var head := (if c.blu then TeamRow(kind, "blu", c, env) else [])
                + (if c.red then TeamRow(kind, "red", c, env) else []);
      var tail := ClassRows(kind, classes[1..], env);
      var rows := head + tail;
      assert |head| == (if c.blu && env.slotIndex(kind, "blu", c.cls).Some? then 1 else 0)
                     + (if c.red && env.slotIndex(kind, "red", c.cls).Some? then 1 else 0);
      SavedExtends(kind, classes, env);
      assert forall c' :: c' in classes ==> c' == c || c' in classes[1..];
      rows
  }

  /** A row saved for the first class, or for one of the others, is a row
      saved for the whole list. */
  lemma SavedExtends(kind: LobbyType, classes: seq<ClassRequirement>, env: Env)
    requires classes != []
    ensures forall row :: SavedFor(kind, classes[1..], row, env) ==> SavedFor(kind, classes, row, env)
    ensures forall row ::
      (|| (classes[0].blu && RowFor(kind, "blu", classes[0], row, env))
       || (classes[0].red && RowFor(kind, "red", classes[0], row, env))) ==> SavedFor(kind, classes, row, env)
  {
    forall row | SavedFor(kind, classes[1..], row, env) ensures SavedFor(kind, classes, row, env) {
      var c :| c in classes[1..] && ((c.blu && RowFor(kind, "blu", c, row, env)) || (c.red && RowFor(kind, "red", c, row, env)));
      assert c in classes;
    }
    assert classes[0] in classes;
  }

  /** The general-requirement loop from slot `from` up to slot 2n - 1. */
  function GeneralRows(from: nat, n: nat, hours: int, lobbies: int): (rows: seq<RequirementRow>)
    decreases 2 * n - from
    ensures |rows| == if from < 2 * n then 2 * n - from else 0
    ensures forall k :: 0 <= k < |rows| ==> rows[k] == RequirementRow(from + k, hours, lobbies)
  {
    if from >= 2 * n then []
    else [RequirementRow(from, hours, lobbies)] + GeneralRows(from + 1, n, hours, lobbies)
  }

  /** The requirement rows LobbyCreate saves: the class rows, then, when the
      general requirement has nonzero hours or lobbies, one row per slot. */
  function SeedRequirements(kind: LobbyType, reqs: Option<CreateRequirements>, env: Env): (rows: seq<RequirementRow>)
    requires ValidEnv(env)
    ensures reqs.None? ==> rows == []
    ensures forall row :: row in rows ==> 0 <= row.slot < 2 * env.classCount(kind)
    ensures reqs.Some? ==>
      var general := reqs.value.generalHours != 0 || reqs.value.generalLobbies != 0;
      var n := env.classCount(kind);
      var classPart := ClassRows(kind, reqs.value.classes, env);
      && |rows| == |classPart| + (if general then 2 * n else 0)
      && rows[..|classPart|] == classPart
      && (general ==> forall s :: 0 <= s < 2 * n ==>
            rows[|classPart| + s] == RequirementRow(s, reqs.value.generalHours, reqs.value.generalLobbies))
  {
    match reqs
    case None => []
    case Some(rq) =>
      var n := env.classCount(kind);
      var general := if rq.generalHours != 0 || rq.generalLobbies != 0 then GeneralRows(0, n, rq.generalHours, rq.generalLobbies) else [];
      ClassRows(kind, rq.classes, env) + general
  }
}
