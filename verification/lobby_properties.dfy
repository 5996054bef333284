/** Properties of the lobby handlers that take more than one call to state,
    or that are too costly to prove as part of a handler's own contract. */
module LobbyProperties {
  import opened Wrappers
  import opened LobbyModel
  import opened LobbyHandlers

  /*************************************************************************
   * LobbyJoin
   *************************************************************************/

  /** The acceptance direction. Once every check has passed and the slot
      has resolved, the join is accepted exactly when AddPlayer succeeds. The
      saved lobby is then the one AddPlayer produced, after the fullness
      transition. A refusal by AddPlayer is returned as it is, with the
      previous lobby's leave-hook already fired. */
  lemma JoinAcceptedIffAdded(w: World, actor: Player, id: nat, team: string, cls: string, password: string, now: int, env: Env)
    requires ValidEnv(env)
    ensures JoinAdmissible(w, actor, id) && env.slotIndex(w.lobbies[id].kind, team, cls).Some? ==>
      var lob := w.lobbies[id];
      var added := env.addPlayer(lob, actor, env.slotIndex(lob.kind, team, cls).value, password);
      var r := Join(w, actor, id, team, cls, password, now, env);
      && (r.Accepted? <==> added.Success?)
      && (added.Success? ==> r.lobby == StartReadyUpIfFull(added.value, env.classCount(lob.kind), now).lobby)
      && (added.Failure? ==> r == Rejected(added.msg, PreviousLobbyLeave(actor, id)))
  {
  }

  /** The complete effect list of an accepted join, in order: the previous
      lobby's leave-hook, the join-hook unless the player was already in
      this lobby, the ready-up timer and notice when the join fills the
      lobby, and a substitute's lobbyStart when the lobby is in progress.
      Nothing else is fired. */
  lemma JoinEffectsExact(w: World, actor: Player, id: nat, team: string, cls: string, password: string, now: int, env: Env)
    requires ValidEnv(env) && WorldWf(w)
    ensures var r := Join(w, actor, id, team, cls, password, now, env);
      r.Accepted? ==>
        var before := w.lobbies[id];
        var fills := IsFull(r.lobby, env.classCount(before.kind)) && before.state != InProgress && before.state != ReadyingUp;
        r.effects == PreviousLobbyLeave(actor, id)
                   + (if InSameLobby(actor, id) then [] else [JoinHook(id, actor.steamId)])
                   + (if fills then [ReadyUpTimerArmed(id, ReadyUpSeconds), RoomBroadcast(PrivateRoom(id), ReadyUpEvent, ReadyUpSeconds)] else [])
                   + (if before.state == InProgress then [LobbyStart(actor.steamId)] else [])
  {
    var r := Join(w, actor, id, team, cls, password, now, env);
    if r.Accepted? {
      var lob := w.lobbies[id];
      var n := env.classCount(lob.kind);
      var slot := env.slotIndex(lob.kind, team, cls).value;
      assert AddPlayerContract(env, lob, actor, slot, password);
      var added := env.addPlayer(lob, actor, slot, password).value;
      assert added.id == id && added.state == lob.state;
      var locked := StartReadyUpIfFull(added, n, now);
      assert IsFull(r.lobby, n) == IsFull(added, n);
      assert locked.lobby.state == InProgress <==> lob.state == InProgress;
    }
  }

  /** In a well-formed world every effect of a join names the right lobby:
      the leave-hook names the lobby the player came from, and the join-hook
      and ready-up timer name the lobby joined. */
  lemma JoinEffectsNameTheirLobbies(w: World, actor: Player, id: nat, team: string, cls: string, password: string, now: int, env: Env)
    requires ValidEnv(env) && WorldWf(w)
    ensures var r := Join(w, actor, id, team, cls, password, now, env);
      && (forall e :: e in r.effects && e.LeaveHook? ==> e.lobbyId == actor.playingIn)
      && (forall e :: e in r.effects && (e.JoinHook? || e.ReadyUpTimerArmed?) ==> e.lobbyId == id)
  {
    var r := Join(w, actor, id, team, cls, password, now, env);
    if r.Accepted? {
      var lob := w.lobbies[id];
      var n := env.classCount(lob.kind);
      var slot := env.slotIndex(lob.kind, team, cls).value;
      assert AddPlayerContract(env, lob, actor, slot, password);
      var added := env.addPlayer(lob, actor, slot, password).value;
      AfterAddParts(added, actor, id, n, now);
      var locked := StartReadyUpIfFull(added, n, now);
      var join, start :| && AfterAdd(added, actor, id, n, now) == join + locked.effects + start
                         && (forall e :: e in join ==> e == JoinHook(added.id, actor.steamId))
                         && (forall e :: e in start ==> e.LobbyStart?);
      NamedLobbies(PreviousLobbyLeave(actor, id), join, locked.effects, start, actor.playingIn, id);
    }
  }

  /** The lobbies named by effects built from a leave part, a join part, the
      locked block and a lobbyStart part. */
  lemma NamedLobbies(leave: seq<Effect>, join: seq<Effect>, locked: seq<Effect>, start: seq<Effect>, prev: nat, id: nat)
    requires forall e :: e in leave ==> e.LeaveHook? && e.lobbyId == prev
    requires forall e :: e in join ==> e.JoinHook? && e.lobbyId == id
    requires forall e :: e in locked ==> (e.ReadyUpTimerArmed? && e.lobbyId == id) || e.RoomBroadcast?
    requires forall e :: e in start ==> e.LobbyStart?
    ensures forall e :: e in leave + (join + locked + start) && e.LeaveHook? ==> e.lobbyId == prev
    ensures forall e :: e in leave + (join + locked + start) && (e.JoinHook? || e.ReadyUpTimerArmed?) ==> e.lobbyId == id
  {
  }

  /** Storing the lobby an accepted join saves back under its key keeps the
      world well formed. */
  lemma JoinKeepsWorldWf(w: World, actor: Player, id: nat, team: string, cls: string, password: string, now: int, env: Env)
    requires ValidEnv(env) && WorldWf(w)
    ensures var r := Join(w, actor, id, team, cls, password, now, env);
      r.Accepted? ==> WorldWf(w.(lobbies := w.lobbies[id := r.lobby]))
  {
    var r := Join(w, actor, id, team, cls, password, now, env);
    if r.Accepted? {
      var lob := w.lobbies[id];
      var slot := env.slotIndex(lob.kind, team, cls).value;
      assert AddPlayerContract(env, lob, actor, slot, password);
    }
  }

  /** The previous lobby's leave-hook fires iff every check passed, the slot
      resolved, and the player played in another lobby. It fires before
      AddPlayer, so a join that AddPlayer then refuses still carries it, and
      it is the only effect a refused join can carry. */
  lemma JoinLeaveHook(w: World, actor: Player, id: nat, team: string, cls: string, password: string, now: int, env: Env)
    requires ValidEnv(env)
    ensures var r := Join(w, actor, id, team, cls, password, now, env);
      && ((LeaveHook(actor.playingIn, actor.steamId) in r.effects)
          <==> (&& JoinAdmissible(w, actor, id)
                && env.slotIndex(w.lobbies[id].kind, team, cls).Some?
                && actor.playingIn != 0 && actor.playingIn != id))
      && (r.Rejected? ==> forall e :: e in r.effects ==> e.LeaveHook?)
  {
  }

  /** A successful join fires the join-hook iff the player was not already
      playing in this lobby. */
  lemma JoinHookUnlessSameLobby(w: World, actor: Player, id: nat, team: string, cls: string, password: string, now: int, env: Env)
    requires ValidEnv(env)
    ensures var r := Join(w, actor, id, team, cls, password, now, env);
      r.Accepted? ==> (JoinHook(w.lobbies[id].id, actor.steamId) in r.effects <==> !InSameLobby(actor, id))
  {
    var r := Join(w, actor, id, team, cls, password, now, env);
    if r.Accepted? {
      var lob := w.lobbies[id];
      var slot := env.slotIndex(lob.kind, team, cls).value;
      assert AddPlayerContract(env, lob, actor, slot, password);
      var added := env.addPlayer(lob, actor, slot, password).value;
      assert added.id == lob.id;
    }
  }

  /** After a successful join the player sits, not ready, in the slot its
      team and class resolve to; besides occupancy only the state and the
      ready-up deadline can change, and the lobby invariant is kept. */
  lemma JoinSeatsPlayer(w: World, actor: Player, id: nat, team: string, cls: string, password: string, now: int, env: Env)
    requires ValidEnv(env)
    ensures var r := Join(w, actor, id, team, cls, password, now, env);
      r.Accepted? ==>
        var before := w.lobbies[id];
        var n := env.classCount(before.kind);
        var slot := env.slotIndex(before.kind, team, cls).value;
        && slot in r.lobby.slots && r.lobby.slots[slot] == Occupant(actor.steamId, false)
        && r.lobby == before.(slots := r.lobby.slots, spectators := r.lobby.spectators,
                              state := r.lobby.state, readyUpDeadline := r.lobby.readyUpDeadline)
        && (Wf(before, n) ==> Wf(r.lobby, n))
  {
    var r := Join(w, actor, id, team, cls, password, now, env);
    if r.Accepted? {
      var lob := w.lobbies[id];
      var slot := env.slotIndex(lob.kind, team, cls).value;
      assert AddPlayerContract(env, lob, actor, slot, password);
      assert SlotIndexContract(env, lob.kind, team, cls);
      var added := env.addPlayer(lob, actor, slot, password).value;
      assert r.lobby == StartReadyUpIfFull(added, env.classCount(lob.kind), now).lobby;
    }
  }

  /** Ready-up notices and timers of a reply built from a leave-hook part, a
      join-hook part, the locked block and a lobbyStart part all come from
      the locked block. */
  lemma CountsOfParts(leave: seq<Effect>, join: seq<Effect>, locked: seq<Effect>, start: seq<Effect>, lobbyId: nat)
    requires forall e :: e in leave ==> e.LeaveHook?
    requires forall e :: e in join ==> e.JoinHook?
    requires forall e :: e in start ==> e.LobbyStart?
    ensures ReadyUpNotices(leave + (join + locked + start), lobbyId) == ReadyUpNotices(locked, lobbyId)
    ensures ReadyUpTimers(leave + (join + locked + start), lobbyId) == ReadyUpTimers(locked, lobbyId)
  {
    assert multiset(leave + (join + locked + start)) == multiset(leave) + multiset(join) + multiset(locked) + multiset(start);
    var notice := RoomBroadcast(PrivateRoom(lobbyId), ReadyUpEvent, ReadyUpSeconds);
    var timer := ReadyUpTimerArmed(lobbyId, ReadyUpSeconds);
    assert notice !in leave && notice !in join && notice !in start;
    assert timer !in leave && timer !in join && timer !in start;
  }

  /** The effects a successful join emits after the leave-hook, split into
      its three parts: the join-hook, the locked block and the lobbyStart. */
  lemma AfterAddParts(added: Lobby, actor: Player, id: nat, n: nat, now: int)
    ensures var locked := StartReadyUpIfFull(added, n, now);
      exists join, start ::
        && AfterAdd(added, actor, id, n, now) == join + locked.effects + start
        && (forall e :: e in join ==> e == JoinHook(added.id, actor.steamId))
        && (forall e :: e in start ==> e.LobbyStart?)
  {
    var join := if InSameLobby(actor, id) then [] else [JoinHook(added.id, actor.steamId)];
    var locked := StartReadyUpIfFull(added, n, now);
    var start := if locked.lobby.state == InProgress then [LobbyStart(actor.steamId)] else [];
    assert AfterAdd(added, actor, id, n, now) == join + locked.effects + start;
  }

  /** Counting ready-up notices and timers of a successful join: only the
      locked block contributes any. */
  lemma AfterAddCounts(added: Lobby, actor: Player, id: nat, n: nat, now: int, leave: seq<Effect>)
    requires forall e :: e in leave ==> e.LeaveHook?
    ensures ReadyUpNotices(leave + AfterAdd(added, actor, id, n, now), added.id) == (if FillsUp(added, n) then 1 else 0)
    ensures ReadyUpTimers(leave + AfterAdd(added, actor, id, n, now), added.id) == (if FillsUp(added, n) then 1 else 0)
  {
    var locked := StartReadyUpIfFull(added, n, now);
    AfterAddParts(added, actor, id, n, now);
    var join, start :| && AfterAdd(added, actor, id, n, now) == join + locked.effects + start
                       && (forall e :: e in join ==> e == JoinHook(added.id, actor.steamId))
                       && (forall e :: e in start ==> e.LobbyStart?);
    CountsOfParts(leave, join, locked.effects, start, added.id);
  }

  /** The fullness transition. After a successful join, a lobby that is now
      full and was neither in progress nor readying up is ReadyingUp with a
      deadline 30 seconds after `now`, and exactly one ready-up timer and one
      "lobbyReadyUp" notice to its private room are emitted; otherwise its
      state and deadline are untouched and neither is emitted. */
  lemma JoinStartsReadyUpWhenFull(w: World, actor: Player, id: nat, team: string, cls: string, password: string, now: int, env: Env)
    requires ValidEnv(env)
    ensures var r := Join(w, actor, id, team, cls, password, now, env);
      r.Accepted? ==>
        var before := w.lobbies[id];
        var fills := IsFull(r.lobby, env.classCount(before.kind)) && before.state != InProgress && before.state != ReadyingUp;
        && (fills ==> r.lobby.state == ReadyingUp && r.lobby.readyUpDeadline == now + ReadyUpSeconds)
        && (!fills ==> r.lobby.state == before.state && r.lobby.readyUpDeadline == before.readyUpDeadline)
        && ReadyUpNotices(r.effects, before.id) == (if fills then 1 else 0)
        && ReadyUpTimers(r.effects, before.id) == (if fills then 1 else 0)
  {
    var r := Join(w, actor, id, team, cls, password, now, env);
    if r.Accepted? {
      var lob := w.lobbies[id];
      var n := env.classCount(lob.kind);
      var slot := env.slotIndex(lob.kind, team, cls).value;
      assert AddPlayerContract(env, lob, actor, slot, password);
      var added := env.addPlayer(lob, actor, slot, password).value;
      assert added.id == lob.id && added.state == lob.state;
      assert IsFull(r.lobby, n) == IsFull(added, n);
      AfterAddCounts(added, actor, id, n, now, PreviousLobbyLeave(actor, id));
    }
  }

  /** A substitute, joining a lobby that is already in progress, gets a
      direct lobbyStart; nobody else does. */
  lemma JoinSubstituteGetsLobbyStart(w: World, actor: Player, id: nat, team: string, cls: string, password: string, now: int, env: Env)
    requires ValidEnv(env)
    ensures var r := Join(w, actor, id, team, cls, password, now, env);
      r.Accepted? ==> (LobbyStart(actor.steamId) in r.effects <==> w.lobbies[id].state == InProgress)
  {
    var r := Join(w, actor, id, team, cls, password, now, env);
    if r.Accepted? {
      var lob := w.lobbies[id];
      var slot := env.slotIndex(lob.kind, team, cls).value;
      assert AddPlayerContract(env, lob, actor, slot, password);
    }
  }

  /** Joining and then leaving round-trips the player's seat: a player who
      joined a lobby that had not started can leave it again, and is then a
      spectator whose slot is free, with one leave-hook fired. */
  lemma JoinThenLeave(w: World, actor: Player, id: nat, team: string, cls: string, password: string, now: int, env: Env)
    requires ValidEnv(env)
    requires actor.steamId in w.players
    ensures var r := Join(w, actor, id, team, cls, password, now, env);
      r.Accepted? && w.lobbies[id].state != InProgress ==>
        var l := Leave(w.(lobbies := w.lobbies[id := r.lobby]), actor.steamId, id);
        && l.Accepted?
        && actor.steamId in l.lobby.spectators
        && !Playing(l.lobby, actor.steamId)
        && env.slotIndex(w.lobbies[id].kind, team, cls).value !in l.lobby.slots
        && l.effects == [LeaveHook(w.lobbies[id].id, actor.steamId)]
  {
    var r := Join(w, actor, id, team, cls, password, now, env);
    if r.Accepted? && w.lobbies[id].state != InProgress {
      JoinSeatsPlayer(w, actor, id, team, cls, password, now, env);
      var before := w.lobbies[id];
      var slot := env.slotIndex(before.kind, team, cls).value;
      assert AddPlayerContract(env, before, actor, slot, password);
      assert r.lobby.state == before.state || r.lobby.state == ReadyingUp;
      assert Playing(r.lobby, actor.steamId) by {
        assert slot in r.lobby.slots && r.lobby.slots[slot].steamId == actor.steamId;
      }
    }
  }

  /*************************************************************************
   * The ready-up timer
   *************************************************************************/

  /** The timer callback is idempotent: once it has acted the lobby is
      Waiting, so a second firing changes nothing and fires no hook. */
  lemma TimeoutIdempotent(lob: Lobby, n: nat)
    requires SlotsInRange(lob, n)
    ensures var s := ReadyUpTimeout(lob, n);
      SlotsInRange(s.lobby, n) && ReadyUpTimeout(s.lobby, n) == Step(s.lobby, [])
  {
  }

  /** The race the re-check guards against: if anything moved the lobby to
      Waiting, InProgress or Ended between the join that filled it and the
      timer firing, the callback evicts nobody. If nothing did, and the
      joiner has not readied up, the lobby goes back to Waiting and the joiner
      is moved to the spectators with a leave-hook. */
  lemma FillingJoinThenTimeout(w: World, actor: Player, id: nat, team: string, cls: string, password: string,
                               now: int, env: Env, moved: LobbyState)
    requires ValidEnv(env)
    requires id in w.lobbies && Wf(w.lobbies[id], env.classCount(w.lobbies[id].kind))
    ensures var r := Join(w, actor, id, team, cls, password, now, env);
      var n := env.classCount(w.lobbies[id].kind);
      r.Accepted? && r.lobby.state == ReadyingUp && w.lobbies[id].state != ReadyingUp ==>
        && SlotsInRange(r.lobby, n)
        && (moved in {Waiting, InProgress, Ended} ==>
              ReadyUpTimeout(r.lobby.(state := moved), n) == Step(r.lobby.(state := moved), []))
        && var s := ReadyUpTimeout(r.lobby, n);
           && s.lobby.state == Waiting
           && actor.steamId in s.lobby.spectators
           && !Playing(s.lobby, actor.steamId)
           && LeaveHook(w.lobbies[id].id, actor.steamId) in s.effects
  {
    var r := Join(w, actor, id, team, cls, password, now, env);
    var n := env.classCount(w.lobbies[id].kind);
    if r.Accepted? && r.lobby.state == ReadyingUp && w.lobbies[id].state != ReadyingUp {
      JoinSeatsPlayer(w, actor, id, team, cls, password, now, env);
      var before := w.lobbies[id];
      var slot := env.slotIndex(before.kind, team, cls).value;
      assert r.lobby.id == before.id;
      var s := ReadyUpTimeout(r.lobby, n);
      assert actor.steamId in Unready(r.lobby);
      assert OneSlotPerPlayer(r.lobby);
    }
  }

  /*************************************************************************
   * Leave, kick, ban
   *************************************************************************/

  /** Removing a player keeps the lobby invariant, and the player ends up a
      spectator of the same lobby: never in neither set. */
  lemma RemoveKeepsInvariant(w: World, id: nat, steamId: string, n: nat)
    requires id in w.lobbies && Wf(w.lobbies[id], n)
    ensures var r := RemovePlayerFromLobby(w, id, steamId);
      r.Success? ==> Wf(r.value, n) && steamId in r.value.spectators && !Playing(r.value, steamId)
  {
  }

  /** A moderator who did not create the lobby can neither kick nor ban. */
  lemma ModeratorCannotKickOrBan(w: World, actorId: string, id: nat, target: string)
    requires actorId in w.players && w.players[actorId].role == Moderator
    requires id in w.lobbies && w.lobbies[id].creator != actorId
    ensures Kick(w, actorId, id, target).Rejected?
    ensures Ban(w, actorId, id, target).Rejected?
  {
  }

  /*************************************************************************
   * Close, ChangeOwner, SetRequirement
   *************************************************************************/

  /** Once a lobby is closed it refuses joins, a second close by its creator,
      and leaving, kicking or banning its players; its ready-up timer does
      nothing. */
  lemma ClosedLobbyIsFinal(w: World, actor: Player, id: nat, joiner: Player, team: string, cls: string,
                           password: string, now: int, env: Env, someone: string, n: nat)
    requires ValidEnv(env)
    requires Close(w, actor, id).Accepted? && actor.steamId == w.lobbies[id].creator
    ensures var closed := Close(w, actor, id).lobby;
      var w' := w.(lobbies := w.lobbies[id := closed]);
      && closed.state == Ended
      && (|| Join(w', joiner, id, team, cls, password, now, env) == Rejected("Cannot join a closed lobby.", [])
          || Join(w', joiner, id, team, cls, password, now, env).msg in {MsgJoinBanned, MsgMumbleBanned})
      && Close(w', actor, id) == Rejected("Lobby already closed.", [])
      && Leave(w', someone, id).Rejected?
      && Kick(w', actor.steamId, id, someone).Rejected?
      && Ban(w', actor.steamId, id, someone).Rejected?
      && (SlotsInRange(closed, n) ==> ReadyUpTimeout(closed, n) == Step(closed, []))
  {
  }

  /** After the creator hands the lobby to another player, the old creator
      may no longer change its requirements or its owner, and the new one may
      set a requirement on any valid slot. */
  lemma ChangeOwnerMovesCreatorRights(w: World, actor: Player, id: nat, newOwner: string, heir: Player,
                                      slot: int, value: JsonNumber, env: Env)
    requires ChangeOwner(w, actor, id, newOwner).Accepted?
    requires heir.steamId == w.players[newOwner].steamId != actor.steamId
    requires value.asInt64.Some?
    ensures var w' := w.(lobbies := w.lobbies[id := ChangeOwner(w, actor, id, newOwner).lobby]);
      && SetRequirement(w', actor, id, slot, "hours", value, env) == Rejected("Only lobby owners can change requirements.", [])
      && ChangeOwner(w', actor, id, newOwner) == Rejected("You aren't authorized to change lobby owner.", [])
      && (SetRequirement(w', heir, id, slot, "hours", value, env).Accepted?
          <==> 0 <= slot < 2 * env.classCount(w.lobbies[id].kind))
  {
  }

  /** Setting "hours" and then "lobbies" of a slot gives a requirement with
      both values and the slot's earlier reliability; setting the same field
      twice keeps only the second value. */
  lemma RequirementFieldsAreIndependent(w: World, actor: Player, id: nat, slot: int, h: int, h2: int, l: int, env: Env)
    requires SetRequirement(w, actor, id, slot, "hours", JsonNumber(Some(h), None), env).Accepted?
    ensures var w1 := w.(lobbies := w.lobbies[id := SetRequirement(w, actor, id, slot, "hours", JsonNumber(Some(h), None), env).lobby]);
      var r2 := SetRequirement(w1, actor, id, slot, "lobbies", JsonNumber(Some(l), None), env);
      var r3 := SetRequirement(w1, actor, id, slot, "hours", JsonNumber(Some(h2), None), env);
      && r2.Accepted? && r3.Accepted?
      && r2.lobby.requirements[slot] == Requirement(h, l, CurrentRequirement(w.lobbies[id], slot).reliability)
      && r3.lobby.requirements[slot] == CurrentRequirement(w.lobbies[id], slot).(hours := h2)
      && r3.lobby.requirements == w.lobbies[id].requirements[slot := r3.lobby.requirements[slot]]
  {
  }
}
