/** The lobby record the socket handlers of controllers/socket/handler/lobby.go
    work on, and the model-layer collaborators they call (models.* in the
    source). Those collaborators are not part of this model: they are the
    arrow functions of an `Env`, constrained only by `ValidEnv`. */
module LobbyModel {
  import opened Wrappers

  /** Seconds between a lobby filling up and the ready-up check. */
  const ReadyUpSeconds: int := 30

  /** Name of the room event that starts the ready-up phase. */
  const ReadyUpEvent: string := "lobbyReadyUp"

  datatype LobbyState = Initializing | Waiting | ReadyingUp | InProgress | Ended
  datatype LobbyType = Debug | Sixes | Highlander | Ultiduo | Bball | Fours
  datatype Role = Regular | Moderator | Admin
  datatype BanKind = BanCreate | BanJoin | BanJoinMumble

  /** A player as a handler sees it: identity, role, the kinds of ban that are
      active now, the lobby the player plays in according to GetLobbyID (0 when
      none), and whether the player has already created a lobby. */
  datatype Player = Player(
    steamId: string,
    role: Role,
    activeBans: set<BanKind>,
    playingIn: nat,
    hasCreatedLobby: bool)

  /** The player in a slot and whether that player has readied up. */
  datatype Occupant = Occupant(steamId: string, ready: bool)

  /** A per-slot requirement; a slot without one is not gated. */
  datatype Requirement = Requirement(hours: int, lobbies: int, reliability: real)

  /** The requirement a slot gets when the first of its fields is set. */
  const NoRequirement := Requirement(0, 0, 0.0)

  datatype Lobby = Lobby(
    id: nat,
    kind: LobbyType,
    state: LobbyState,
    mumble: bool,
    creator: string,
    slots: map<int, Occupant>,
    spectators: set<string>,
    banned: set<string>,
    requirements: map<int, Requirement>,
    readyUpDeadline: int)

  /** The persisted lobbies and players the handlers look up. */
  datatype World = World(lobbies: map<nat, Lobby>, players: map<string, Player>)

  /** Every lobby is stored under its own id, and every player under its own
      steamid, as database rows are found by their primary key. */
  predicate WorldWf(w: World)
  {
    && (forall k :: k in w.lobbies ==> w.lobbies[k].id == k)
    && (forall s :: s in w.players ==> w.players[s].steamId == s)
  }

  /** The private room of a lobby, where ready-up notices go. */
  datatype Room = PrivateRoom(lobbyId: nat)

  /** Observable effects of a handler, in the order the source makes them. */
  datatype Effect =
    | LeaveHook(lobbyId: nat, steamId: string)                 // hooks.AfterLobbyLeave
    | JoinHook(lobbyId: nat, steamId: string)                  // hooks.AfterLobbyJoin
    | ReadyUpTimerArmed(lobbyId: nat, seconds: int)            // time.AfterFunc
    | RoomBroadcast(room: Room, event: string, timeout: int)   // broadcaster.SendMessageToRoom
    | LobbyStart(steamId: string)                              // so.EmitJSON("lobbyStart", ...)
    | ClosedNotice(lobbyId: nat, closer: string)               // models.SendNotification
    | OwnerChangedNotice(lobbyId: nat, owner: string)          // models.NewBotMessage(...).Send()

  /** A handler's answer: the lobby as saved plus effects, or the error
      returned plus the effects that already happened before it. */
  datatype Reply =
    | Accepted(lobby: Lobby, effects: seq<Effect>)
    | Rejected(msg: string, effects: seq<Effect>)

  /** One step with no failure path (the ready-up timer callback). */
  datatype Step = Step(lobby: Lobby, effects: seq<Effect>)

  /** The collaborators: NumberOfClassesMap, LobbyGetPlayerSlot and
      Lobby.AddPlayer (which also performs the requirement, password,
      whitelist and slot-availability checks). */
  datatype Env = Env(
    classCount: LobbyType -> nat,
    slotIndex: (LobbyType, string, string) -> Option<int>,
    addPlayer: (Lobby, Player, int, string) -> Result<Lobby>)

  /** Every slot index lies in [0, 2n). */
  predicate SlotsInRange(lob: Lobby, n: nat)
  {
    forall i :: i in lob.slots ==> 0 <= i < 2 * n
  }

  /** No player sits in two slots of the map. */
  predicate DistinctOccupants(slots: map<int, Occupant>)
  {
    forall i, j :: i in slots && j in slots && slots[i].steamId == slots[j].steamId ==> i == j
  }

  /** A player holds at most one slot of a lobby. */
  predicate OneSlotPerPlayer(lob: Lobby)
  {
    DistinctOccupants(lob.slots)
  }

  /** The lobby invariant for a lobby type with n classes per team. */
  predicate Wf(lob: Lobby, n: nat)
  {
    SlotsInRange(lob, n) && OneSlotPerPlayer(lob)
  }

  /** Lobby.IsFull: all 2n slots are occupied. */
  predicate IsFull(lob: Lobby, n: nat)
  {
    forall i :: 0 <= i < 2 * n ==> i in lob.slots
  }

  /** Lobby.GetPlayerSlot succeeds: the player holds a slot. */
  predicate Playing(lob: Lobby, steamId: string)
  {
    exists i :: i in lob.slots && lob.slots[i].steamId == steamId
  }

  /** What a successful AddPlayer guarantees: the player sits, not ready, in
      the requested slot; only slots and spectators change; the invariant is
      kept. */
  ghost predicate AddPlayerContract(env: Env, lob: Lobby, p: Player, slot: int, password: string)
  {
    env.addPlayer(lob, p, slot, password).Success? ==>
      var added := env.addPlayer(lob, p, slot, password).value;
      && added == lob.(slots := added.slots, spectators := added.spectators)
      && slot in added.slots
      && added.slots[slot] == Occupant(p.steamId, false)
      && (Wf(lob, env.classCount(lob.kind)) && 0 <= slot < 2 * env.classCount(lob.kind)
          ==> Wf(added, env.classCount(lob.kind)))
  }

  /** LobbyGetPlayerSlot only yields indices of existing slots. */
  ghost predicate SlotIndexContract(env: Env, t: LobbyType, team: string, cls: string)
  {
    env.slotIndex(t, team, cls).Some? ==> 0 <= env.slotIndex(t, team, cls).value < 2 * env.classCount(t)
  }

  /** The minimal contract assumed of the collaborators. */
  ghost predicate ValidEnv(env: Env)
  {
    && (forall t :: env.classCount(t) > 0)
    && (forall t, team, cls :: SlotIndexContract(env, t, team, cls))
    && (forall lob, p, slot, pw :: AddPlayerContract(env, lob, p, slot, pw))
  }
}
