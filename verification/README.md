# Helen lobby core, modelled in Dafny

Helen is the backend of TF2Stadium, a site where players gather in lobbies
of Team Fortress 2 matches. This project models four pieces of it as pure
Dafny functions over immutable records, and proves properties of them.

- **The lobby handlers.** These are the socket actions that create, join,
  leave, kick, ban, close, hand over and restrict a lobby. The project also
  models the 30-second ready-up timer that starts when a lobby fills.
  Database reads become lookups in a `World` record. Each handler returns a
  `Reply`:
  - `Accepted` carries the new lobby;
  - `Rejected` carries the error message.

  Both kinds of reply carry the list of side effects the handler fires:
  - after-leave and after-join hooks;
  - the armed timer;
  - the "lobbyReadyUp" room message;
  - the substitute's "lobbyStart";
  - the close notification;
  - the "lobby leader changed" chat message.

  The model package the handlers call is given as an `Env` of three
  functions with a stated contract (`ValidEnv`):
  - the number of classes of a lobby type;
  - the slot of a (team, class) pair;
  - AddPlayer.
- **The per-player socket registry.** A player may have several tabs open,
  so the registry keeps a list of sockets per steamid. It also keeps the
  stop channel of each disconnect watcher. Each watcher goroutine is an
  explicit `Resolve` step that ends it through its timer or its stop signal.
- **The reservation endpoint routing** to serveme.tf. A server address maps
  to the NA, EU or AU host.
- **The broadcaster's routing decision.** A message is emitted to one
  player's socket, broadcast to a room, or dropped. The consumer loop is
  modelled as a method `Drain` over a finite queue, proved equal to a
  reference fold `Run`.

Files:
- `wrappers.dfy`: Option, Result and Outcome.
- `serveme.dfy`: the reservation endpoint routing.
- `broadcaster.dfy`: the broadcaster.
- `sessions.dfy`: the socket registry.
- `lobby_model.dfy`: lobby records, the lobby invariant `Wf` and the
  collaborator contract.
- `lobby_handlers.dfy`: the handlers.
- `lobby_properties.dfy`: properties that relate several handler calls.

Where the code and its comments disagree, the model follows the code.
LobbySetRequirement documents slot -1 as "all slots" (lobby.go:743), but its
range check (lobby.go:758) rejects -1. `SetRequirement` rejects it too.

## Model

| member | source | states |
|---|---|---|
| Serveme.ContinentEndpoint | helpers/serveme.go:17-37 | North and South America go to the NA host, Oceania to the AU host, and every other continent code (Asia, Europe, Africa, Antarctica, unknown) to the EU host, each as an if-and-only-if |
| Serveme.EndpointForIP | helpers/serveme.go:17-37 | the endpoint is one of the three serveme hosts and is NA or AU exactly when the region lookup of the IP gives NA/SA or OC |
| Serveme.HostPart | helpers/serveme.go:40 | the host part is the prefix of the address before its first ':', the whole address when there is none |
| Serveme.EndpointForAddress | helpers/serveme.go:39-47 | an address whose host does not resolve goes to EU; a resolved address is routed by the region of the IP it resolved to, as EndpointForIP routes it |
| Serveme.HostPartSplits | helpers/serveme.go:40-41 | host part plus the rest gives the address back; the host part is shorter than the address exactly when the address has a ':' |
| Serveme.HostsDistinct | helpers/serveme.go:11-15 | the three endpoints have three different host names |
| Broadcaster.SendMessage | controllers/broadcaster/broadcaster.go:36-43 | a direct message has an empty room and carries the steamid, event and content given |
| Broadcaster.SendMessageToRoom | controllers/broadcaster/broadcaster.go:45-52 | a room message has an empty steamid and carries the room, event and content given |
| Broadcaster.Route | controllers/broadcaster/broadcaster.go:57-67 | a message is dropped iff its room is empty and its steamid has no socket; it is emitted iff its room is empty and the steamid has one, to that socket; otherwise it is broadcast to its room; event and content are kept |
| Broadcaster.Run | controllers/broadcaster/broadcaster.go:54-71 | the reference fold of the loop: every delivery is the routing of a message queued before the first Stop, and a Stop-free queue of routable messages gives one delivery per message |
| Broadcaster.RunStep | controllers/broadcaster/broadcaster.go:55-69 | one turn of the loop: a Stop ends delivery, a message contributes its routed delivery ahead of the rest |
| Broadcaster.Drain | controllers/broadcaster/broadcaster.go:54-71 | the loop delivers exactly what the fold `Run` describes, stops iff a Stop is queued, and consumes only deliveries before that Stop; without a Stop it consumes the whole queue |
| Broadcaster.NothingAfterStop | controllers/broadcaster/broadcaster.go:68-69 | nothing queued after a Stop is delivered |
| Broadcaster.UnmappedIsDropped | controllers/broadcaster/broadcaster.go:59-63 | a direct message to a player without a socket is skipped and the loop continues as if it had not been queued |
| Broadcaster.DirectDeliveredOnce | controllers/broadcaster/broadcaster.go:36-43 | a direct message to a mapped player, queued behind any Stop-free run of messages, is emitted once, to that player's socket, after what those messages deliver and before what follows it |
| Broadcaster.RoomRouting | controllers/broadcaster/broadcaster.go:45-66 | a message to a non-empty room is one broadcast to it; a message to the room "" is routed as a direct message to steamid "" |
| Sessions.GetSockets | controllers/socket/sessions/steamid.go:57-65 | the flag says whether the steamid has an entry, and under the registry invariant whether its list is non-empty |
| Sessions.IsConnected | controllers/socket/sessions/steamid.go:67-71 | connected is the GetSockets flag, and under the invariant means at least one socket |
| Sessions.ConnectedSockets | controllers/socket/sessions/steamid.go:73-76 | the count is the length of the list GetSockets returns, 0 for an unknown steamid |
| Sessions.AddSocket | controllers/socket/sessions/steamid.go:21-33 | the player's list gains the socket at its end and other players' lists are unchanged; the stored stop channel is signalled iff the player had no socket before and has a watcher; the invariant is kept |
| Sessions.FirstWithId | controllers/socket/sessions/steamid.go:41-42 | the index found is the first socket with the session id, and none is found iff no socket has it |
| Sessions.SwapRemove | controllers/socket/sessions/steamid.go:43-45 | the list loses exactly the element at i (as a multiset); the last element takes its place and the others keep theirs |
| Sessions.RemoveFirst | controllers/socket/sessions/steamid.go:40-48 | exactly the first socket with the session id leaves the list (as a multiset); a list without that id is returned unchanged |
| Sessions.RemoveSocket | controllers/socket/sessions/steamid.go:35-55 | the player's list loses its first socket with the session id; the entry is present exactly while the list is non-empty; other players and the watchers are unchanged; the invariant is kept |
| Sessions.ArmWatcher | controllers/socket/sessions/steamid.go:80-84 | a fresh channel, distinct from every live one, replaces the one stored for the player, and a goroutine watching the player is started; the live goroutines are the old ones plus this one |
| Sessions.Resolve | controllers/socket/sessions/steamid.go:86-100 | on timeout the callback runs iff the player is not connected; on a stop signal it never runs; either way the goroutine deletes whatever channel is stored for its player and ends, its own channel's signal goes with it, and the sockets, the other channels' signals and the channel counter are untouched |
| Sessions.EmptyIsWf | controllers/socket/sessions/steamid.go:13-19 | the registry as created at start-up, with no sockets and no watchers, satisfies the registry invariant, and nobody is connected in it |
| Sessions.AddThenRemove | controllers/socket/sessions/steamid.go:21-55 | when no socket the player already has carries the new socket's session id, adding the socket and removing it by that id gives the socket lists back |
| Sessions.AppendedIsFound | controllers/socket/sessions/steamid.go:41-45 | a socket appended with a fresh id is found last, and swap-removing it restores the list |
| Sessions.RemoveLastDisconnects | controllers/socket/sessions/steamid.go:50-55 | removing a player's only socket leaves the player disconnected with zero sockets |
| Sessions.WatcherFiresWhileDisconnected | controllers/socket/sessions/steamid.go:80-93 | a watcher armed while the player is away runs its callback when its timer elapses with nothing in between |
| Sessions.ReconnectSuppressesWatcher | controllers/socket/sessions/steamid.go:26-31 | a reconnect signals the armed watcher, and its callback then never runs, whichever branch its select takes |
| Sessions.RearmOverwrites | controllers/socket/sessions/steamid.go:82-83 | after a second arming a reconnect signals only the newer channel |
| Sessions.StaleWatcherDeletesNewerEntry | controllers/socket/sessions/steamid.go:97-99 | the older watcher ending deletes the newer watcher's entry, so a later reconnect signals nobody |
| LobbyHandlers.StartReadyUpIfFull | controllers/socket/handler/lobby.go:464-498 | a full lobby not in progress or readying up goes to ReadyingUp with a deadline 30 s ahead, with exactly one timer and one "lobbyReadyUp" room notice; otherwise nothing changes |
| LobbyHandlers.Join | controllers/socket/handler/lobby.go:402-431 | a join ban, a missing lobby, a Mumble ban on a Mumble lobby, an ended lobby or one still initializing rejects the join before anything fires; accepting needs every check and a resolved slot |
| LobbyHandlers.UnreadyOccupants | controllers/socket/handler/lobby.go:511-513 | the list holds exactly the players in unready slots, each once when no player has two slots |
| LobbyHandlers.ReadyUpTimeout | controllers/socket/handler/lobby.go:471-489 | in Waiting, InProgress or Ended the callback does nothing; otherwise the lobby is Waiting, exactly the unready occupants become spectators with one leave-hook each, the ready ones stay unreadied, and the invariant is kept |
| LobbyHandlers.RemovePlayerFromLobby | controllers/socket/handler/lobby.go:563-591 | success iff the player and lobby exist, the lobby is neither in progress nor ended, and the player holds a slot; on success the player's slot is freed, every other slot kept and the player made a spectator |
| LobbyHandlers.PlayerCanKick | controllers/socket/handler/lobby.go:593-607 | allowed iff the lobby and the actor exist and the actor created the lobby or is an admin; a moderator who did not create it is refused |
| LobbyHandlers.Kick | controllers/socket/handler/lobby.go:609-635 | kicking oneself is refused before anything else; an accepted kick is authorised and is the removal, with one leave-hook for the target |
| LobbyHandlers.Ban | controllers/socket/handler/lobby.go:637-665 | a ban is a kick that also adds the target to the lobby's ban list |
| LobbyHandlers.Leave | controllers/socket/handler/lobby.go:667-681 | leaving succeeds iff the removal does, and then fires one leave-hook; a refusal carries the removal's message |
| LobbyHandlers.Close | controllers/socket/handler/lobby.go:375-400 | accepted iff the lobby exists, the actor is its creator or an admin, and it has not ended; the lobby then ends and one notification is sent |
| LobbyHandlers.ChangeOwner | controllers/socket/handler/lobby.go:712-738 | only the creator may hand the lobby over, to an existing player; only the creator field changes, and one "leader changed" message naming the new owner is sent to the lobby |
| LobbyHandlers.SetRequirement | controllers/socket/handler/lobby.go:740-794 | accepted iff the actor created the lobby, the slot lies in [0, 2N) and the field is hours, lobbies or reliability with a value of the right kind; slot -1 is refused; exactly that field of that slot changes |
| LobbyHandlers.CreateAuthorized | controllers/socket/handler/lobby.go:112-122 | creation is allowed iff the player has no creation ban and, having created a lobby already, is an admin or a moderator |
| LobbyHandlers.TeamRow | controllers/socket/handler/lobby.go:66-80 | a class requirement gives a row iff the slot of (team, class) resolves, and then exactly one, at that slot, with the class's hours and lobbies |
| LobbyHandlers.ClassRows | controllers/socket/handler/lobby.go:289-297 | every row is the one some class saves for a team it is restricted on, at that team's slot for the class; every restricted class and team whose slot resolves has its row; and there are exactly as many rows as restricted (class, team) pairs whose slot resolves (`RestrictedPairs`), so no row is saved twice |
| LobbyHandlers.GeneralRows | controllers/socket/handler/lobby.go:298-307 | one row per slot from `from` to 2N - 1, in slot order, each with the general values |
| LobbyHandlers.SeedRequirements | controllers/socket/handler/lobby.go:288-310 | no requirements give no rows; otherwise the class rows come first, then, when the general hours or lobbies are nonzero, one general row for each of the 2N slots |
| LobbyProperties.JoinAcceptedIffAdded | controllers/socket/handler/lobby.go:433-506 | once every check passed and the slot resolved, a join is accepted iff AddPlayer succeeds, saving AddPlayer's lobby after the fullness transition; AddPlayer's error is returned with the previous lobby's leave-hook already fired |
| LobbyProperties.JoinEffectsExact | controllers/socket/handler/lobby.go:445-505 | in a well-formed world an accepted join fires exactly, in order: the previous lobby's leave-hook, the join-hook unless the player was already in this lobby, the ready-up timer and notice when the join fills a lobby not yet in progress or readying up, and lobbyStart when the lobby is in progress; nothing else |
| LobbyProperties.JoinEffectsNameTheirLobbies | controllers/socket/handler/lobby.go:445-498 | in a world where every lobby sits under its own id, the leave-hook names the lobby the player came from and the join-hook and timer name the lobby joined |
| LobbyProperties.NamedLobbies | controllers/socket/handler/lobby.go:445-505 | the lobby each part of a join's effects names carries over to the whole effect list |
| LobbyProperties.JoinKeepsWorldWf | controllers/socket/handler/lobby.go:450-467 | storing the lobby an accepted join saves back under its key keeps every lobby under its own id |
| LobbyProperties.JoinLeaveHook | controllers/socket/handler/lobby.go:433-448 | the previous lobby's leave-hook fires iff the join passed every check, the slot resolved and the player played in another lobby, even when AddPlayer then fails; a refused join fires nothing else |
| LobbyProperties.JoinHookUnlessSameLobby | controllers/socket/handler/lobby.go:450-462 | an accepted join fires the join-hook iff the player was not already in this lobby |
| LobbyProperties.JoinSeatsPlayer | controllers/socket/handler/lobby.go:450-455 | an accepted join seats the player, not ready, in the resolved slot; only occupancy, state and deadline change; the lobby invariant is kept |
| LobbyProperties.JoinStartsReadyUpWhenFull | controllers/socket/handler/lobby.go:464-500 | after an accepted join the lobby starts readying up iff it is full and was neither in progress nor readying up, with exactly one timer and one notice then, and none otherwise |
| LobbyProperties.JoinSubstituteGetsLobbyStart | controllers/socket/handler/lobby.go:502-505 | an accepted join sends lobbyStart to the joiner iff the lobby is in progress |
| LobbyProperties.CountsOfParts | controllers/socket/handler/lobby.go:445-500 | of the effects a join fires, only the locked block contributes ready-up timers and notices |
| LobbyProperties.AfterAddParts | controllers/socket/handler/lobby.go:457-505 | the effects after AddPlayer are a join-hook part, the locked block and a lobbyStart part |
| LobbyProperties.AfterAddCounts | controllers/socket/handler/lobby.go:457-505 | the effects after the leave-hook hold one timer and one notice if the lobby fills, none otherwise |
| LobbyProperties.JoinThenLeave | controllers/socket/handler/lobby.go:402-505 | a player who joined a lobby that had not started can leave it again; the player is then a spectator, the slot is free, and one leave-hook fires |
| LobbyProperties.TimeoutIdempotent | controllers/socket/handler/lobby.go:478-486 | a second firing of the timer callback changes nothing |
| LobbyProperties.FillingJoinThenTimeout | controllers/socket/handler/lobby.go:464-489 | after a join fills the lobby, a lobby meanwhile moved to Waiting, InProgress or Ended is left alone; otherwise the timer sends the unready joiner to the spectators with a leave-hook and the lobby back to Waiting |
| LobbyProperties.RemoveKeepsInvariant | controllers/socket/handler/lobby.go:581-590 | removing a player keeps the lobby invariant and leaves the player a spectator, never in neither role |
| LobbyProperties.ModeratorCannotKickOrBan | controllers/socket/handler/lobby.go:603-605 | a moderator who is not the creator can neither kick nor ban |
| LobbyProperties.ClosedLobbyIsFinal | controllers/socket/handler/lobby.go:375-400 | after a close the lobby refuses joins, another close, leaving, kicking and banning, and its ready-up timer does nothing |
| LobbyProperties.ChangeOwnerMovesCreatorRights | controllers/socket/handler/lobby.go:712-760 | after a hand-over the old creator can no longer set requirements or hand over again, and the new one can set a requirement on exactly the valid slots |
| LobbyProperties.RequirementFieldsAreIndependent | controllers/socket/handler/lobby.go:762-789 | setting hours and then lobbies keeps both values and the old reliability; setting hours twice keeps the second value; other slots are untouched |

## Left out

- Persistence, locks and the database. Each handler is one atomic step, and
  lookups that fail in the database layer get messages of the model's own
  choosing. Broadcasts of lobby data and of the lobby list are not effects.
- The model package the handlers call. It is not part of this model:
  NumberOfClassesMap, LobbyGetPlayerSlot and AddPlayer are inputs with a
  stated contract. The checks AddPlayer makes (password, bans, restrictions,
  occupied slots) are inside its result.
- LobbyHandlers.RemovePlayerFromLobby: Lobby.RemovePlayer and
  Lobby.AddSpectator (lobby.go:586-590) are taken to succeed, as plain updates
  of the slot map and the spectator set. Their error paths are not modelled.
  In the source, an AddSpectator error after RemovePlayer has succeeded
  leaves the player with neither a slot nor a spectator place, and no
  leave-hook fires.
- LobbyHandlers.Ban, LobbyHandlers.Close: Lobby.BanPlayer (lobby.go:657) and
  Lobby.Close (lobby.go:394) are likewise plain updates of the ban set and
  the state. Their database writes, and whatever else Lobby.Close does
  inside the model package, are not modelled.
- LobbyCreate's argument validation, server setup and Serveme reservation.
  Only its authorisation prefix and its requirement seeding are modelled.
- LobbyServerReset, ServerVerify, LobbySpectatorJoin, LobbySpectatorLeave,
  RequestLobbyListData, LobbyRemoveTwitchRestriction and
  LobbyRemoveSteamRestriction. Each reads or writes state this model does not
  have: game servers, spectator sockets, Twitch and Steam restrictions.
- LobbyHandlers.CreateAuthorized, LobbyHandlers.Join: ban messages omit the
  expiry time and reason that the source formats into them.
- LobbyHandlers.ReadyUpTimeout: requires that every occupied slot lies in
  [0, 2N). The source enumerates unready players through the database and
  has no such precondition. A lobby that only AddPlayer has ever filled
  keeps the requirement.
- LobbyHandlers.SetRequirement: the reliability value is the result of the
  float64 conversion, taken as an exact real; rounding is not modelled.
- The timer's clock is a parameter `now`; the 30-second delay itself is
  only a label on the armed-timer effect.
- Sessions.AddSocket: the stop channel has a buffer of one, and a second
  send while it is full would block. The model records a signal in a set,
  so signalling twice is not modelled.
- Sessions.GetSockets: the source returns the slice stored in the map, and
  RemoveSocket later swaps and clears elements of that slice in place
  (steamid.go:43-44). A caller holding an earlier result can thus see it
  change. The model has value semantics, so every result is a snapshot, and
  this aliasing is not modelled.
- The `socketSpectating` map of the sessions package. No function of that
  file that is modelled here reads it.
- Broadcaster: the socket map is taken as fixed while the loop runs. The
  ticker, Init, Stop's blocking send, and the logging of dropped messages
  are not modelled.
- Serveme: the API-key setup (SetServemeContext), and DNS and GeoIP
  themselves, which are inputs.
