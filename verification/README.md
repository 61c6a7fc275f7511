# Terracotta verification model

A Dafny model of the Terracotta multiplayer helper and of the launcher plugin that drives it, with proofs of the
properties the two rely on. `dafny verify dfyconfig.toml` checks all of it.

The helper's `RoomService` keeps one room's lifecycle and publishes membership changes; `EasyTierRoomBackend` starts and
stops what the room needs; `ServerContext` is the host's member registry; one IPC session feeds requests, timer ticks and
room events into the service. On the plugin's side, `HelperIpcClient` matches replies to concurrent callers,
`HelperProcessManager` decides about restarts, and `TerracottaController` keeps a state machine beside a published
snapshot.

## How it is laid out

- Codecs and derivations: `Bytes`, `Text`, `Streams`, `Framing`, `IpcFraming`, `ScaffoldingProtocol`, `Credentials`,
  `NetworkName`, `RoomCode`, `Mesh`.
- Scaffolding: `PlayerRegistry`, `RegistryRuns`, `ScaffoldingServer`.
- The room engine: `RoomSpec` and `BackendSpec` say what each operation does to the state for every way its steps can
  turn out, `HelperSpec` puts the two together, the classes in `RoomService` and `RoomBackend` are proved to do exactly
  that, and `EventReplay`, `LifecycleGrammar`, `SnapshotMembers` and `HelperRuns` prove what every run keeps;
  `HelperEffects` says what the calls of a run achieve in terms of what the world answered.
- The connection: `SessionSpec` and the class in `IpcSession`; `SessionRuns` and `SessionReplies` prove the session's
  guarantees, and `Demultiplexing` joins the session to the client of `HelperIpcClient`.
- The plugin: `HelperProcessManager`, `RoomStateMachine`, `ControllerSpec` with the class in `TerracottaController`,
  `ControllerRuns`, `ControllerRaces` and `ControllerEffects`. `PluginFollowsHelper` puts the controller at the
  receiving end of the helper's session.

Every class method is proved against a specification on values, and theorems are about those values: a run is a sequence
of states in which each step is one operation. Anything the outside world decides (a random draw, a probe, a failed bind,
the answer of a remote host, whether a frame goes out) is a parameter of the step, so a theorem over runs is a theorem
over every such choice.

Socket addresses are modelled as what parsing sees: malformed, or loopback or not with a port. A JSON payload is modelled
as what it deserialises to as each request type. SHA-256, UTF-8 decoding and the JSON of player profiles are functions
about which nothing else is assumed. Integers are unbounded except where their width matters: the 32-bit accumulator of
the network name, the 16-bit ports, the clamped round-trip time and the 64-bit push counter are bounded explicitly.

## Where the code differs from what is said of it

- A host's listing can show a guest up to fifteen seconds after its last ping, not ten (docs/scaffolding.md:45): the
  ten seconds hold at each sweep, and sweeps are five seconds apart (`RegistryRuns.SilenceBoundIsReached`).
- `room.set-lan-address` is documented as implemented (docs/protocol.md:78), but the new ingresses are bound while the
  old ones still listen on the same ports, and the Scaffolding server has been stopped by then. It takes effect only if
  both old ingresses have given up by themselves; otherwise it fails and leaves the room without its server
  (`HelperRuns.LanChangesOnEveryRun`).
- A member list that names a member twice breaks the replay of its events: `EventReplay.StepReplaysExactlyWhenSafe` is
  the exact condition and `EventReplay.DuplicateIdsBreakReplay` an instance.
- At most one automatic restart in ten seconds is promised (docs/implementation-status.md:7,
  docs/release-checklist.md:17). That holds between resets of the window, but recovery stops the helper first, and that
  resets it (`HelperProcessManager.GrantedExactlyOutsideWindow`, `HelperProcessManager.RecoveredCrashesAreAlwaysGranted`).
- A diagnosis may list other members than the last poll without publishing the difference, so a status reply and the
  replayed events agree only from the next poll that hears of the members (`SnapshotMembers.StepListsExactly`,
  `SessionReplies.StatusRepliesListTheReplayed`).
- A live snapshot pushed late is published although the state machine cannot follow, and leaving does not take it back
  (`ControllerRuns.LatePushesOutliveLeaving`); `ControllerRuns.StepAgreesExactlyWhenHarmless` is the exact condition.
- The plugin's normaliser accepts white space around a code that the helper's refuses, and the helper's accepts spaces
  inside that the plugin's refuses. Of the spellings that either accepts, they treat alike exactly those that are padded
  with plain spaces only and have no space inside (`RoomCode.SidesAgreeExactly`).
- The error message speaks of a hexadecimal key, but a plus sign may begin each pair. A text of 64 bytes is accepted
  exactly when each pair ends in a hexadecimal digit and begins with one or a plus sign, and an accepted one is
  hexadecimal exactly when no pair begins with a plus sign (`IpcSession.KeysAreAcceptedExactly`,
  `IpcSession.AcceptedKeysAreHexExactlyWithoutPlus`; `IpcSession.PlusSignedKeyIsAccepted` is an instance).
- A frame body that is refused is wiped before its length is reported, so the reported length is always zero
  (`Framing.WriteFrame`).

## Model

| member | source | states |
|---|---|---|
| EventReplay.PollReplaysExactlyWhenSafe | src/Terracotta.Helper/src/room/service.rs:285-311 | the peer events of a poll, in any order of departures, take a subscriber from the known members to the polled ones if and only if every id that ends up unchanged is listed unchanged throughout |
| EventReplay.StepReplaysExactlyWhenSafe | src/Terracotta.Helper/src/room/service.rs:241-534 | any operation of the service keeps a subscriber in step if and only if the member list it folds in is replay-safe |
| EventReplay.ReplayOnEveryRun | src/Terracotta.Helper/src/room/service.rs:241-534 | on every run of safe operations the event log replays to exactly the known members |
| EventReplay.DistinctIdsReplayOnEveryRun | src/Terracotta.Helper/src/room/service.rs:241-534 | distinct ids in the refreshed lists are enough for that |
| EventReplay.DistinctIdsAreReplaySafe | src/Terracotta.Helper/src/room/service.rs:285-303 | a list that names each member once is replay-safe whatever was known |
| EventReplay.DuplicateIdsBreakReplay | src/Terracotta.Helper/src/room/service.rs:288-303 | a member listed twice, the second time as known, leaves the subscriber with the first listing |
| EventReplay.EventsAreTheChanges | src/Terracotta.Helper/src/room/service.rs:285-310 | with distinct ids every peer event announces a change of its id, and every change is announced |
| EventReplay.OneEventPerId | src/Terracotta.Helper/src/room/service.rs:285-310 | with distinct ids a poll publishes at most one peer event per id |
| EventReplay.InvariantOnEveryRun | src/Terracotta.Helper/src/room/service.rs:241-534 | between operations the state is Idle, Connected, Reconnecting or Faulted, the fields fit it, and the published states form the lifecycle language up to that state |
| EventReplay.StateFollowsHealth | src/Terracotta.Helper/src/room/service.rs:259-275 | after a poll of a live room that brings a sample the room is Connected exactly when the sample is healthy |
| LifecycleGrammar.LifecyclesAreThePrefixesOfWords | src/Terracotta.Helper/src/room/service.rs:241-534 | the published states obey the may-follow rule exactly when they are a prefix of a word of ((Connected (Reconnecting Connected)* Reconnecting?)? Idle)* |
| SnapshotMembers.StepListsExactly | src/Terracotta.Helper/src/room/service.rs:241-534 | from a snapshot that lists the members the service holds known, an operation leads to one if and only if it is no diagnosis that lists others and no fault that forgets some |
| SnapshotMembers.SnapshotsListTheKnown | src/Terracotta.Helper/src/room/service.rs:281-284 | on every run, from the last entry, departure or poll with a member list on, the snapshot lists exactly the known members as long as operations keep the list |
| SnapshotMembers.SnapshotsListTheReplayed | src/Terracotta.Helper/src/room/service.rs:281-311 | with safe lists the event log then replays to what the snapshot lists |
| SnapshotMembers.StepsTellTheChanges | src/Terracotta.Helper/src/room/service.rs:251-319 | on every run the events of a poll name the new network and the new state exactly when they have changed; an entry or departure publishes the new snapshot whole; a diagnosis publishes nothing |
| RoomSpec.NormalisersAgree | src/Terracotta.Helper/src/room/service.rs:559-578 | the service's own filter, map, check and format give the credentials module's result on every string |
| HelperRuns.CallsAreOperations | src/Terracotta.Helper/src/room/service.rs:231-534 | service and backend together refine the service with arbitrary answers |
| HelperRuns.InvariantOnEveryHelperRun | src/Terracotta.Helper/src/network/backend.rs:103-661 | on every run of both the service invariant, the backend invariant and their coupling hold |
| HelperRuns.CouplingOnEveryRun | src/Terracotta.Helper/src/room/service.rs:321-534 | the service is Idle or Faulted exactly when no session is stored; otherwise role and room code match the session; and the published lifecycle is in its language |
| HelperRuns.IdleCheckNeverRefuses | src/Terracotta.Helper/src/network/backend.rs:103-112 | the backend finds no session whenever the service found itself idle, so its own check refuses nothing |
| HelperRuns.DiagnosisNeverFaults | src/Terracotta.Helper/src/room/service.rs:460-505 | in a coupled room a diagnosis returns to the state it started from |
| HelperRuns.ResourcesAreConserved | src/Terracotta.Helper/src/network/backend.rs:114-661 | after every call, whatever failed, exactly the stored session's resources are running, less those that have ended by themselves in this session and the Scaffolding tasks that attempted LAN changes have stopped |
| HelperRuns.NothingRunsOutsideRooms | src/Terracotta.Helper/src/network/backend.rs:114-140 | when the service is Idle or Faulted nothing is running and no registry is kept |
| HelperRuns.LanChangeFailsExactly | src/Terracotta.Helper/src/network/backend.rs:378-475 | a LAN change takes effect exactly when everything else works out and neither of the session's ingresses is still listening |
| HelperRuns.LanChangesOnEveryRun | src/Terracotta.Helper/src/network/backend.rs:378-475 | on every run a LAN change past the checks stops the Scaffolding task first; the session is rebound exactly when both ingresses had ended by themselves and the rest works out; otherwise it fails and leaves session and service as they were |
| HelperRuns.HostListsNamePlayersOnce | src/Terracotta.Helper/src/network/backend.rs:497-513 | a host's refreshed list has distinct ids |
| HelperRuns.GenuineHeartbeatsNamePlayersOnce | src/Terracotta.Helper/src/network/backend.rs:514-546 | so has a member's when its host answers with a registry listing |
| HelperRuns.ReplayOnEveryHelperRun | src/Terracotta.Helper/src/room/service.rs:241-534 | subscribers stay in step on every run whose polls are of hosted rooms or hear each player once |
| HelperEffects.PollsFollowTheProbe | src/Terracotta.Helper/src/network/backend.rs:676-696 | on every run a poll in a room leaves it Connected exactly when the peer sample with its round trip, or else the probe, found the network healthy, and Reconnecting otherwise |
| HelperEffects.HostSnapshotsListThePlayers | src/Terracotta.Helper/src/network/backend.rs:497-513 | a poll of a hosted room leaves a snapshot of exactly the registered players, each once and by its name, the host first |
| HelperEffects.MemberSnapshotsListTheHeartbeat | src/Terracotta.Helper/src/network/backend.rs:514-546 | a poll of a joined room leaves a snapshot of the heartbeat's players in its order, or the old list without one, and the forwarded address |
| HelperEffects.PingedGuestsAreListed | src/Terracotta.Helper/src/scaffolding/server.rs:218-224 | a guest whose ping the running server takes is listed by its name in the snapshot of the next poll |
| HelperEffects.RoomsAreCreatedExactly | src/Terracotta.Helper/src/network/backend.rs:149-296 | from Idle a create ends Connected if and only if the request is in order and each of the steps works out; Faulted if a step does not; Idle for a wrong request |
| HelperEffects.CreatedRoomsAreAsAsked | src/Terracotta.Helper/src/network/backend.rs:261-286 | a created room has the session id, LAN port and preferences asked for, the fresh code and the host as its only member |
| HelperEffects.FaultedCreationsNameTheFailure | src/Terracotta.Helper/src/network/backend.rs:149-260 | a room that faults while it is created shows the error of the first step that failed |
| HelperEffects.RoomsAreJoinedExactly | src/Terracotta.Helper/src/network/backend.rs:298-376 | from Idle a join ends Connected if and only if the first of eight lookups that answers leads to two endpoints that can be forwarded to, or none answers and one of forty probes connects |
| HelperEffects.FaultedJoinsNameTheFailure | src/Terracotta.Helper/src/network/backend.rs:298-376 | a room that faults while it is joined shows the error of the first step that failed |
| HelperEffects.JoinedRoomsAreReached | src/Terracotta.Helper/src/network/backend.rs:298-376 | a joined room shows the normalised code, the players of the heartbeat and the port of the path that was taken |
| HelperEffects.FirstLookupDecides | src/Terracotta.Helper/src/network/backend.rs:664-674 | up to the first lookup that does not come back with nothing, and no further |
| HelperEffects.LanChangesAreOfConnectedHosts | src/Terracotta.Helper/src/room/service.rs:442-458 | a LAN change is acted upon exactly for a loopback address in a Connected room of a host |
| HelperEffects.GuestsLearnTheLanPort | src/Terracotta.Helper/src/scaffolding/server.rs:215-217 | on every run the host's Scaffolding server tells the port last given to the helper by a creation or an effective LAN change, high byte first |
| RoomService.RoomService.PollAndEmit | src/Terracotta.Helper/src/room/service.rs:241-319 | the poll under its locks does the specified step, with departures in any order |
| RoomService.RoomService.Status | src/Terracotta.Helper/src/room/service.rs:235-238 | polls and returns the snapshot that the poll leaves |
| RoomService.RoomService.ApplyRefresh | src/Terracotta.Helper/src/room/service.rs:251-283 | quality, lifecycle flip, address and members are applied; what to publish is taken before address and members |
| RoomService.RoomService.EmitMembership | src/Terracotta.Helper/src/room/service.rs:285-311 | publishes arrivals and updates in list order against the previous map, then one departure per missing id |
| RoomService.RoomService.Create | src/Terracotta.Helper/src/room/service.rs:321-373 | create step and result, for every answer of the backend |
| RoomService.RoomService.Join | src/Terracotta.Helper/src/room/service.rs:375-432 | join step and result, for every answer of the backend |
| RoomService.RoomService.ReplaceKnownMembers | src/Terracotta.Helper/src/room/service.rs:434-440 | known members become the last listing of each id |
| RoomService.RoomService.SetLanAddress | src/Terracotta.Helper/src/room/service.rs:442-458 | checks, change and following poll, with the result |
| RoomService.RoomService.Diagnose | src/Terracotta.Helper/src/room/service.rs:460-505 | diagnosis step and result |
| RoomService.RoomService.Leave | src/Terracotta.Helper/src/room/service.rs:507-534 | leave step and result |
| RoomBackend.EasyTierRoomBackend.Create | src/Terracotta.Helper/src/network/backend.rs:149-296 | all of the session's resources and its registry, or none, with the first failing step's error |
| RoomBackend.EasyTierRoomBackend.ExposeHost | src/Terracotta.Helper/src/network/backend.rs:210-295 | from a running EasyTier on: everything kept, or everything given back |
| RoomBackend.EasyTierRoomBackend.BindIngresses | src/Terracotta.Helper/src/network/backend.rs:213-245 | both fixed ports bound, or the first given back; it succeeds exactly when both are free and available |
| RoomBackend.EasyTierRoomBackend.Join | src/Terracotta.Helper/src/network/backend.rs:298-376 | member session over same-machine discovery or the mesh, with rollback and the first failing step's error |
| RoomBackend.EasyTierRoomBackend.JoinViaLocalDiscovery | src/Terracotta.Helper/src/network/backend.rs:558-661 | the same-machine path with its rollback at each step |
| RoomBackend.EasyTierRoomBackend.SetLanAddress | src/Terracotta.Helper/src/network/backend.rs:378-475 | the change step by step, including what an early failure leaves stopped |
| RoomBackend.EasyTierRoomBackend.Refresh | src/Terracotta.Helper/src/network/backend.rs:488-548 | network sample, member list and address of the stored session |
| RoomBackend.EasyTierRoomBackend.Leave | src/Terracotta.Helper/src/network/backend.rs:550-554 | everything the session owns is released and the session forgotten |
| RoomBackend.EasyTierRoomBackend.StopSession | src/Terracotta.Helper/src/network/backend.rs:114-140 | releases exactly the owned resources of either kind of session |
| RoomBackend.TryLocalEndpoint | src/Terracotta.Helper/src/network/backend.rs:664-674 | the first of eight lookups that finds or fails decides |
| RoomBackend.WaitForTcp | src/Terracotta.Helper/src/network/backend.rs:698-715 | connected exactly when one of forty probes connects |
| Quality.MembersFromProfiles | src/Terracotta.Helper/src/network/quality.rs:54-72 | keeps ids, names and order; the host is direct and everybody else in the sampled mode |
| Quality.SampleNetwork | src/Terracotta.Helper/src/network/quality.rs:25-52 | a peer sample with a round trip stands as it is; otherwise the probe alone decides health and round trip, and without a peer sample the mode follows the preferences |
| PlayerRegistry.ServerContext.PlayerProfiles | src/Terracotta.Helper/src/scaffolding/server.rs:69-83 | whatever order the map is walked in, the one listing of the registry |
| PlayerRegistry.ListingIsUnique | src/Terracotta.Helper/src/scaffolding/server.rs:69-83 | only one sequence lists a registry |
| PlayerRegistry.ListingShape | src/Terracotta.Helper/src/scaffolding/server.rs:69-83 | host first and the only host, then guests of strictly increasing id |
| PlayerRegistry.LessIsLexicographic | src/Terracotta.Helper/src/scaffolding/server.rs:76-82 | the order of listings is the one of dictionaries |
| PlayerRegistry.ServerContext.RecordGuest | src/Terracotta.Helper/src/scaffolding/server.rs:85-100 | an accepted ping is registered as a guest whatever it claims; a refused one changes nothing |
| PlayerRegistry.ServerContext.RemoveStaleGuests | src/Terracotta.Helper/src/scaffolding/server.rs:102-109 | keeps the host and those seen within ten seconds |
| PlayerRegistry.ServerContext.New | src/Terracotta.Helper/src/scaffolding/server.rs:42-67 | refused exactly for a zero port or an invalid profile |
| RegistryRuns.RegistryOnEveryRun | src/Terracotta.Helper/src/scaffolding/server.rs:41-116 | on every run keys are the profiles' ids and the host is there and the only host |
| RegistryRuns.PresenceOnEveryRun | src/Terracotta.Helper/src/scaffolding/server.rs:85-109 | a guest is registered exactly when its last ping was within ten seconds of the last sweep |
| RegistryRuns.SilenceBound | src/Terracotta.Helper/src/scaffolding/server.rs:26-27 | swept within five seconds, no listing shows a guest silent for more than fifteen |
| RegistryRuns.RegularGuestsAreNeverEvicted | src/Terracotta.Helper/src/scaffolding/server.rs:102-109 | a guest never silent for more than ten seconds stays registered from its first ping on |
| RegistryRuns.HostIsAlwaysListed | src/Terracotta.Helper/src/scaffolding/server.rs:102-109 | the host leads every listing of every run |
| RegistryRuns.SilenceBoundIsReached | src/Terracotta.Helper/src/scaffolding/server.rs:143-160 | a guest that pinged once is in the listing fifteen seconds later, with the last sweep five seconds ago |
| SessionRuns.TraceOnEveryRun | src/Terracotta.Helper/src/ipc/session.rs:39-164 | replies carry the ids of the requests read, one for one and in order; the acceptance comes first and once; pushes are numbered consecutively modulo 2^64 |
| SessionRuns.IdsOnEveryRun | src/Terracotta.Helper/src/ipc/session.rs:198-218 | no id is admitted twice, at most 4096 are recorded and at most 4095 acted upon |
| SessionRuns.CallsAreAdmitted | src/Terracotta.Helper/src/ipc/session.rs:176-219 | the service is called for a request only when its id is new, and the id is recorded |
| SessionRuns.RepliesHaveTheExpectedType | src/Terracotta.Helper/src/ipc/session.rs:233-357 | every reply is an error or of the type the plugin expects for that request |
| SessionRuns.TurnsAreCalls | src/Terracotta.Helper/src/ipc/session.rs:123-163 | every turn of the loop is at most one step of the helper |
| SessionRuns.RoomsAreEnteredWithIdentity | src/Terracotta.Helper/src/ipc/session.rs:221-231 | create and join reach the service only behind an initialised identity, which is the backend's |
| SessionRuns.IdentityWasInitialized | src/Terracotta.Helper/src/ipc/session.rs:234-264 | that identity was decoded from an earlier request of the session |
| SessionRuns.FeedOnEveryRun | src/Terracotta.Helper/src/ipc/session.rs:148-161 | while nothing was missed, the pushes are the event log up to the subscription's place in it |
| SessionRuns.ClientHoldsTheMembers | src/Terracotta.Helper/src/ipc/session.rs:124-163 | a client up to date that has missed nothing and replays the pushes holds the helper's known members |
| SessionReplies.RepliesShowTheRoom | src/Terracotta.Helper/src/ipc/session.rs:265-357 | on every run each reply shows the service as it then is, snapshot or network; an error left it alone, or is the one the room faulted with |
| SessionReplies.SessionsListTheKnown | src/Terracotta.Helper/src/ipc/session.rs:265-357 | from the start, or the last entry, departure or poll that hears of members on, and with no diagnosis since, the snapshot lists the known members |
| SessionReplies.StatusRepliesListTheReplayed | src/Terracotta.Helper/src/ipc/session.rs:271-279 | the members of such a status reply are the ones that the events pushed up to it replay to |
| SessionReplies.RequestsAreServedExactly | src/Terracotta.Helper/src/ipc/session.rs:176-357 | a request reaches the service if and only if it has the protocol, a new well-formed id among the first 4095 and all that its operation takes; then it is that operation with what the request carries |
| SessionReplies.RefusalsAreNamed | src/Terracotta.Helper/src/ipc/session.rs:176-357 | on every run a request that reaches nobody is refused with the code of the first thing wrong with it, unless it is the accepted shutdown |
| SessionReplies.CallsAreTurnedAwayUnchanged | src/Terracotta.Helper/src/room/service.rs:321-505 | on every run a wrong, untimely or misplaced operation changes nothing and is answered with its reason, not to be retried |
| SessionReplies.SessionsEndExactly | src/Terracotta.Helper/src/ipc/session.rs:124-219 | a session ends exactly for an admitted shutdown, for running out of ids, at the end of the stream, or for a frame that is not taken |
| SessionReplies.EventsAreAccountedFor | src/Terracotta.Helper/src/ipc/session.rs:148-161 | every event up to the subscription's place was pushed once or is counted as missed |
| SessionReplies.OnlyLaggingLosesEvents | src/Terracotta.Helper/src/ipc/session.rs:148-161 | events are lost exactly by falling more than 64 behind, and then all but the latest 64 |
| IpcSession.Connection.HandleRequest | src/Terracotta.Helper/src/ipc/session.rs:166-358 | the handler does the specified step, whatever the request |
| IpcSession.Connection.Dispatch | src/Terracotta.Helper/src/ipc/session.rs:221-357 | the match on the message type, its call and its reply |
| IpcSession.Connection.Open | src/Terracotta.Helper/src/ipc/session.rs:47-117 | the session opens if and only if the first envelope is a well-formed hello of the plugin that carries the secret, and its acceptance goes out; otherwise one error frame says whether form or authentication was wrong |
| IpcSession.Connection.Run | src/Terracotta.Helper/src/ipc/session.rs:39-164 | whatever a connection brings, the room is as at the start unless its first envelope carried the secret |
| IpcSession.Connection.Announce | src/Terracotta.Helper/src/ipc/session.rs:148-161 | one event is pushed with the next number, or the lag is skipped |
| IpcSession.Connection.Serve | src/Terracotta.Helper/src/ipc/session.rs:124-164 | any sequence of wakeups is one of the specified runs |
| IpcSession.DecodeIdentity | src/Terracotta.Helper/src/ipc/session.rs:443-454 | the loop computes the key of 32 pairs, or nothing |
| IpcSession.KeysAreParsedPairs | src/Terracotta.Helper/src/ipc/session.rs:443-454 | a text is a key exactly when each of its pairs parses, and then byte by byte |
| IpcSession.KeysRoundTrip | src/PCLN.Terracotta.Plugin/Infrastructure/HelperRoomGateway.cs:114-124 | every key that the plugin sends in hexadecimal decodes to itself |
| IpcSession.KeysAreAcceptedExactly | src/Terracotta.Helper/src/ipc/session.rs:443-454 | a text of 64 bytes is a key exactly when each pair ends in a hexadecimal digit and begins with one or with a plus sign |
| IpcSession.AcceptedKeysAreHexExactlyWithoutPlus | src/Terracotta.Helper/src/ipc/session.rs:448-452 | an accepted text is hexadecimal throughout exactly when no pair begins with a plus sign |
| IpcSession.PlusStandsForZero | src/Terracotta.Helper/src/ipc/session.rs:448-452 | a plus sign in place of a leading zero of any key text gives the same key |
| IpcSession.PlusSignedKeyIsAccepted | src/Terracotta.Helper/src/ipc/session.rs:443-454 | a text of plus signs and zeros is accepted |
| Demultiplexing.AnswersBelongToTheirCallers | src/PCLN.Terracotta.Plugin/Infrastructure/HelperIpcClient.cs:100-144 | for every interleaving an answered call holds the session's reply to that very request |
| Demultiplexing.CompletionsAreFinal | src/PCLN.Terracotta.Plugin/Infrastructure/HelperIpcClient.cs:129-132 | a call that no longer waits never changes again |
| Demultiplexing.OtherFramesBecomeEvents | src/PCLN.Terracotta.Plugin/Infrastructure/HelperIpcClient.cs:183-203 | pushes and replies to removed callers complete no call and go to the event channel |
| Demultiplexing.FinishedCallsStayForgotten | src/PCLN.Terracotta.Plugin/Infrastructure/HelperIpcClient.cs:140-143 | once its caller has gone, a call's id is never pending again |
| Demultiplexing.PendingCallsAreAnswered | src/PCLN.Terracotta.Plugin/Infrastructure/HelperIpcClient.cs:190-195 | a pending call is answered by the frame that carries its id |
| Demultiplexing.ReaderFailuresReachEveryCaller | src/PCLN.Terracotta.Plugin/Infrastructure/HelperIpcClient.cs:209-214 | on every run a failing reader fails each pending call that waits, for good, and completes no other |
| Demultiplexing.DisposalReachesEveryCaller | src/PCLN.Terracotta.Plugin/Infrastructure/HelperIpcClient.cs:156-181 | on every run disposal cancels each pending call that waits, for good, completes no other and forgets all ids |
| Demultiplexing.NothingIsAnsweredAfterTheReader | src/PCLN.Terracotta.Plugin/Infrastructure/HelperIpcClient.cs:205-214 | on every run a cancelled reader completes nothing, and once the reader has ended nothing is ever answered or queued again |
| Demultiplexing.EventsAreTheLatest | src/PCLN.Terracotta.Plugin/Infrastructure/HelperIpcClient.cs:22-28 | on every run the event channel holds the latest 128 of the delivered frames that nobody waited for, in order |
| Demultiplexing.EventIdsAreNoGuids | src/Terracotta.Helper/src/ipc/session.rs:374 | a push id is never a generated request id |
| Demultiplexing.PushIdsAreDistinct | src/Terracotta.Helper/src/ipc/session.rs:374 | within 2^64 pushes no id repeats |
| Demultiplexing.ReusedIdsCrossReplies | src/PCLN.Terracotta.Plugin/Infrastructure/HelperIpcClient.cs:106-109 | with reused ids a late reply would answer the wrong call, so fresh ids are needed |
| HelperIpcClient.HelperIpcClient.Begin | src/PCLN.Terracotta.Plugin/Infrastructure/HelperIpcClient.cs:106-109 | a fresh id is registered, a pending one refused |
| HelperIpcClient.HelperIpcClient.Receive | src/PCLN.Terracotta.Plugin/Infrastructure/HelperIpcClient.cs:188-202 | the pending call of that id is removed and answered, anything else becomes an event |
| HelperIpcClient.HelperIpcClient.CompleteAll | src/PCLN.Terracotta.Plugin/Infrastructure/HelperIpcClient.cs:209-214 | every call pending and still waiting is completed, no other |
| HelperIpcClient.HelperIpcClient.CancelReader | src/PCLN.Terracotta.Plugin/Infrastructure/HelperIpcClient.cs:205-208 | a cancelled read loop ends and leaves the waiting calls waiting |
| HelperIpcClient.HelperIpcClient.Dispose | src/PCLN.Terracotta.Plugin/Infrastructure/HelperIpcClient.cs:156-181 | waiting calls are cancelled and forgotten |
| HelperIpcClient.Queued | src/PCLN.Terracotta.Plugin/Infrastructure/HelperIpcClient.cs:22-28 | the newest event is last and the channel never exceeds its bound |
| HelperProcessManager.GrantedExactlyOutsideWindow | src/PCLN.Terracotta.Plugin/Infrastructure/HelperProcessManager.cs:188-199 | an unexpected exit is granted a restart exactly when none was in the ten seconds before, since the last reset |
| HelperProcessManager.RestartBudget | src/PCLN.Terracotta.Plugin/Infrastructure/HelperProcessManager.cs:171-210 | two granted restarts with no reset between are more than ten seconds apart |
| HelperProcessManager.StaleGenerationsChangeNothing | src/PCLN.Terracotta.Plugin/Infrastructure/HelperProcessManager.cs:178-179 | the end of a replaced process changes and reports nothing |
| HelperProcessManager.ConnectedExactly | src/PCLN.Terracotta.Plugin/Infrastructure/HelperProcessManager.cs:53-307 | on every run there is a client if and only if an answered start is followed by no effective stop and no end of the current process |
| HelperProcessManager.ExitsAreReportedExactly | src/PCLN.Terracotta.Plugin/Infrastructure/HelperProcessManager.cs:171-210 | an end is reported if and only if it is of the current process and nothing was stopped on purpose since the last launch; either way it leaves no client |
| HelperProcessManager.StopsAreMarkedExactly | src/PCLN.Terracotta.Plugin/Infrastructure/HelperProcessManager.cs:53-307 | the mark of an intentional stop stands if and only if a stop, or a start that failed, is followed by no launch |
| HelperProcessManager.RecoveredCrashesAreAlwaysGranted | src/PCLN.Terracotta.Plugin/Application/TerracottaController.cs:508 | recovery stops the helper first, after which the next crash is granted at any time |
| HelperProcessManager.HelperProcessManager.OnProcessEnded | src/PCLN.Terracotta.Plugin/Infrastructure/HelperProcessManager.cs:171-210 | the specified count, window and verdict |
| HelperProcessManager.HelperProcessManager.EnsureStarted | src/PCLN.Terracotta.Plugin/Infrastructure/HelperProcessManager.cs:53-124 | a running helper is kept; a start that fails is undone as an intentional stop, and raises the generation only if it got as far as launching |
| HelperProcessManager.HelperProcessManager.StopCore | src/PCLN.Terracotta.Plugin/Infrastructure/HelperProcessManager.cs:256-307 | a completed intentional stop forgives crashes; one cancelled while asking only leaves its mark, one cancelled while waiting has forgotten the client too |
| ControllerRuns.StepAgreesExactlyWhenHarmless | src/PCLN.Terracotta.Plugin/Application/TerracottaController.cs:140-663 | from agreement of machine and snapshot a step keeps it if and only if it is harmless: a live status reply needs a machine in the room, a live pushed snapshot one that is in or entering it, a helper exit one in the room or a fault to follow |
| ControllerRuns.AgreementOnEveryRun | src/PCLN.Terracotta.Plugin/Application/TerracottaController.cs:140-663 | machine and snapshot agree throughout every run of harmless steps |
| ControllerRuns.OutcomesRestoreAgreement | src/PCLN.Terracotta.Plugin/Application/TerracottaController.cs:140-407 | every outcome of a create, join, leave, diagnosis or recovery that was not cancelled restores agreement from any state |
| ControllerRuns.AgreementSinceOutcome | src/PCLN.Terracotta.Plugin/Application/TerracottaController.cs:140-407 | since such an outcome only harmless steps: the two agree, however far they had drifted before |
| ControllerRuns.FaultsAlwaysAgree | src/PCLN.Terracotta.Plugin/Application/TerracottaController.cs:880-892 | a fault is always allowed and always agrees |
| ControllerRuns.LatePushesOutliveLeaving | src/PCLN.Terracotta.Plugin/Application/TerracottaController.cs:644-662 | a run from the start: after a faulted room is left, a live snapshot pushed before the helper is stopped is published, disagrees, and survives another leave |
| ControllerRaces.HalvesMakeAPush | src/PCLN.Terracotta.Plugin/Application/TerracottaController.cs:624-663 | the transition and the publication of a pushed snapshot, with nothing in between, are the whole handler |
| ControllerRaces.PublicationAgreesExactly | src/PCLN.Terracotta.Plugin/Application/TerracottaController.cs:624-663 | whatever came since the transition, a publication leaves the copies agreeing exactly when the machine then stands at the pushed idle or faulted state, or in the room for a live one |
| ControllerRaces.RaceStepAgreesExactly | src/PCLN.Terracotta.Plugin/Application/TerracottaController.cs:465-663 | with pushes in halves, a step keeps agreement outside pushes if and only if it is such a publication, a harmless step outside a push, or anything within one |
| ControllerRaces.AgreementOnEveryRace | src/PCLN.Terracotta.Plugin/Application/TerracottaController.cs:465-663 | so the copies agree whenever no push is under way, whatever operations, exits and restarts come between the halves of pushes |
| ControllerRaces.UndisturbedPushesAreHarmlessExactly | src/PCLN.Terracotta.Plugin/Application/TerracottaController.cs:624-663 | a push that nothing comes between finds the machine where it belongs exactly when the whole push is harmless |
| ControllerRaces.OvertakenPushesDisagree | src/PCLN.Terracotta.Plugin/Application/TerracottaController.cs:634-641 | a pushed fault that a leave overtakes is published after the room was left, and disagrees |
| ControllerRuns.LeavingForgetsTheRoom | src/PCLN.Terracotta.Plugin/Application/TerracottaController.cs:279-301 | after a leave there is nothing to recover until another room is entered |
| ControllerRuns.RecoverableOnEveryRun | src/PCLN.Terracotta.Plugin/Application/TerracottaController.cs:499-560 | with session, address and codes that are not blank, every intent remembered, being entered or being recovered is complete |
| ControllerRuns.RecoveriesReachTheHelper | src/PCLN.Terracotta.Plugin/Application/TerracottaController.cs:508-541 | so no recovery on any such run fails for an incomplete intent: each gets to its call of the helper |
| ControllerRuns.RecoveryIsUsableOnEveryRun | src/PCLN.Terracotta.Plugin/Application/TerracottaController.cs:499-541 | on every run, whatever the texts, a remembered host intent has a session and an address and a remembered member intent a code |
| ControllerRuns.EntryIsRemembered | src/PCLN.Terracotta.Plugin/Application/TerracottaController.cs:197-262 | on every run a room entered is remembered under its role with the helper's room code, else the requested one, and a host's session and address |
| ControllerEffects.LeavingRestoresTheStartExactly | src/PCLN.Terracotta.Plugin/Application/TerracottaController.cs:279-311 | an answered leave brings everything back to the start if and only if no diagnosis is under way and an idle machine shows an idle snapshot |
| ControllerEffects.WaitingLosesNothing | src/PCLN.Terracotta.Plugin/Application/TerracottaController.cs:140-188 | waiting for a game or its LAN port is shown with its code and leaves a later creation as it would have been |
| ControllerEffects.EntriesShowTheRoom | src/PCLN.Terracotta.Plugin/Application/TerracottaController.cs:140-262 | an answered entry shows the room and polls it, remembers the request with what the helper added, and leaving undoes it all |
| ControllerEffects.FailedEntriesShowTheRequest | src/PCLN.Terracotta.Plugin/Application/TerracottaController.cs:189-246 | a failed create or join shows the request with the error, frees the gate and keeps what was remembered |
| ControllerEffects.DiagnosesReturn | src/PCLN.Terracotta.Plugin/Application/TerracottaController.cs:370-407 | a diagnosis returns to the live state it came from, whatever network is pushed meanwhile, and shows its result |
| ControllerEffects.CrashesAreShown | src/PCLN.Terracotta.Plugin/Application/TerracottaController.cs:465-497 | a crash in a room is Reconnecting if the room will be recovered and Faulted if not, and ends polling |
| ControllerEffects.RecoveriesPutTheRoomBack | src/PCLN.Terracotta.Plugin/Application/TerracottaController.cs:499-560 | crash, stop and answered recovery come to the room as the helper then has it, with everything else as before |
| ControllerEffects.FailedRecoveriesForgetTheRoom | src/PCLN.Terracotta.Plugin/Application/TerracottaController.cs:499-560 | a recovery asks the helper exactly for a complete intent; one that fails anywhere is a fault that forgets the room, a cancelled one only frees the gate |
| ControllerEffects.RestartsFaultRooms | src/PCLN.Terracotta.Plugin/Application/TerracottaController.cs:1011-1016 | a restart by hand is a fault of whatever the plugin was in |
| ControllerEffects.PollsExactly | src/PCLN.Terracotta.Plugin/Application/TerracottaController.cs:970-1009 | on every run the status is polled exactly from an entry, recovery or live push up to the next leave, fault of the helper, idle push or exit |
| PluginFollowsHelper.NetworkPushesAreFollowed | src/PCLN.Terracotta.Plugin/Application/TerracottaController.cs:593-608 | when a poll publishes its network, a plugin in a live room that applies the push stands in the helper's state, machine and snapshot alike, Connected exactly when healthy |
| PluginFollowsHelper.PushesAreShown | src/PCLN.Terracotta.Plugin/Application/TerracottaController.cs:624-663 | a pushed snapshot moves machine and snapshot to what the helper has, and polling goes on exactly in a live room |
| PluginFollowsHelper.StepIsFollowed | src/PCLN.Terracotta.Plugin/Application/TerracottaController.cs:581-622 | any operation of the service but an entry keeps a plugin that applies its events where the service is |
| PluginFollowsHelper.PluginFollowsTheRoom | src/PCLN.Terracotta.Plugin/Application/TerracottaController.cs:581-663 | on every session run a plugin on its way into a room that applies the events pushed from the entry on stands where the helper stands whenever it has them all |
| PluginFollowsHelper.StatusRepliesAreShown | src/PCLN.Terracotta.Plugin/Application/TerracottaController.cs:322-348 | the answer to a status request makes the plugin show the helper's room, and its members where the snapshot lists the known ones |
| PluginFollowsHelper.EntryRepliesAreShown | src/PCLN.Terracotta.Plugin/Application/TerracottaController.cs:189-262 | the answer to a create or join makes the plugin show the helper's room and remember its code |
| TerracottaController.TerracottaController.BeginCreate | src/PCLN.Terracotta.Plugin/Application/TerracottaController.cs:140-188 | create up to its call of the helper |
| TerracottaController.TerracottaController.BeginJoin | src/PCLN.Terracotta.Plugin/Application/TerracottaController.cs:221-246 | join up to its call of the helper |
| TerracottaController.TerracottaController.EndEntry | src/PCLN.Terracotta.Plugin/Application/TerracottaController.cs:189-214 | what create and join do with reply, exception or cancellation |
| TerracottaController.TerracottaController.BeginLeave | src/PCLN.Terracotta.Plugin/Application/TerracottaController.cs:279-299 | leave up to its call of the helper |
| TerracottaController.TerracottaController.EndLeave | src/PCLN.Terracotta.Plugin/Application/TerracottaController.cs:299-311 | what leave does with reply, exception or cancellation |
| TerracottaController.TerracottaController.EndRefresh | src/PCLN.Terracotta.Plugin/Application/TerracottaController.cs:322-348 | a live or faulted status is published, a failure ignored |
| TerracottaController.TerracottaController.BeginDiagnose | src/PCLN.Terracotta.Plugin/Application/TerracottaController.cs:374-384 | diagnosis up to its call of the helper; outside a room it is a fault |
| TerracottaController.TerracottaController.EndDiagnose | src/PCLN.Terracotta.Plugin/Application/TerracottaController.cs:386-407 | back to the previous live state, or a fault |
| TerracottaController.TerracottaController.EndRecovery | src/PCLN.Terracotta.Plugin/Application/TerracottaController.cs:513-560 | the room re-entered, or the intent dropped with a fault |
| TerracottaController.TerracottaController.ApplyHelperSnapshot | src/PCLN.Terracotta.Plugin/Application/TerracottaController.cs:624-663 | idle, faulted and live snapshots as pushed |
| TerracottaController.TerracottaController.ApplyNetwork | src/PCLN.Terracotta.Plugin/Application/TerracottaController.cs:593-608 | a network push flips a live machine and publishes the machine's state |
| TerracottaController.TerracottaController.OnHelperProcessExited | src/PCLN.Terracotta.Plugin/Application/TerracottaController.cs:465-497 | reconnecting is published, and a fault when nothing will recover |
| RoomStateMachine.RoomStateMachine.TransitionTo | src/PCLN.Terracotta.Plugin/Application/RoomStateMachine.cs:101-115 | moves exactly where the table allows, and announces changes only |
| RoomStateMachine.RoomStateMachine.ResetToIdle | src/PCLN.Terracotta.Plugin/Application/RoomStateMachine.cs:121-138 | ends in Idle from every state, announced once |
| Framing.ReadFrame | src/Terracotta.Helper/src/protocol/framing.rs:26-59 | reads one frame off any chunking of the stream, or reports what is wrong with it |
| Framing.WriteFrame | src/Terracotta.Helper/src/protocol/framing.rs:61-76 | writes the frame whole, or nothing |
| Framing.ReadsExactlyWhatIsWritten | src/Terracotta.Helper/src/protocol/framing.rs:26-76 | a stream decodes to a body and a rest exactly when it is the body's frame followed by the rest |
| Framing.CutFramesAreClassified | src/Terracotta.Helper/src/protocol/framing.rs:26-59 | each proper prefix of a frame: end of stream, truncated header, truncated payload |
| Framing.HeadersAreLittleEndian | src/Terracotta.Helper/src/protocol/framing.rs:61-76 | the four bytes before a body are its length with the low byte first |
| Framing.FramesRoundTrip | src/Terracotta.Helper/src/protocol/framing.rs:26-76 | every list of bodies is read back, leaving the rest of the stream |
| IpcFraming.Read | src/PCLN.Terracotta.Plugin/Infrastructure/IpcFraming.cs:30-55 | the plugin's reader, over any chunking |
| IpcFraming.Write | src/PCLN.Terracotta.Plugin/Infrastructure/IpcFraming.cs:9-28 | the plugin's writer |
| IpcFraming.ReadersAgree | src/PCLN.Terracotta.Plugin/Infrastructure/IpcFraming.cs:30-55 | both readers accept the same frames |
| IpcFraming.EitherSideReadsBack | src/PCLN.Terracotta.Plugin/Infrastructure/IpcFraming.cs:9-55 | each side reads back every list of bodies that either side has written |
| ScaffoldingProtocol.RequestsReadExactlyWhatIsWritten | src/Terracotta.Helper/src/scaffolding/protocol.rs:33-85 | a stream decodes to a request exactly when it is that request's encoding followed by the rest |
| ScaffoldingProtocol.ResponsesReadExactlyWhatIsWritten | src/Terracotta.Helper/src/scaffolding/protocol.rs:87-117 | the same for responses |
| ScaffoldingProtocol.RequestsRoundTrip | src/Terracotta.Helper/src/scaffolding/protocol.rs:33-85 | every list of requests is read back, leaving the rest of the stream |
| ScaffoldingProtocol.ResponsesRoundTrip | src/Terracotta.Helper/src/scaffolding/protocol.rs:87-117 | every list of responses is read back |
| ScaffoldingProtocol.HeadersAreBigEndian | src/Terracotta.Helper/src/scaffolding/protocol.rs:69-85 | a request is its type's length in one byte, the type, and the body behind its length with the high byte first |
| ScaffoldingProtocol.ReadRequest | src/Terracotta.Helper/src/scaffolding/protocol.rs:33-67 | the reader over any chunking of the stream |
| ScaffoldingProtocol.WriteRequest | src/Terracotta.Helper/src/scaffolding/protocol.rs:69-85 | a valid request goes out whole, an invalid one not at all |
| ScaffoldingProtocol.ReadResponse | src/Terracotta.Helper/src/scaffolding/protocol.rs:87-101 | the reader over any chunking of the stream |
| ScaffoldingProtocol.WriteResponse | src/Terracotta.Helper/src/scaffolding/protocol.rs:103-117 | a valid response goes out whole, an invalid one not at all |
| ScaffoldingServer.Lockstep | src/Terracotta.Helper/src/scaffolding/server.rs:178-241 | a client that sends any list of requests reads back the replies in order, up to the first reply that cannot be written |
| ScaffoldingServer.RequestsAreAnsweredExactly | src/Terracotta.Helper/src/scaffolding/server.rs:178-241 | every request is answered exactly when every listing asked for, in the registry as it then is, fits into a response |
| ScaffoldingServer.PortIsServed | src/Terracotta.Helper/src/scaffolding/server.rs:215-217 | the port, with its high byte first |
| ScaffoldingServer.PingsAreEchoed | src/Terracotta.Helper/src/scaffolding/server.rs:195-200 | an echo of up to 31 bytes, status 32 beyond |
| ScaffoldingServer.RegistrationIsAcknowledged | src/Terracotta.Helper/src/scaffolding/server.rs:218-224 | status 0 if and only if the player is registered now, as a guest seen just now; otherwise status 32 and nothing changed |
| ScaffoldingServer.ListingsAreServed | src/Terracotta.Helper/src/scaffolding/server.rs:225-229 | the one listing of the registry |
| ScaffoldingServer.UnknownRequestsAreRefused | src/Terracotta.Helper/src/scaffolding/server.rs:230-237 | status 255 if and only if the type is not supported, or one of the two queries comes with a body |
| ScaffoldingServer.ServeClient | src/Terracotta.Helper/src/scaffolding/server.rs:178-241 | the loop serves a whole stream, whatever its chunking |
| ScaffoldingServer.Answer | src/Terracotta.Helper/src/scaffolding/server.rs:189-237 | the dispatch on the request type, its reply and its effect on the registry |
| ScaffoldingServer.ServedConnectionsKeepRegistry | src/Terracotta.Helper/src/scaffolding/server.rs:178-241 | whatever bytes a connection brings, serving it keeps the registry invariant, the host and the port |
| ScaffoldingServer.NamesOfJoin | src/Terracotta.Helper/src/scaffolding/server.rs:201-207 | splitting a NUL-join of non-empty NUL-free names gives the names back |
| ScaffoldingServer.ReplyIsTheIntersection | src/Terracotta.Helper/src/scaffolding/server.rs:201-214 | the server answers the supported names that were offered, or all when none were |
| ScaffoldingServer.OwnOfferPassesNegotiation | src/Terracotta.Helper/src/scaffolding/client.rs:91-111 | this client's offer passes its own capability check against this server |
| ScaffoldingServer.ScaffoldingClient.Exchange | src/Terracotta.Helper/src/scaffolding/client.rs:113-140 | one request out, exactly one response taken |
| NetworkName.NetworkNameFor | src/Terracotta.Helper/src/network/credentials.rs:78-99 | the loop on the wrapping 32-bit accumulator computes the encoding of the 64-bit digest prefix |
| NetworkName.EmittedGroup | src/Terracotta.Helper/src/network/credentials.rs:86-92 | the accumulator that has dropped high bits still yields the right five-bit group |
| NetworkName.NamesAgreeExactlyOnTop50Bits | src/Terracotta.Helper/src/network/credentials.rs:78-99 | two names are equal exactly when the top 50 bits of the prefixes are |
| NetworkName.DigestsShareANameExactly | src/Terracotta.Helper/src/network/credentials.rs:78-99 | two digests give one name exactly when they agree on six bytes and on the top two bits of the seventh |
| Credentials.NormalFormsAreTheFixedPoints | src/Terracotta.Helper/src/network/credentials.rs:45-59 | normalisation gives normal forms, is idempotent, and its fixed points are exactly the normal forms |
| Credentials.CompactUndoesFormat | src/Terracotta.Helper/src/network/credentials.rs:61-71 | compacting a formatted code gives the code |
| Credentials.FormatUndoesCompact | src/Terracotta.Helper/src/network/credentials.rs:61-71 | formatting a compacted normal form gives the normal form |
| Credentials.SpellingsOfOneCode | src/Terracotta.Helper/src/network/credentials.rs:45-67 | spellings of one code have one compact form |
| Credentials.Generate | src/Terracotta.Helper/src/network/credentials.rs:34-42 | the loop maps twelve bytes to twelve alphabet symbols |
| Credentials.GeneratedCodesAreNormal | src/Terracotta.Helper/src/network/credentials.rs:34-42 | every generated code passes the normaliser unchanged |
| Credentials.CodesAreUnbiased | src/Terracotta.Helper/src/network/credentials.rs:38-40 | every code of n alphabet symbols has exactly 8^n preimages, for every n |
| Credentials.PreimagesAreExact | src/Terracotta.Helper/src/network/credentials.rs:38-40 | the counted preimages are exactly the byte strings mapped to the code |
| RoomCode.TryNormalize | src/PCLN.Terracotta.Contracts/RoomCode.cs:34-57 | the plugin's loop over groups |
| RoomCode.PluginResultsAreHelperFixedPoints | src/PCLN.Terracotta.Contracts/RoomCode.cs:34-57 | every result of the plugin's normaliser is a fixed point of the helper's |
| RoomCode.BothSidesAgree | src/PCLN.Terracotta.Contracts/RoomCode.cs:34-57 | where both sides accept a string they give the same code |
| RoomCode.SidesAgreeExactly | src/PCLN.Terracotta.Contracts/RoomCode.cs:34-57 | of what the plugin accepts the helper accepts exactly what is padded with plain spaces only; of what the helper accepts the plugin accepts exactly what has no space inside; of what either accepts they agree exactly when both hold |
| RoomCode.HelperAcceptsExactly | src/Terracotta.Helper/src/network/credentials.rs:45-59 | the helper accepts a spelling exactly when its padding is plain spaces and its trimmed text compacts to twelve symbols |
| RoomCode.PluginAcceptsExactly | src/PCLN.Terracotta.Contracts/RoomCode.cs:40-45 | the plugin accepts a spelling exactly when its trimmed text has no space and compacts to twelve symbols |
| RoomCode.OnlyThePluginAcceptsATab | src/PCLN.Terracotta.Contracts/RoomCode.cs:40-45 | an instance: a leading tab before any normal form is accepted by the plugin only |
| RoomCode.OnlyTheHelperAcceptsInnerSpaces | src/PCLN.Terracotta.Contracts/RoomCode.cs:40-45 | an instance: a space inside any compact code is accepted by the helper only |
| Mesh.PortsAreDistinctAndInRange | src/Terracotta.Helper/src/network/mesh.rs:21-38 | the four ports are distinct, in their ranges and within 16 bits |
| Mesh.SpellingsMeet | src/Terracotta.Helper/src/network/mesh.rs:21-76 | however host and member spell a code, the member forwards to the host's ingress ports |

## Left out

- Sockets, pipes, process launching, file permissions, parent monitoring and operating-system calls: kept only as steps
  that may fail and as resources acquired and released.
- Interrupted reads: `read_frame` sits in a `select!` (src/Terracotta.Helper/src/ipc/session.rs:125-126), so a timer tick
  can drop it mid-frame and lose what it had consumed. A frame read is one step here.
- Overlapping calls to `RoomService`: the session awaits each handler, so calls do not overlap.
- Frames half written by a cancelled or failing writer: a frame goes out whole or the connection is over for its writer.
- Mutable sharing between a call and its completion source in the IPC client: completions are a sequence indexed by call
  number instead of objects.
- Of the members and the network in the plugin's snapshot: names, modes and round trips. It keeps ids and health here.
- The five seconds within which the first envelope has to arrive, and read errors before it: no session opens then.
- Error message texts, log lines and notifications; error codes that only pass through are `OtherError`.
- The advertisement file of a hosted room: a failed publication may leave it behind, so it is not among the resources.
- The connection counters of port forwards and the traffic they carry.
- The network secret (an HMAC of the room code) and the text of EasyTier's command line and its peer samples.
- Floating-point packet loss: it is copied and never computed with, and is a real number here.
- Views, localisation, commands, settings, export registration and the redaction of diagnostics.
- ControllerRuns.AgreementOnEveryRun: a step is a whole event handler or a whole segment between two awaits, although
  handlers take no gate. `ControllerRaces` takes pushed snapshots apart into transition and publication and lets
  operations, exits and restarts come in between; those others are whole steps there too, so a push that comes between
  the transition and the publication of an operation or of the exit handler is not modelled.
- ControllerRuns.AgreementSinceOutcome: takes whole handlers and segments as steps, as above.
- Status polling and queued operations of the controller as schedulers: the events they lead to are steps of a run, in
  any order.
- Streams.ByteReader.Read: a read error other than the end of the stream is not modelled, because the readers only pass
  it on.
