# unified-inhibit, verified model

unified-inhibit (`uinhibitd`) listens on many wakelock interfaces and forwards every inhibit it hears on one
of them to all the others. This project models that daemon in Dafny and proves what it promises: that all
interfaces effectively share one state, that no forwarded copy outlives its source, that a vanished client
leaves nothing behind, and that the pipes to the setuid helpers and the kernel's lock file lose nothing.

`dafny verify dfyconfig.toml` checks the whole project.

## How the model is built

* `InhibitTypes`, `Ids`: the two type flags, and the byte layout of ids. A byte is a character with its code;
  struct padding is zero.
* `HubSpec`: the hub as a state machine. One event is an application's `registerInhibit` or
  `registerUnInhibit` at one interface, with everything the callbacks do. What the other interfaces answer to
  a forwarded request (an inhibit, "unsupported type", "no response") is a parameter of the event, so every
  statement is about all answers. `sources` records which active ids an application registered; the other
  active ids are copies made by the hub.
* `HubSafety`, `HubSharing`: what holds over all runs of the hub. `Aborts`: what survives uncaught exceptions.
  `ConstantIds`: targets that hand out one id; `Histories`: what was registered and not forgotten since.
* `Hub` (module `HubObjects`): `InhibitInterface` and the hub as classes that update their fields in place; each
  method is proved to take the step of `HubSpec`. Pointers to interfaces are their positions in the list, which
  are their instance ids.
* `Cookies`, `FreshSharing`: wrapping counters, ids that are fresh while fewer cookies than one round were issued
  since the oldest active one, and the step by which an interface with fresh ids keeps sharing the state.
* `SimpleDBus`, `SimpleDBusRuns`, `SimpleDBusSharing`, `SimpleDBusMessages`, `SimpleDBusObject`: the D-Bus interfaces. A message handler
  is described by the hub events it causes and by what it does to its owner table and cookie. The interfaces of
  one fixed type and the session manager differ in where the types come from and in whether the counter skips
  0; both are covered. `GnomeFlags`, `SessionManager`: flag word, object paths and the session manager's handlers.
* `ScreenSaverLease`, `ScreenSaverRuns`: simulated activity, its five-minute leases, and what they do to crash
  release. `MonitorPairing`: matching observed calls with their returns. `UserCommands`, `UserCommandsSharing`:
  commands on edges, and that they follow what applications hold.
* `Text`, `Decimal`, `Framing`, `SystemdPipe`: the pipe to the systemd helper.
* `KernelLocks`, `KernelWatcher`, `KernelObject`: lock names, the watcher thread and the drain. One watcher pass
  and one drain are atomic steps that interleave freely; they are refined to turns on three sets of ids.

Clock readings, replies of other programs, the pieces in which a pipe or file is read and the order in which a
map is visited are parameters or arbitrary choices.

## Where the code does not keep the promise

Each of these is stated with the exact condition under which the promise holds.

* A target that does not respond cuts the forwarding loop short, so interfaces behind it miss the inhibit
  (`HubSharing.CutLoopSharesIffCovered`). An exception nobody catches also leaves the originator's cached state
  stale and the inhibit without an owner (`Aborts.AbortStaleIff`, `Aborts.AbortedInhibitIsReleasedIff`).
* A target that hands out a constant id has one copy for all sources: it holds the types of the earliest grant
  since a source of the copy was last released, and nothing when there was no grant since
  (`ConstantIds.CopyHistory`, `ConstantIds.ConstantIdSharesIff`, `ConstantIds.ConstantIdLosesIff`); a single
  grant under an id that is already active is enough exactly if it adds no type
  (`HubSharing.SharedGrantSharesIffCovered`). include/InhibitInterface.hpp:40-41 asks for unique ids. Kernel locks
  collide when two requests have the same name (`KernelLocks.RequestsCollideIff`).
* include/Fork.hpp promises the helper exactly one line per message. The loop also hands over the unfinished
  line whenever a chunk has no newline (`Framing.OnlyLinesIff`, `SystemdPipe.PipeRoundTripIff`), so a request that
  takes two reads is heard as sent exactly for some cuts (`SystemdPipe.CutRequestIff`,
  `SystemdPipe.FullReadLocksTwice`). Fields with tabs or newlines are not decoded as sent
  (`SystemdPipe.RequestDecodedIff`).
* Simulated activity never renews a lease, because the search for the earlier one compares addresses
  (`ScreenSaverLease.ActivityOutlivesPollIff`). Activity empties its sender's owner list, and so does a poll that
  collects one of its leases: the loss of the name then misses the ordinary inhibits registered before, in the
  second case also those registered after the activity. It releases exactly those registered since
  (`ScreenSaverRuns.CrashReleaseIffRemembered`, `ScreenSaverRuns.ActivityForgetsOwnerIff`,
  `ScreenSaverRuns.PollForgetsOwner`).
* A kernel lock whose name is longer than the id field is registered and released in turns forever
  (`KernelWatcher.LongNameToggles`), so the watcher settles exactly if every such foreign name shares its id with
  one that fits (`KernelWatcher.WatcherSettlesIff`).
* A call that reuses the serial of a call still waiting is never handled (`MonitorPairing.HandledIff`), and a
  return to another client that names the serial of a waiting call is taken for its reply
  (`MonitorPairing.OwnRepliesIff`).
* Cookies from 2^31 on cannot be looked up by object path (`SessionManager.PathRoundTrip`).

## Model

| member | source | states |
|---|---|---|
| HubSpec.ForwardFromEffect | src/main.cpp:72-83 | the forwarding loop asks every interface but the originator up to the first that does not respond, gives each asked one exactly its answer, and records exactly the granted copies under the source, touching no other entry of the plan |
| HubSpec.WhoIsAsked | src/main.cpp:72-83 | every interface but the originator has doInhibit called exactly once if none in front of it failed to respond, and not at all otherwise; refusals do not end the loop, and without a grant nothing changes |
| HubSpec.RecordedInOrder | src/main.cpp:76-77 | the copies of one registration are recorded behind the earlier ones, in the order of the interfaces, each once and under the granted id |
| HubSpec.ReleaseAllEffect | src/main.cpp:96-103 | releasing a source's entries takes exactly the listed ids out of each interface's table and changes no other entry |
| HubSpec.RegisterEffect | src/InhibitInterface/InhibitInterface.cpp:59-63 | a registration adds the id at its interface (an id already there keeps its inhibit), adds the granted copies elsewhere, and records exactly those copies |
| HubSpec.UnregisterEffect | src/InhibitInterface/InhibitInterface.cpp:65-72 | a release takes away the id, exactly the copies recorded for it, and its plan entry, and nothing else |
| HubSpec.ReleasedCopyIsEntered | src/main.cpp:96-101 | an active copy that a released source lists has its interface's doUnInhibit called |
| HubSpec.EntryStays | src/InhibitInterface/InhibitInterface.cpp:41-72 | as long as an id stays active its entry does not change, and no registration takes it away |
| HubSafety.CoherentStep | src/InhibitInterface/InhibitInterface.cpp:74-83 | after every event each cached state is the union of the active types, every notification differs from the one before, and the printed state is the union over all interfaces |
| HubSafety.CoherentRun | src/InhibitInterface/InhibitInterface.cpp:41-83 | the same over every run |
| HubSafety.InhibitsUntilReleased | src/InhibitInterface/InhibitInterface.cpp:59-83 | until it is released an inhibit stays what it was registered as, and its types stay part of what its interface and the hub report |
| HubSafety.GlobalUnionIsLeast | src/main.cpp:47-53 | the global state is the least type that has every flag of every interface |
| InhibitTypes.UnionIsLeast | src/InhibitInterface/InhibitInterface.cpp:32-39 | the state of an interface is the least type that has every flag of its active inhibits |
| HubSafety.NoEchoRun | src/main.cpp:75-77 | in every run no copy recorded for a source is held by the source's own interface |
| HubSafety.NoSelfLock | src/InhibitInterface/LinuxKernelInhibitInterface.cpp:67-76 | in every run the callbacks of an event never enter doInhibit or doUnInhibit of the interface the event started at, whose mutex the drain holds |
| HubSafety.NoLeakRun | src/main.cpp:65-110 | while no interface gives a copy the id of a source or a source the id of a copy, every active copy stays recorded under a source that is active, through cut loops, refusals, constant copy ids and repeated registrations |
| HubSafety.NoLeakedWakelock | src/main.cpp:71-107 | in every such run, once no application holds anything, the plan is empty and nothing is active or inhibited at any interface |
| HubSafety.ReleaseUndoesRegister | src/InhibitInterface/InhibitInterface.cpp:59-72 | registering a new inhibit and releasing it leaves every table and the plan as they were |
| HubSafety.ExitAfterRun | src/main.cpp:123-133 | undoing the plan after any run leaves at every interface exactly the sources, unchanged |
| HubSharing.GlobalStateIsWhatAppsHold | src/main.cpp:47-63 | in every run the printed global state is the union of the types that applications hold, even with constant copy ids and silent targets |
| HubSharing.SourceUnionIsLeast | src/main.cpp:47-53 | what applications hold is the least type that has every flag of every inhibit they registered |
| HubSharing.SharedStateInEveryRun | src/main.cpp:65-110 | an interface that is always asked, answers, and grants unshared copies with exactly the accepted types is, after every event of every run, inhibited by exactly the types it accepts of what applications hold on any interface, provided that copies and sources have different ids at every interface; the others may refuse or reuse copy ids |
| HubSharing.SharedGrantSharesIffCovered | src/InhibitInterface/XautolockInhibitInterface.cpp:72-80 | after a grant under an id that is already active an interface that shared the state still does if and only if it was already inhibited for the new types it accepts |
| HubSharing.SharingIffUnshared | src/main.cpp:76-77 | a grant keeps the invariant of one copy for each source, which the shared state is proved from, if and only if the copy is not already the copy of another source |
| HubSharing.SharedCopyIsLost | src/main.cpp:96-103 | the first release of two sources that share a copy frees it although the plan still promises it to the other |
| ConstantIds.CopyHistory | src/InhibitInterface/XautolockInhibitInterface.cpp:72-80 | in every run the one copy of a constant-id target is active if and only if some grant came after the last release of a source that listed it, and it is the inhibit of the earliest such grant |
| ConstantIds.ConstantIdSharesIff | src/InhibitInterface/XidlehookInhibitInterface.cpp:84-92 | after any run a constant-id target holds what applications hold, in the types it acts on, if and only if the earliest grant since the last release has just these types, or nothing of them is held and there was none |
| ConstantIds.ConstantIdLosesIff | src/InhibitInterface/XautolockInhibitInterface.cpp:72-80 | when all that is forwarded has the one type of the target, the state is lost exactly if the type is held and no grant came after the last release of a source that listed the copy |
| ConstantIds.ConstantIdLosesNewer | src/InhibitInterface/XautolockInhibitInterface.cpp:72-80 | with a constant copy id two overlapping inhibits leave the interface uninhibited while the newer one holds |
| HubSharing.CutLoopSharesIffCovered | src/main.cpp:81-83 | an interface behind a silent target still shares the state if and only if it was already inhibited for the new types it accepts |
| Aborts.NoLeakDespiteAborts | src/main.cpp:71-83 | in every run with uncaught exceptions every copy stays recorded under an active source, and with no source left the plan and every table are empty |
| Aborts.AbortStaleIff | src/InhibitInterface/InhibitInterface.cpp:59-63 | after an uncaught exception the originator's cached state is right if and only if the inhibit was active or adds no type; all other interfaces stay coherent |
| Aborts.RepairedByNextEvent | src/InhibitInterface/InhibitInterface.cpp:74-83 | the next event an interface completes makes its cached state and the printed state right again |
| Aborts.AbortedInhibitIsReleasedIff | src/InhibitInterface/SimpleDBusInhibitInterface.cpp:88-91 | an inhibit whose handler was cut off is released with its client's name if and only if an earlier registration had listed it |
| HubObjects.InhibitInterface.Inhibited | src/InhibitInterface/InhibitInterface.cpp:32-39 | the loop computes the union of the active types |
| HubObjects.InhibitInterface.CallEvent | src/InhibitInterface/InhibitInterface.cpp:74-83 | notifies and caches the union exactly when it changed |
| HubObjects.InhibitInterface.Inhibit | src/InhibitInterface/InhibitInterface.cpp:41-47 | a granted request becomes active, an exception changes nothing |
| HubObjects.InhibitInterface.UnInhibit | src/InhibitInterface/InhibitInterface.cpp:49-57 | releases an active id and ignores any other |
| HubObjects.InhibitInterface.RegisterInhibit | src/InhibitInterface/InhibitInterface.cpp:59-63 | takes the registration step of the state machine on the whole hub |
| HubObjects.InhibitInterface.RegisterUnInhibit | src/InhibitInterface/InhibitInterface.cpp:65-72 | takes the release step of the state machine on the whole hub |
| HubObjects.Hub.AddInterface | src/InhibitInterface/InhibitInterface.cpp:23-30 | the instance counter makes each instance id the position of its interface |
| HubObjects.Hub.Inhibited | src/main.cpp:47-53 | the nested loops compute the union over all interfaces |
| HubObjects.Hub.InhibitCB | src/main.cpp:65-87 | forwards, records and reports as the state machine does |
| HubObjects.Hub.UnInhibitCB | src/main.cpp:89-110 | releases the recorded copies, drops the entry and reports as the state machine does |
| HubObjects.Hub.HandleExit | src/main.cpp:123-133 | in any order of the map, every recorded copy is undone, every other entry stays, the plan ends empty |
| Ids.SenderIdRoundTrip | src/InhibitInterface/SimpleDBusInhibitInterface.cpp:192-202 | instance, sender and cookie can be read back from the bytes of a D-Bus id |
| Ids.SenderIdInjective | src/InhibitInterface/SimpleDBusInhibitInterface.cpp:192-202 | two D-Bus ids are equal if and only if instance, sender and cookie are |
| Ids.CommandIdInjective | src/InhibitInterface/UserCommandsInhibitInterface.cpp:123-129 | two command ids are equal if and only if instance and cookie are |
| Ids.OneOwner | src/InhibitInterface/InhibitInterface.cpp:26-30 | an id names one instance only, so ids of different interfaces differ |
| Cookies.CookiesRepeatIff | src/InhibitInterface/SimpleDBusInhibitInterface.cpp:73-76 | a cookie comes back exactly after one round: any 2^32 - 1 consecutive cookies of the counter that skips 0 are distinct, any 2^32 of the plain one, and no more |
| Cookies.FirstRound | src/InhibitInterface/GnomeSessionManagerInhibitInterface.cpp:64-64 | the first cookies are 1, 2, 3 and so on; behind the largest one comes 1, or 0 for the session manager |
| Cookies.NextIsFresh | src/InhibitInterface/SimpleDBusInhibitInterface.cpp:169-176 | an id made with the next cookie is not active while fewer cookies than one round were issued since the oldest active id |
| Cookies.NextRepeatsAfterRound | src/InhibitInterface/GnomeSessionManagerInhibitInterface.cpp:312-314 | one round after the birth of an active id the next cookie is the one in that id |
| SimpleDBus.RemoveIfInPlace | src/InhibitInterface/SimpleDBusInhibitInterface.cpp:100-103 | std::remove_if without erase, element by element |
| SimpleDBus.RemoveIfKeeps | src/InhibitInterface/SimpleDBusInhibitInterface.cpp:100-103 | compacting an owner list loses no other id and adds nothing but empty ids |
| SimpleDBus.CompactEffect | src/InhibitInterface/SimpleDBusInhibitInterface.cpp:100-103 | the kept ids come first in their order, and only emptied or removed elements follow |
| SimpleDBus.KeptOfConcat | src/InhibitInterface/SimpleDBusInhibitInterface.cpp:100-103 | the kept ids keep their order and their number |
| SimpleDBus.ReleaseIds | src/InhibitInterface/SimpleDBusInhibitInterface.cpp:108-112 | releasing a list of ids takes away exactly the active ones and their copies, on every interface |
| SimpleDBusRuns.NameLostReleases | src/InhibitInterface/SimpleDBusInhibitInterface.cpp:108-112 | the loss of a name leaves nothing of the sender active and releases exactly its inhibits and their copies |
| SimpleDBusRuns.CrashRelease | src/InhibitInterface/SimpleDBusInhibitInterface.cpp:68-112 | after any run of the handlers of a D-Bus interface, the session manager included, interleaved with anything elsewhere, every active inhibit is in its sender's list and the loss of the name releases exactly that sender's inhibits and copies |
| SimpleDBusRuns.TidyAfterMessage | src/InhibitInterface/GnomeSessionManagerInhibitInterface.cpp:52-122 | every handler lists exactly the id it registers under its sender, loses no listed id that is still registered, and lists nothing of other senders |
| SimpleDBusMessages.InhibitRegistersWhatWasAsked | src/InhibitInterface/SimpleDBusInhibitInterface.cpp:68-92 | a client's Inhibit with a new id leaves the client's texts and the time, with exactly the interface's own types or those of the flags 8 and 4; these types and no others join the state, the counter moves on, and the id is the last one listed |
| SimpleDBusMessages.NewIdCarriesCookie | src/InhibitInterface/SimpleDBusInhibitInterface.cpp:72-87 | the id holds the client's name and the cookie it was answered with, which in monitor mode is that of the implementer's reply |
| SimpleDBusMessages.DoInhibitOutcomes | src/InhibitInterface/SimpleDBusInhibitInterface.cpp:148-178 | when a forwarded request is refused, meets silence, or is granted, and in the last case its types, texts, time, name and cookie, the implementer's cookie in monitor mode |
| SimpleDBusMessages.CopyIsWhatWasForwarded | src/main.cpp:74-77 | an inhibit registered elsewhere and granted here is held with its own texts, under an id of ours |
| SimpleDBusMessages.UnInhibitReleasesThatOne | src/InhibitInterface/SimpleDBusInhibitInterface.cpp:94-98 | UnInhibit releases the inhibit of that client with that cookie and no other one of the interface |
| SimpleDBusMessages.NameLostForgets | src/InhibitInterface/SimpleDBusInhibitInterface.cpp:108-112 | the loss of a name empties the list of that client only |
| SimpleDBusMessages.MonitoredUnInhibitUndoes | src/InhibitInterface/SimpleDBusInhibitInterface.cpp:77-98 | in monitor mode UnInhibit with the implementer's cookie restores every table and the plan |
| SimpleDBusSharing.DoInhibitKeepsContract | src/InhibitInterface/GnomeSessionManagerInhibitInterface.cpp:288-319 | an implementing D-Bus interface, of one type or the session manager, grants exactly the accepted types, with the request's texts, under an own id that is not active, and refuses exactly when it accepts none |
| SimpleDBusSharing.UnInhibitUndoesInhibit | src/InhibitInterface/SimpleDBusInhibitInterface.cpp:68-106 | UnInhibit with the returned cookie restores every table of every interface and the plan |
| SimpleDBusSharing.DBusInterfaceShares | src/InhibitInterface/SimpleDBusInhibitInterface.cpp:68-178 | in every run an implementing D-Bus interface is inhibited by exactly the types it accepts of what applications hold on any interface: one fixed type, or both for the session manager |
| SimpleDBusObject.SimpleDBusInterface.HandleInhibitMsg | src/InhibitInterface/SimpleDBusInhibitInterface.cpp:68-92 | issues the cookie, registers, and lists the id under its sender, as the handler's description says |
| SimpleDBusObject.SimpleDBusInterface.HandleUnInhibitMsg | src/InhibitInterface/SimpleDBusInhibitInterface.cpp:94-106 | releases the id and compacts the sender's list |
| SimpleDBusObject.SimpleDBusInterface.HandleNameLostMsg | src/InhibitInterface/SimpleDBusInhibitInterface.cpp:108-112 | releases the sender's list in order and clears it |
| SimpleDBusObject.SimpleDBusInterface.DoInhibit | src/InhibitInterface/SimpleDBusInhibitInterface.cpp:148-178 | refuses, asks the implementer, or takes the next cookie |
| ScreenSaverLease.LeasesExpire | src/InhibitInterface/GnomeScreenSaverInhibitInterface.cpp:73-86 | after poll no lease is left that was overdue when it began, nothing but leases overdue when it ended is dropped, and exactly the copies of the dropped ones are released |
| ScreenSaverLease.FiveMinutes | src/InhibitInterface/GnomeScreenSaverInhibitInterface.cpp:73-86 | a poll keeps an inhibit if and only if its cookie is not 0 or it was created less than 300 seconds before, with the subtraction taken modulo 2^64 |
| ScreenSaverLease.ActivityDoesNotRenew | src/InhibitInterface/GnomeScreenSaverInhibitInterface.cpp:45-71 | repeated activity keeps the old time of a lease that is still active |
| SimpleDBusMessages.ActivityInhibits | src/InhibitInterface/GnomeScreenSaverInhibitInterface.cpp:45-68 | activity without an earlier lease leaves an inhibit of exactly the interface's types, with the client's name and the time, and joins these types to the state |
| SimpleDBusMessages.LeaseInhibitsUntilReleased | src/InhibitInterface/GnomeScreenSaverInhibitInterface.cpp:45-68 | as long as the lease is in the table, through any run, the interface and the hub report its types |
| ScreenSaverLease.ActivityOutlivesPollIff | src/InhibitInterface/GnomeScreenSaverInhibitInterface.cpp:45-86 | right after activity the lease survives a poll if and only if there was none before or the old one was not overdue |
| ScreenSaverRuns.CrashReleaseIffRemembered | src/InhibitInterface/GnomeScreenSaverInhibitInterface.cpp:64-80 | after any run of messages, activity and polls the loss of a name releases an active inhibit if and only if it is of that client and, since its last registration, the client had no activity and none of its leases was collected by a poll |
| ScreenSaverRuns.ListedIffRemembered | src/InhibitInterface/GnomeScreenSaverInhibitInterface.cpp:64-80 | in every run the owner lists hold exactly the ids registered since the last activity of their sender and the last poll that collected a lease of it |
| ScreenSaverRuns.ActivityForgetsOwnerIff | src/InhibitInterface/GnomeScreenSaverInhibitInterface.cpp:64-68 | right after activity the loss of the name leaves nothing of the sender active if and only if the sender held nothing but its lease |
| ScreenSaverRuns.PollForgetsOwner | src/InhibitInterface/GnomeScreenSaverInhibitInterface.cpp:79-85 | after a poll that collects a lease of a client the loss of its name leaves its ordinary inhibits active, whenever they were registered |
| ScreenSaverLease.GnomeScreenSaverInterface.HandleSimActivityMsg | src/InhibitInterface/GnomeScreenSaverInhibitInterface.cpp:45-71 | registers the lease and replaces the sender's owner entries by it |
| ScreenSaverLease.GnomeScreenSaverInterface.Poll | src/InhibitInterface/GnomeScreenSaverInhibitInterface.cpp:73-86 | collects the overdue leases with one clock reading for each id, empties exactly their senders' owner lists and releases them one by one |
| UserCommands.CommandsAlternate | src/InhibitInterface/UserCommandsInhibitInterface.cpp:71-108 | the commands of each type, and of the untyped pair, run exactly on the edges of its level, inhibit and uninhibit in turn |
| UserCommands.BothConfigured | src/InhibitInterface/UserCommandsInhibitInterface.cpp:30-53 | with both commands configured each edge runs the configured command of its direction and the kinds alternate strictly |
| UserCommands.ChangeRuns | src/InhibitInterface/UserCommandsInhibitInterface.cpp:74-105 | a change of the state runs exactly the configured inhibit commands of the keys it turns on and the configured uninhibit commands of those it turns off |
| UserCommands.ChangeOrder | src/InhibitInterface/UserCommandsInhibitInterface.cpp:74-105 | they run for the screensaver, then for suspend, then for the untyped pair, at most one each |
| UserCommands.OnlyConfiguredCommands | src/InhibitInterface/UserCommandsInhibitInterface.cpp:76-103 | whatever states are notified, every command run is the one configured for its key and direction |
| UserCommands.CommandsInEveryRun | src/InhibitInterface/UserCommandsInhibitInterface.cpp:71-108 | in every run of the hub the commands alternate starting with inhibit, and their number is odd exactly while the type is inhibited |
| UserCommandsSharing.GrantKeepsContract | src/InhibitInterface/UserCommandsInhibitInterface.cpp:110-121 | every request is granted with exactly its types and texts under an own id that is not active, while fewer than 2^64 - 1 cookies were issued since the oldest active copy |
| UserCommandsSharing.UserCommandsShare | src/InhibitInterface/UserCommandsInhibitInterface.cpp:71-121 | after every run the interface is inhibited by exactly what applications hold anywhere, and the commands of each key, which alternate from inhibit on, were run an odd number of times exactly while some application holds an inhibit of that key |
| UserCommands.UserCommandsInterface.HandleInhibitStateChanged | src/InhibitInterface/UserCommandsInhibitInterface.cpp:71-108 | the commands run so far are those of the states notified so far |
| UserCommands.UserCommandsInterface.DoInhibit | src/InhibitInterface/UserCommandsInhibitInterface.cpp:110-121 | grants every request under the next cookie |
| GnomeFlags.FlagsRoundTrip | src/InhibitInterface/GnomeSessionManagerInhibitInterface.cpp:342-365 | our types survive the GNOME flag word, whose value is 0 for no type only, and the word keeps its two known flags |
| SessionManager.GnomeSessionManagerInterface.HandleInhibitMsg | src/InhibitInterface/GnomeSessionManagerInhibitInterface.cpp:52-75 | issues the cookie of the plain counter, registers the types of the flag word and lists the id under its sender, as the handler's description says |
| SessionManager.GnomeSessionManagerInterface.DoInhibit | src/InhibitInterface/GnomeSessionManagerInhibitInterface.cpp:288-319 | refuses, asks the implementer, or takes the next cookie of the plain counter |
| SessionManager.PathRoundTrip | src/InhibitInterface/GnomeSessionManagerInhibitInterface.cpp:367-377 | a printed path leads back to its cookie if and only if the cookie fits an int |
| SessionManager.DigitsBehindSlash | src/InhibitInterface/GnomeSessionManagerInhibitInterface.cpp:367-377 | the cookie of a path is the number made of the digits behind its last slash, whatever else is there, 0 without digits, and refused from 2^31 on |
| SessionManager.InhibitorPathToCookie | src/InhibitInterface/GnomeSessionManagerInhibitInterface.cpp:367-377 | the loop computes the number behind the last slash |
| SessionManager.BeforeIff | src/InhibitInterface/GnomeSessionManagerInhibitInterface.cpp:380-380 | keys are ordered by the first byte in which they differ |
| SessionManager.InhibitFromCookie | src/InhibitInterface/GnomeSessionManagerInhibitInterface.cpp:379-386 | finds the first active inhibit with the cookie in key order, or reports exactly that there is none |
| SessionManager.Resolve | src/InhibitInterface/GnomeSessionManagerInhibitInterface.cpp:97-131 | with distinct cookies a listed path resolves to the inhibit it was printed for, unless its cookie does not fit an int |
| MonitorPairing.MonitorPairs | src/InhibitInterface/DBusInhibitInterface.cpp:149-172 | in every stream exactly the calls whose serial was free when they came are handled, at most once each and by the first return that names their serial, and exactly those of them without a return wait |
| MonitorPairing.OnlyOthersAreHandled | src/InhibitInterface/DBusInhibitInterface.cpp:146-172 | in every stream only other clients' calls of watched methods are handled, on other clients' returns, by the method with the call's name: never the interface's own forwarded requests |
| MonitorPairing.OwnMessagesAreSkipped | src/InhibitInterface/DBusInhibitInterface.cpp:146-147 | a message from either of our names, and a call that is not watched, changes neither the table nor the handler runs |
| MonitorPairing.WatchedCallWaits | src/InhibitInterface/DBusInhibitInterface.cpp:149-159 | another client's call of a watched method waits from then on, if its serial was free |
| MonitorPairing.HoldsOpenIffNoReuse | src/InhibitInterface/DBusInhibitInterface.cpp:149-172 | the table holds exactly the open calls at every point if and only if no open serial is reused |
| MonitorPairing.AllEnteredIffNoReuse | src/InhibitInterface/DBusInhibitInterface.cpp:153-153 | every watched call gets a place in the table if and only if no serial is reused while its call is open |
| MonitorPairing.HandledIff | src/InhibitInterface/DBusInhibitInterface.cpp:149-172 | a watched call is ever handled if and only if its serial was free when it came and a later return names it; one that reuses the serial of a waiting call is never handled, whatever follows |
| MonitorPairing.OwnRepliesIff | src/InhibitInterface/DBusInhibitInterface.cpp:161-168 | every handler gets the return sent to its own caller if and only if no return to another client names the serial of a waiting call |
| MonitorPairing.DBusMonitor.Start | src/InhibitInterface/DBusInhibitInterface.cpp:141-191 | the message loop computes the pairing of the observed stream |
| Framing.EveryLineOnce | src/Fork/NewlineMessageFork.cpp:9-30 | however the stream is cut, the calls with a newline found are exactly its lines, once each and in order |
| Framing.CallsReadStream | src/Fork/NewlineMessageFork.cpp:9-30 | every call with a newline takes exactly the next line, and every other call carries a prefix of the next line |
| Framing.OtherCallsAreFragments | src/Fork/NewlineMessageFork.cpp:13-25 | exactly the chunks without a newline cause one further call each, with the unfinished line |
| Framing.OnlyLinesIff | include/Fork.hpp:36-37 | only whole lines are handed over if and only if every chunk contains a newline |
| Framing.DoRun | src/Fork/NewlineMessageFork.cpp:9-30 | the loop makes these calls, and ends early if and only if some chunk leaves more than one mebibyte behind the first line, after the first call of the first such chunk |
| SystemdPipe.PipeRoundTripIff | src/Fork/SystemdInhibitFork.cpp:24-91 | any requests and releases, however cut, are decoded as sent if and only if every unfinished line shown on the way is one the helper ignores |
| SystemdPipe.PipeRoundTrip | src/InhibitInterface/SystemdInhibitInterface.cpp:297-315 | chunks that each contain the end of a message are decoded into exactly the sequence that was sent |
| SystemdPipe.CutRequestIff | src/Fork/SystemdInhibitFork.cpp:24-91 | a request that takes two reads is heard as sent if and only if the cut falls behind its first tab and not behind its third |
| SystemdPipe.FullReadLocksTwice | src/Fork/Fork.cpp:68-76 | a request whose first full read of 1024 bytes ends within the last field makes the helper ask for a lock with a mode cut short, and then for the one that was meant |
| SystemdPipe.RequestDecodedIff | src/InhibitInterface/SystemdInhibitInterface.cpp:299-299 | a request, sent with its fields as they are, is decoded as sent if and only if neither field holds a tab or a newline |
| SystemdPipe.DecodeBody | src/Fork/SystemdInhibitFork.cpp:24-43 | tab counting, splitting and number parsing invert the encoding of every message |
| SystemdPipe.LineMeans | src/Fork/SystemdInhibitFork.cpp:24-91 | three tabs separate what, who, why and mode of a lock in this order, without tabs the line is a descriptor to close, and exactly the empty line and other numbers of tabs are ignored |
| SystemdPipe.LineOf | src/InhibitInterface/SystemdInhibitInterface.cpp:299-315 | a request is one line of type list, application, reason and mode, a release one line with the number of its descriptor |
| Decimal.ValueOfConcat | src/Fork/SystemdInhibitFork.cpp:89-89 | numerals are decimal with the most significant digit first |
| Decimal.NoLeadingZero | src/InhibitInterface/SystemdInhibitInterface.cpp:315-315 | printed numbers have no leading zero |
| Decimal.AtolOfText | src/Fork/SystemdInhibitFork.cpp:89-89 | a number is read behind white space and one sign up to the first other character, and is 0 without digits |
| SystemdPipe.HandleMsg | src/Fork/SystemdInhibitFork.cpp:24-91 | the counting and splitting loops compute the decoded action |
| SystemdPipe.TypeOfJoin | src/InhibitInterface/SystemdInhibitInterface.cpp:333-351 | the types of a joined list are the union of the types of its parts |
| SystemdPipe.TypeOfWord | src/InhibitInterface/SystemdInhibitInterface.cpp:333-351 | idle alone is the screensaver, sleep alone is suspend, and any other word is nothing |
| SystemdPipe.TypeListRoundTrip | src/InhibitInterface/SystemdInhibitInterface.cpp:333-371 | encoding and decoding a type adds the screensaver to suspend, which is idempotent, and is the identity exactly if it had it |
| SystemdPipe.SystemdType2Us | src/InhibitInterface/SystemdInhibitInterface.cpp:333-351 | the loops compute the types of a list |
| SystemdPipe.Us2SystemdType | src/InhibitInterface/SystemdInhibitInterface.cpp:353-371 | the loop joins the words of a type in order |
| KernelLocks.HelperAgrees | src/Fork/LinuxKernelInhibitFork.cpp:21-36 | both messages of a name arrive as one line; the helper unlocks the normalised name, and locks the same one exactly when it is not mistaken for a release |
| KernelLocks.HelperIgnores | src/Fork/LinuxKernelInhibitFork.cpp:21-36 | the helper ignores the empty message and no other |
| KernelLocks.EchoHasOurId | src/InhibitInterface/LinuxKernelInhibitInterface.cpp:170-177 | the lock the helper takes is read back under the very id stored as our own, whatever the length of the name |
| KernelLocks.ListingRoundTrip | src/InhibitInterface/LinuxKernelInhibitInterface.cpp:104-114 | the tokeniser reads back the names of the lock file, in whatever pieces it is read |
| KernelLocks.TokensAreListable | src/InhibitInterface/LinuxKernelInhibitInterface.cpp:104-114 | whatever a file without NULs holds, the tokeniser makes only names of it that can be listed |
| KernelLocks.TokensOfLine | src/InhibitInterface/LinuxKernelInhibitInterface.cpp:104-114 | on one line the tokens are the nonempty pieces between spaces, however many there are |
| KernelLocks.NewlineJoins | src/InhibitInterface/LinuxKernelInhibitInterface.cpp:109-112 | a newline ends no token: what directly follows it extends the last one, or is lost |
| KernelLocks.Tokenise | src/InhibitInterface/LinuxKernelInhibitInterface.cpp:104-114 | the nested read loops compute the tokens of the concatenated pieces |
| KernelLocks.HandleMsg | src/Fork/LinuxKernelInhibitFork.cpp:21-36 | removes the spaces and tells a lock from a release |
| KernelLocks.RequestsCollideIff | src/InhibitInterface/LinuxKernelInhibitInterface.cpp:163-172 | two requests get the same id if and only if their names agree without spaces up to the field length |
| KernelLocks.LockIdCanonical | src/InhibitInterface/LinuxKernelInhibitInterface.cpp:202-213 | making an id from the name inside an id gives the id back |
| KernelWatcher.AppearedIsDifference | src/InhibitInterface/LinuxKernelInhibitInterface.cpp:116-137 | a pass queues for registration exactly the ids of fitting names that are not tracked and the ids of all names that do not fit, ours excepted |
| KernelWatcher.QueuedLocks | src/InhibitInterface/LinuxKernelInhibitInterface.cpp:129-135 | every queued registration is an inhibit of exactly suspend by unknown-app, with a name of the file as its reason, the id of that name and the time of the pass |
| KernelWatcher.AppearedOfConcat | src/InhibitInterface/LinuxKernelInhibitInterface.cpp:117-137 | they are queued in the order of the file |
| KernelWatcher.NewLocksHoldSuspend | src/InhibitInterface/LinuxKernelInhibitInterface.cpp:67-137 | after a pass and a drain every id that became active is that of a lock of the file and holds exactly suspend |
| KernelWatcher.LocksInhibitSuspend | src/InhibitInterface/LinuxKernelInhibitInterface.cpp:62-157 | after any schedule every entry of the table is one from the start or an inhibit of exactly suspend |
| KernelWatcher.DisappearedIsDifference | src/InhibitInterface/LinuxKernelInhibitInterface.cpp:139-151 | a pass queues for release exactly the tracked ids that no fitting name of the file has, ours excepted |
| KernelWatcher.EchoSuppressed | src/InhibitInterface/LinuxKernelInhibitInterface.cpp:116-151 | a lock of our own is never queued, neither under the name the helper wrote nor under its id |
| KernelWatcher.OwnLockIsNotEchoed | src/InhibitInterface/LinuxKernelInhibitInterface.cpp:172-177 | from the request to the file and back: the message is the helper's next line, the helper takes one lock for it, the kernel can list it, the tokeniser reads its name back in any pieces, and a pass queues it neither way |
| KernelWatcher.OwnLockIsNeverQueued | src/InhibitInterface/LinuxKernelInhibitInterface.cpp:116-151 | while its id stays one of our own, no run of passes and drains over changing files, whatever else happens, ever queues the lock |
| KernelWatcher.DrainEffect | src/InhibitInterface/LinuxKernelInhibitInterface.cpp:67-76 | a drain adds the queued registrations and then takes away the queued releases |
| KernelWatcher.SoundFromStart | src/InhibitInterface/LinuxKernelInhibitInterface.cpp:62-157 | in every schedule from the start the table and both queues hold only ids of this interface in normal form, and no copy of one of its sources sits at the interface itself |
| KernelWatcher.ScheduleOnSets | src/InhibitInterface/LinuxKernelInhibitInterface.cpp:62-157 | every schedule of passes and drains, over a file with any names, does to table and queues what the turns on sets say |
| KernelWatcher.WatcherOutcome | src/InhibitInterface/LinuxKernelInhibitInterface.cpp:62-157 | the exact table after every interleaving over one file with any names, as a function of the number of rounds it completes |
| KernelWatcher.ParityOfRounds | src/InhibitInterface/LinuxKernelInhibitInterface.cpp:116-151 | after some rounds a lock with a fitting name is active exactly if the file has it, and any other lock of the file was turned over once for each round |
| KernelWatcher.WatcherConverges | src/InhibitInterface/LinuxKernelInhibitInterface.cpp:62-157 | from any table and stale queues, every interleaving with a drain, a later pass and a still later drain ends with exactly the locks of the file, our own aside, if every foreign name that does not fit shares its id with one that does |
| KernelWatcher.WatcherSettlesIff | src/InhibitInterface/LinuxKernelInhibitInterface.cpp:62-157 | a settled schedule and the same with one round more both end with the locks of the file if and only if every foreign name that does not fit shares its id with one that does |
| KernelWatcher.SettlesIff | src/InhibitInterface/LinuxKernelInhibitInterface.cpp:62-157 | a schedule completes a round if and only if it contains a drain, a later pass and a still later drain |
| KernelWatcher.LongNameToggles | src/InhibitInterface/LinuxKernelInhibitInterface.cpp:116-151 | in a file with any other names, a lock whose name is longer than the id field is turned over by an odd number of rounds and not by an even number |
| KernelObject.LinuxKernelInterface.WatcherPass | src/InhibitInterface/LinuxKernelInhibitInterface.cpp:100-154 | reads the file, compares and fills both queues as the pass of the state machine |
| KernelObject.LinuxKernelInterface.DrainQueues | src/InhibitInterface/LinuxKernelInhibitInterface.cpp:67-76 | registers, releases and clears as the drain of the state machine |
| KernelObject.LinuxKernelInterface.DoInhibit | src/InhibitInterface/LinuxKernelInhibitInterface.cpp:159-186 | refuses without suspend; otherwise remembers the id, sends the lock message and grants suspend |
| KernelObject.LinuxKernelInterface.DoUnInhibit | src/InhibitInterface/LinuxKernelInhibitInterface.cpp:188-196 | for an active id forgets the id of its name and sends the release message |

## Left out

* The libdbus wrapper, introspection, property replies, signals sent to clients and reconnecting: plumbing around foreign calls.
* Exceptions in a drain of the kernel interface, which end its coroutine, and handlers that throw on bad arguments. `Aborts` covers exceptions of targets while a client's inhibit is forwarded.
* doUnInhibit is taken never to throw: none of its implementations waits for an answer, and a broken pipe to a helper is not modelled.
* Moved-from vectors are empty after std::remove_if, as the usual standard libraries leave them.
* The Sxmo interface: its watcher repeats the kernel's with de-duplicated queues. The Cinnamon screen saver: its leases repeat GNOME's and also expire copies.
* The session manager's handlers of Uninhibit and of lost names as methods of an object: they repeat those of `SimpleDBusObject`, and their effect is that of `SimpleDBus.Handle`.
* systemd descriptors, fifos, release threads and the retry with a shorter type list.
* fork, setuid, signals, the environment, argument parsing, coroutines and data races on the tables.
* Pieces read from a pipe are free of NUL, and the end of file is not modelled. A full read of 1024 bytes has no terminator in the code; the byte behind the buffer is taken to be NUL.
* A lock file that puts a name directly behind a leading newline makes the tokeniser extend a token that is not there; `KernelObject.LinuxKernelInterface.WatcherPass` asks that this does not happen, and the kernel never writes it.
