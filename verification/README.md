# Verified model of the MT8163 Wi-Fi HAL registries, sensor shim, shell reader and alignment macros

The device tree for the BQ MT8163 boards carries four pieces of code with state, loops or arithmetic
of their own. This project models each of them in Dafny and proves what they keep over whole runs.

**Wi-Fi HAL registries** (`mtk/hal/libwifi-hal-mt66xx`). Two bounded tables live in plain arrays:
event handlers, guarded by `cb_lock`, and outstanding commands. `HalInfo.dfy` is the C code as a class
over arrays: five field writes to add an entry, a scan, a slot-by-slot `memmove` and a decrement to
remove one. Each method is proved against the list operations of `EventTable.dfy` and
`CommandTable.dfy`, where the properties of whole runs are proved. `LockedEventTable.dfy` is the same
event-table code for any number of threads in small steps (a lock operation, one field of a new slot,
one turn of a scan, one slot of a shift, one change of the count); every schedule is proved to be a
run of the whole operations of `EventTable`, and every schedule can be carried on until all calls have
returned; conversely every run of whole operations is what some schedule commits. `CallbackRefs.dfy`
adds to those steps the references a dispatch takes on the command it calls back into. `Lifetimes.dfy`
follows a command through both tables, from `wifi_register_cmd` and `start()` to `cancel()` and its last
`releaseRef`, and `Cleanup.dfy` has the loop of `wifi_cleanup` that cancels what is left.

**Sensor manager shim** (`libshims/camera/SensorManager.cpp`). `SensorManager.dfy` has the connection
state machine as functions over histories of deaths and queries, and as a class with a real pointer
list filled by a loop. The constructor's query holds no lock, so there a death notice may fall between
any two steps. `PackageInstances.dfy` has the per-package instance map.

**Shell reader** (`mtk/debug_tool/src/functions.c`). `ExecSh.dfy` reads chunks into a buffer that grows
by at most one doubling per chunk.

**Alignment macros** (`kernel-headers/jpeg_drv.h`). `JpegAlign.dfy` proves the mask forms equal to
division, by induction on the exponent.

`Lists.dfy` holds the list lemmas the two registries share, `WifiTypes.dfy` their common names.
`dafny verify dfyconfig.toml` checks the project.

## Where the code does something a reader may not expect

- `wifi_register_handler` accepts `NL80211_CMD_VENDOR`. The entry it writes has vendor id 0 and
  subcommand 0, `wifi_unregister_handler` refuses to remove it and
  `wifi_unregister_vendor_handler(0, 0)` removes it (`MisfiledExample`). Apart from that, each
  unregister function only takes entries of its own register function; `SeparationExact` gives the
  condition in both directions, and callers that never pass `NL80211_CMD_VENDOR` to
  `wifi_register_handler` meet it (`InterfacesStayApart`).
- An event that finds a handler whose function is NULL calls nothing, and no younger handler of the key
  is tried instead (`DispatchReachesRegistrant`).
- Registering and unregistering a key takes the *oldest* entry of the key. The table is restored when
  the key was absent, but also when everything from its oldest entry on already equals the new entry;
  `RegisterThenUnregister` has the equivalence, `RestoredWhilePresentExample` an input.
- `wifi_cancel_cmd` on an entry whose command pointer is NULL removes the entry and reports
  `WIFI_ERROR_INVALID_ARGS` (`NullCancelExample`). Counting only successful cancels therefore balances
  exactly when no cancel took a NULL command (`SuccessfulCancelsBalance`): callers that never register
  NULL have it over every run (`ObjectsOnlyBalance`), and books that balance now can be unbalanced by
  a further run that registers no NULL exactly when a NULL command is in the table under the id
  (`CancelsUnbalance`).
- The answer of `wifi_get_cmd(id)` is changed by a registration under the same id when the id had no
  entry (`GetStable` says exactly when it is stable, `GetChangedExample` is an input).
- Handlers are unregistered by key, and the *oldest* one of the key goes, whoever asked. A command that
  unregisters before it gives up its last reference can therefore leave its own handler behind and be
  deleted: `wifi_start_gscan` and `wifi_enable_full_scan_results` register the same key
  (`gscan.cpp:638`, `425`), and after `wifi_cancel_cmd` of the second one the next event uses a deleted
  command (`GscanExample`, `SharedKeyExample`). `OwnUnregisterExact` says exactly when an unregister
  removes the caller's own handler. A start that finds its request id in use goes wrong likewise when it
  fails, as it then unregisters the older command. `StartExactly` has the condition in both directions:
  the id and every key of the new command must be unused when it starts.
- The loop of `wifi_cleanup` changes nothing when the command in turn is NULL, and then spins, holding
  `cb_lock` (`SpinsExample`). As long as `cancel()` registers nothing, the loop ends whatever it removes
  if and only if no command in the table is NULL at the call (`EndsWhateverCancelRemoves`); likewise for
  commands that at most unregister themselves (`OwnEntryExact`). If `cancel()` registers, the loop can
  go on without NULL (`RegisteringForever`).
- The callback runs after the unlock, so it can start after the handler's unregister has returned
  (`LateCallbackRun`): exactly when the command has more references than its clients hold
  (`LateCallbackByCount`). The reference taken inside the lock keeps the command alive if some client
  holds one for as long as a handler names the command or is about to (`CallbacksHitLiveCommands`;
  `RuleIsNeeded` says when a command is misused otherwise). Where no key is shared, a client
  can tell from its own calls when it may give up its last reference (`RuleByOwnCalls`).
- The constructor of the sensor manager queries without `mLock` (`SensorManager.cpp:121-125`) after it
  has linked the death observer. A notice between reading the count and storing the list leaves a list
  that does not agree with `mSensors`, no server and `NO_ERROR` (`NoticeDuringConstruction`); one before
  the sensors are fetched ends in an access through NULL (`NoticeBeforeFetch`). `ConstructionExact` says
  for every set of notices which of these happens; the first locked query that answers `NO_ERROR`
  restores the agreement (`AnswersAgree`).
- A re-initialisation of the sensor manager over a live list drops the old block without freeing it.
  `BlocksAccountedFor` counts these; no block is ever freed twice.
- `TO_CEIL(x, a)` is 0 when `x + (a - 1)` wraps, and the least multiple exactly when it does not
  (`CeilIsLeastMultiple`, with `CeilWrapsExample`); so it is not monotone across a wrap, and
  `RoundingIsMonotone` has the exact condition.

## Assumptions

- `NL80211_CMD_VENDOR` is 103, as in the Linux `nl80211.h` (`nl80211_copy.h` is not part of this model);
  no proof uses the number. `NAME_NOT_FOUND` is -2 and the seven wake-up sensor types have the numbers
  of Android's `sensors.h`.
- The lock is abstract: a thread asking for a held lock does not move. Memory is sequentially
  consistent inside the lock.
- `cancel()` may do anything to the command table that the table's own functions can do, to any depth;
  `releaseRef()` does nothing to it.
- Binder calls, the retry attempts, the sensors the service lists, the address of the new sensor
  buffer and the outcome of `malloc` are arbitrary inputs of each query. `mLock` makes the locked calls
  and the death notices of a finished manager follow one another; during construction notices fall
  between the steps `Window` lists and not inside a step (a second one in the same place changes
  nothing). `sLock` makes calls on the instance map follow one another.
- `AnswersAgree` alone assumes that `getService` stores a server only together with `NO_ERROR`.
- `fread` returns at most 256 bytes.

## Model

| member | source | states |
|---|---|---|
| EventTable.ReachableTable | mtk/hal/libwifi-hal-mt66xx/common.cpp:61-71 | after every run the count is within the capacity and every entry whose command is not NL80211_CMD_VENDOR has vendor id 0 and subcommand 0 |
| EventTable.UnregisterIsRemoveFirstOfKey | mtk/hal/libwifi-hal-mt66xx/common.cpp:103-150 | after every run both unregister functions are one operation: remove the first entry with a given triple of command, vendor id and subcommand |
| EventTable.ProjectionStep | mtk/hal/libwifi-hal-mt66xx/common.cpp:52-150 | every operation appends to, or takes the head of, the projection onto its own key and leaves the projections of all other keys as they were |
| EventTable.KeyQueue | mtk/hal/libwifi-hal-mt66xx/common.cpp:52-150 | over every run, the accepted registrations of a key are the removed ones followed by the ones still in the table, in order: one FIFO queue per key |
| EventTable.DispatchIsOldest | mtk/hal/libwifi-hal-mt66xx/wifi_hal.cpp:513-547 | an event goes to the oldest live handler of its key, the one the next unregister of that key takes, and to none if there is none; the table is unchanged |
| EventTable.DispatchReachesRegistrant | mtk/hal/libwifi-hal-mt66xx/wifi_hal.cpp:517-543 | the function and argument found are those given by the oldest live registration under the key of the event; the function is called with the argument unless it is NULL, and nothing else is called |
| EventTable.RegistrationAnswer | mtk/hal/libwifi-hal-mt66xx/common.cpp:59-71 | a registration succeeds exactly when there is room, its entry is last and carries the key, function and argument given; a full table answers out of memory and is unchanged |
| EventTable.UnregistersCommute | mtk/hal/libwifi-hal-mt66xx/common.cpp:103-150 | removals under two different keys give the same table in either order |
| EventTable.RegisterThenUnregister | mtk/hal/libwifi-hal-mt66xx/common.cpp:52-127 | what registering and then unregistering a key leaves, when that is the old table (in both directions), and that a full table refuses and is unchanged |
| EventTable.RestoredWhilePresentExample | mtk/hal/libwifi-hal-mt66xx/common.cpp:52-127 | a concrete run in which registering and unregistering restores the table although the key was present |
| EventTable.LiveIsTable | mtk/hal/libwifi-hal-mt66xx/common.cpp:61-71 | the table is entry by entry what the live registrations wrote |
| EventTable.TakenRegistration | mtk/hal/libwifi-hal-mt66xx/common.cpp:107-124 | the plain unregister takes only plain registrations of its command; the vendor unregister takes a plain registration only if that was made with NL80211_CMD_VENDOR and it is asked for id 0, subcommand 0 |
| EventTable.SeparationExact | mtk/hal/libwifi-hal-mt66xx/common.cpp:129-150 | some further vendor unregisters end up taking a plain registration if and only if one made with NL80211_CMD_VENDOR is live |
| EventTable.LiveWasCalled | mtk/hal/libwifi-hal-mt66xx/common.cpp:61-71 | every live registration is one of the calls made |
| EventTable.InterfacesStayApart | mtk/hal/libwifi-hal-mt66xx/common.cpp:129-150 | in every run that never passes NL80211_CMD_VENDOR to the plain register, a vendor unregister takes only vendor registrations |
| EventTable.MisfiledExample | mtk/hal/libwifi-hal-mt66xx/common.cpp:107-110 | a concrete run in which only the vendor unregister removes a plain registration |
| EventTable.OwnUnregisterExact | mtk/hal/libwifi-hal-mt66xx/common.cpp:103-150 | unregistering the key of the only live registration of a command leaves none of its handlers if and only if no older live registration has that key |
| EventTable.SharedKeyExample | mtk/hal/libwifi-hal-mt66xx/gscan.cpp:451 | a concrete run in which a command unregisters the key it shares, an older handler goes, and an event finds the command |
| EventTable.OutstandingExact | mtk/hal/libwifi-hal-mt66xx/common.cpp:77-150 | the entries under a key are the registrations told success less the unregisters that had one to take |
| EventTable.HandledExactly | mtk/hal/libwifi-hal-mt66xx/common.cpp:77-150 | when registrations under one key all name one command, the table names a command if and only if registrations are outstanding under a key it was registered under |
| CommandTable.FifoPerId | mtk/hal/libwifi-hal-mt66xx/common.cpp:153-229 | over every run, re-entrant cancels included, commands taken by id or cancel followed by those present are a subsequence of the commands added under the id, and all of them exactly when no pointer removal hit the id |
| CommandTable.NthTakenIsNthAdded | mtk/hal/libwifi-hal-mt66xx/common.cpp:175-198 | without pointer hits the n-th removal under an id takes the n-th command registered under it |
| CommandTable.Conservation | mtk/hal/libwifi-hal-mt66xx/common.cpp:153-244 | every command added under an id is present or was taken by id, by cancel or by pointer, with its multiplicity |
| CommandTable.RegistrationExact | mtk/hal/libwifi-hal-mt66xx/common.cpp:153-173 | after any run a registration is the newest entry, under its id, if and only if there is room, and the count stays within the capacity |
| CommandTable.RemovalById | mtk/hal/libwifi-hal-mt66xx/common.cpp:175-214 | the removal takes the oldest entry with the id and answers with its command; without one it changes nothing and answers NULL |
| CommandTable.RemovalByPointer | mtk/hal/libwifi-hal-mt66xx/common.cpp:216-229 | the pointer overload takes the oldest entry that holds the pointer, NULL included, if there is one |
| CommandTable.CancelUnfolds | mtk/hal/libwifi-hal-mt66xx/common.cpp:231-244 | a cancel that takes an object removes its entry, calls cancel() on it, lets that do all it does to the table, and then releases it |
| CommandTable.CancelReplyExact | mtk/hal/libwifi-hal-mt66xx/common.cpp:231-244 | wifi_cancel_cmd answers success if and only if it took an object of the id and called its cancel(), and invalid arguments in every other case |
| CommandTable.SuccessfulCancelsBalance | mtk/hal/libwifi-hal-mt66xx/common.cpp:231-244 | counting only cancels that answered success, nested ones included, the books of an id balance if and only if no cancel of the id took a NULL command |
| CommandTable.ObjectsOnlyBalance | mtk/hal/libwifi-hal-mt66xx/common.cpp:231-244 | callers that never register NULL, inside cancel() or outside, get that balance over every run |
| CommandTable.CancelsUnbalance | mtk/hal/libwifi-hal-mt66xx/common.cpp:231-244 | after any run whose books balance, some further run that registers no NULL, whatever its cancel() calls do, unbalances them if and only if a NULL command is in the table under the id |
| CommandTable.NullCancelExample | mtk/hal/libwifi-hal-mt66xx/common.cpp:235-243 | a concrete cancel that removes an entry and reports invalid arguments |
| CommandTable.CancelsAreBracketed | mtk/hal/libwifi-hal-mt66xx/common.cpp:231-244 | over every run each cancel that took an object calls cancel() on it at once and releaseRef() exactly once, after all that cancel() did, properly nested, and nothing else calls them |
| CommandTable.GetPredictsRemoval | mtk/hal/libwifi-hal-mt66xx/common.cpp:175-214 | wifi_get_cmd answers with the command the next by-id removal or cancel takes |
| CommandTable.PointerRemoval | mtk/hal/libwifi-hal-mt66xx/common.cpp:216-229 | the pointer overload takes one entry out of the projection of one id, keeping order, and leaves all other projections equal |
| CommandTable.GetStable | mtk/hal/libwifi-hal-mt66xx/common.cpp:200-214 | when the answer of wifi_get_cmd survives by-id work on other ids and any registrations, in both directions |
| CommandTable.GetChangedExample | mtk/hal/libwifi-hal-mt66xx/common.cpp:200-214 | a concrete run in which a registration changes the answer for an id without an entry |
| CommandTable.BoundedDoAll | mtk/hal/libwifi-hal-mt66xx/common.cpp:161-166 | the command count never passes the capacity |
| HalInfoModel.MoveTailDown | mtk/hal/libwifi-hal-mt66xx/common.cpp:119-120 | the shift drops exactly slot i, keeps the order of the rest, and stays inside the slots in use, the last entry included |
| HalInfoModel.HalInfo.constructor | mtk/hal/libwifi-hal-mt66xx/wifi_hal.cpp:239-252 | both tables start empty with 64 slots |
| HalInfoModel.HalInfo.WifiRegisterHandler | mtk/hal/libwifi-hal-mt66xx/common.cpp:52-75 | table and result are those of the list operation; the lock is free again |
| HalInfoModel.HalInfo.WifiRegisterVendorHandler | mtk/hal/libwifi-hal-mt66xx/common.cpp:77-101 | table and result are those of the list operation; the lock is free again |
| HalInfoModel.HalInfo.WifiUnregisterHandler | mtk/hal/libwifi-hal-mt66xx/common.cpp:103-127 | the array prefix is the old list without its first entry of the command; the lock is free again |
| HalInfoModel.HalInfo.WifiUnregisterVendorHandler | mtk/hal/libwifi-hal-mt66xx/common.cpp:129-150 | the array prefix is the old list without its first entry of the vendor key; the lock is free again |
| HalInfoModel.HalInfo.FindHandler | mtk/hal/libwifi-hal-mt66xx/wifi_hal.cpp:513-547 | the scan answers with the first matching handler and changes nothing |
| HalInfoModel.HalInfo.WifiRegisterCmd | mtk/hal/libwifi-hal-mt66xx/common.cpp:153-173 | table, log and result are those of the list operation |
| HalInfoModel.HalInfo.WifiUnregisterCmd | mtk/hal/libwifi-hal-mt66xx/common.cpp:175-198 | removes and returns the oldest command of the id, or NULL |
| HalInfoModel.HalInfo.WifiGetCmd | mtk/hal/libwifi-hal-mt66xx/common.cpp:200-214 | returns the oldest command of the id, or NULL |
| HalInfoModel.HalInfo.WifiUnregisterCmdPtr | mtk/hal/libwifi-hal-mt66xx/common.cpp:216-229 | removes the first entry holding the pointer |
| HalInfoModel.HalInfo.WifiCancelCmd | mtk/hal/libwifi-hal-mt66xx/common.cpp:231-244 | table, log and answer for any table calls cancel() makes before it returns; CancelReplyExact says which answer that is |
| HalInfoModel.HalInfo.WifiCleanup | mtk/hal/libwifi-hal-mt66xx/wifi_hal.cpp:374-400 | the cancelling loop, on the inputs on which it ends, leaves table, log and count of failures as that many turns do (TurnExact), and as few commands as failures |
| LockedEventTable.Linearizable | mtk/hal/libwifi-hal-mt66xx/common.cpp:52-150 | for any number of threads and any schedule of single steps, the calls answered what they answer one at a time in lock-release order, the memory holds their table whenever the lock is free, no access leaves the allocation, and each commit lies inside its call |
| LockedEventTable.ReachableInv | mtk/hal/libwifi-hal-mt66xx/common.cpp:52-150 | the invariant the progress results start from holds in every reachable state: one thread at most inside, and the memory is the list of whole operations up to the holder's partial write, scan or shift |
| LockedEventTable.ConcurrentKeyQueue | mtk/hal/libwifi-hal-mt66xx/common.cpp:52-150 | the FIFO queue per key holds of the shared array under every schedule |
| LockedEventTable.TakesEffectInside | mtk/hal/libwifi-hal-mt66xx/common.cpp:57-74 | each call takes effect once, between invocation and return, with the answer it returns |
| LockedEventTable.RealTimeOrder | mtk/hal/libwifi-hal-mt66xx/common.cpp:57-74 | a call that returned before another was invoked precedes it in the order of commits |
| LockedEventTable.OthersKeepOut | mtk/hal/libwifi-hal-mt66xx/common.cpp:112-126 | while a thread holds the lock, no run of other threads changes the slots, the count or its place, so nobody else sees or disturbs a half-done shift |
| LockedEventTable.HoldIsBounded | mtk/hal/libwifi-hal-mt66xx/common.cpp:57-73 | the holder never waits: under any interference each of its turns leaves strictly less to do, and after 9 + 2 * capacity turns it has let go of the lock |
| LockedEventTable.EarlyReturnNeverLocks | mtk/hal/libwifi-hal-mt66xx/common.cpp:107-110 | unregistering NL80211_CMD_VENDOR returns without the lock, even while it is held |
| LockedEventTable.NoDeadlock | mtk/hal/libwifi-hal-mt66xx/common.cpp:52-150 | if some call is unfinished, some thread can move |
| LockedEventTable.ProductiveIsBounded | mtk/hal/libwifi-hal-mt66xx/common.cpp:52-150 | without new calls no schedule can go on for more steps than the work left |
| LockedEventTable.EveryRunCanFinish | mtk/hal/libwifi-hal-mt66xx/common.cpp:52-150 | after any schedule all threads can return from their calls within a number of steps fixed by the thread count and the capacity |
| LockedEventTable.EveryRunHappens | mtk/hal/libwifi-hal-mt66xx/common.cpp:52-150 | the converse of Linearizable: every sequence of whole operations, with its answers and its table, is what some schedule of single steps commits |
| CallbackRefs.CallbacksHitLiveCommands | mtk/hal/libwifi-hal-mt66xx/wifi_hal.cpp:527-540 | for any number of threads and any run in which a client keeps the last reference while the table names the command or a registration of it is under way: no callback or reference goes to a deleted command, a command in flight is alive, and a command is deleted exactly when no client holds it and no dispatch is in flight to it |
| CallbackRefs.LifeExact | mtk/hal/libwifi-hal-mt66xx/wifi_hal.cpp:527-540 | over every run, read off the actions: the reference count of a command is what its clients hold by their creations, shares and drops plus the dispatches in flight to it, and it is deleted if and only if both are none |
| CallbackRefs.DroppedExample | mtk/hal/libwifi-hal-mt66xx/cpp_bindings.h:253-265 | a command created, shared and dropped twice is alive after the first drop and deleted after the second |
| CallbackRefs.RuleIsNeeded | mtk/hal/libwifi-hal-mt66xx/cpp_bindings.h:258-265 | when clients give up references while a dispatch is about to find the command, that dispatch misuses it if and only if those were all of theirs and no other dispatch is in flight to it |
| CallbackRefs.RuleByOwnCalls | mtk/hal/libwifi-hal-mt66xx/wifi_hal.cpp:527-540 | for clients that share no key, giving up the last reference keeps the rule if and only if the client has no registration under way and none outstanding under a key it registered |
| CallbackRefs.NoNewCallbacks | mtk/hal/libwifi-hal-mt66xx/wifi_hal.cpp:527-540 | once a command is neither in the table nor being registered, no thread comes to carry it that did not already |
| CallbackRefs.LateCallbackExact | mtk/hal/libwifi-hal-mt66xx/wifi_hal.cpp:532-540 | after a command is unregistered everywhere, and while nobody registers it again, a callback into it can still happen if and only if a dispatch had already found it |
| CallbackRefs.LateCallbackByCount | mtk/hal/libwifi-hal-mt66xx/wifi_hal.cpp:532-540 | the same in what can be looked up: if and only if the command has more references than its clients hold |
| CallbackRefs.LateCallbackRun | mtk/hal/libwifi-hal-mt66xx/wifi_hal.cpp:527-540 | for every handler, a run from the start in which its unregister has returned and the callback is still to come |
| Lifetimes.CarefulRunsAreHealthy | mtk/hal/libwifi-hal-mt66xx/gscan.cpp:707-771 | if every start finds its id and its topics unused and every cancel() undoes what start() did, no run of starts, failing starts, cancels, throwaway cancels and events uses a deleted command, and no entry of either table ever names one |
| Lifetimes.StartExactly | mtk/hal/libwifi-hal-mt66xx/gscan.cpp:719-731 | with room in both tables, a start keeps that, however it ends and whatever careful run follows, if and only if its id and its topics were unused |
| Lifetimes.StartEffect | mtk/hal/libwifi-hal-mt66xx/gscan.cpp:719-731 | a clear start that runs is in the command table under its id, with one reference and its handlers behind the others of their topics; one that fails is deleted and leaves both tables as they were |
| Lifetimes.CancelEffect | mtk/hal/libwifi-hal-mt66xx/common.cpp:231-244 | after a careful run, a cancel takes the command of the id out of the table, deletes it, takes what it undoes off the front of each queue, and changes nothing else; without such a command it does nothing |
| Lifetimes.EventEffect | mtk/hal/libwifi-hal-mt66xx/rtt.cpp:608-619 | after a careful run, the last result of a command ends it just as a cancel does; any other event leaves tables and counts as they were |
| Lifetimes.SweepEffect | mtk/hal/libwifi-hal-mt66xx/gscan.cpp:738-748 | the cancel() of a throwaway command takes the oldest handlers of its topics and touches no command |
| Lifetimes.TopicInUse | mtk/hal/libwifi-hal-mt66xx/gscan.cpp:640-647 | with a topic in use, a cancel of the new command, and a start that fails after registering, leave an entry that names a deleted command |
| Lifetimes.SharedIdMisused | mtk/hal/libwifi-hal-mt66xx/gscan.cpp:725-729 | where one older command has the id, a start that fails unregisters that one, and cancelling the id then uses the deleted command |
| Lifetimes.SharedIdCompletion | mtk/hal/libwifi-hal-mt66xx/rtt.cpp:616-618 | a last result releases whatever holds the id of its command, a deleted one included |
| Lifetimes.SharedTopicMisused | mtk/hal/libwifi-hal-mt66xx/gscan.cpp:447-453 | where one older handler has a topic of the new command, cancelling the new command and then an event of the topic use a deleted command |
| Lifetimes.GscanExample | mtk/hal/libwifi-hal-mt66xx/gscan.cpp:636-638 | a gscan, full scan results under another id, the cancel of the second and an event: a deleted command is used |
| Cleanup.EndsWhateverCancelRemoves | mtk/hal/libwifi-hal-mt66xx/wifi_hal.cpp:384-400 | the loop of wifi_cleanup ends for every behaviour of cancel() that registers nothing if and only if no command in the table is NULL at the call |
| Cleanup.TurnExact | mtk/hal/libwifi-hal-mt66xx/wifi_hal.cpp:384-400 | each turn with an object in turn calls its cancel(), lets that do what it does, properly nested, releases the same object, and moves on exactly if the number of commands is what it was; any other turn does nothing |
| Cleanup.ReleasedOnceEach | mtk/hal/libwifi-hal-mt66xx/wifi_hal.cpp:391-398 | however many turns are made, releaseRef() is called on each command exactly as often as cancel() |
| Cleanup.SpinsExample | mtk/hal/libwifi-hal-mt66xx/wifi_hal.cpp:384-400 | a concrete table on which the loop stays at a NULL command for ever |
| Cleanup.OwnEntryExact | mtk/hal/libwifi-hal-mt66xx/wifi_hal.cpp:384-400 | when each cancel() at most unregisters its own entry, the loop ends if and only if no command in the table is NULL |
| Cleanup.RegisteringForever | mtk/hal/libwifi-hal-mt66xx/wifi_hal.cpp:384-400 | a concrete table and cancel() that registers for which the loop never ends and is never stuck |
| SensorManagerModel.ConstructionExact | libshims/camera/SensorManager.cpp:121-125 | for every set of death notices during the unlocked query of the constructor: when it finishes and how it ends otherwise, which server and which sensors it has, and when entry i of its list is the address of sensor i and the lengths agree |
| SensorManagerModel.NoticeDuringConstruction | libshims/camera/SensorManager.cpp:185-193 | whenever the service lists a sensor, one notice between the count and the allocation makes the constructor answer NO_ERROR with a list that does not agree and without a server |
| SensorManagerModel.NoticeBeforeFetch | libshims/camera/SensorManager.cpp:183-185 | a notice between linking the observer and asking for the sensors ends in an access through NULL |
| SensorManagerModel.HistoryExact | libshims/camera/SensorManager.cpp:131-197 | from any safe state, over every history of deaths and locked queries: no block is freed twice, every access is in bounds, NO_ERROR means connected, and the list agrees exactly when it did at the start or a death or re-initialisation came since |
| SensorManagerModel.ManagerHistory | libshims/camera/SensorManager.cpp:121-197 | the same for every manager from its constructor on, whatever notices that met |
| SensorManagerModel.AnswersAgree | libshims/camera/SensorManager.cpp:121-197 | for a getService that stores a server only with NO_ERROR: after every constructor and every event, a manager with a server has a list that agrees, so every locked query that answers NO_ERROR restores the agreement |
| SensorManagerModel.AssertStateKeeps | libshims/camera/SensorManager.cpp:142-197 | one query, with notices in any windows, keeps the heap safe and every access in bounds; a failing one changes nothing but the server pointer; a locked one that answers NO_ERROR is connected, and agrees exactly when it did before or re-initialised |
| SensorManagerModel.ConnectAnswers | libshims/camera/SensorManager.cpp:158-168 | the retry loop settles on the first of 60 attempts that is not NAME_NOT_FOUND, or on what the last one stored |
| SensorManagerModel.StableWhileAlive | libshims/camera/SensorManager.cpp:146-154 | while pings succeed, list, sensors and server stay what they are |
| SensorManagerModel.ListGoesStaleExactly | libshims/camera/SensorManager.cpp:131-197 | a list handed out is the current one if and only if no death and no re-initialisation came since, and a stale one never comes back |
| SensorManagerModel.FailedPingRefreshes | libshims/camera/SensorManager.cpp:149-153 | after any history of a connected manager, a query that answers NO_ERROR keeps the list if and only if its ping did; after any other ping the server is the one its attempts settled on and the sensors and a new list are what that one lists |
| SensorManagerModel.DeathForcesRefresh | libshims/camera/SensorManager.cpp:131-137 | after a death notice the next NO_ERROR comes with exactly the sensors the service listed in that query, and a new list of their addresses |
| SensorManagerModel.BlocksAccountedFor | libshims/camera/SensorManager.cpp:185-189 | from every constructor and over every history, each list block is freed, in use, or was replaced by a re-initialisation over a live list |
| SensorManagerModel.SensorManager.constructor | libshims/camera/SensorManager.cpp:121-125 | the new manager is in the state the constructor's query leaves, for any notices |
| SensorManagerModel.SensorManager.AssertStateLocked | libshims/camera/SensorManager.cpp:142-197 | the method, its retry loop and its list-filling loop compute the specified state and status, or end the process where that does, for any notices |
| SensorManagerModel.SensorManager.ConnectToService | libshims/camera/SensorManager.cpp:158-168 | the retry loop settles on or fails with what the specified connection does |
| SensorManagerModel.SensorManager.InitialiseList | libshims/camera/SensorManager.cpp:180-195 | fetches, counts, allocates and fills with a notice in each window named, or ends the process on a NULL server or list |
| SensorManagerModel.SensorManager.SensorManagerDied | libshims/camera/SensorManager.cpp:131-137 | clears server, list and sensors, freeing only a live block |
| SensorManagerModel.SensorManager.FillList | libshims/camera/SensorManager.cpp:191-193 | the filling loop on the real array, with a notice before any entry, ends as the specified filling does |
| SensorManagerModel.SensorManager.GetSensorList | libshims/camera/SensorManager.cpp:202-212 | a negative status is passed on; otherwise the list and the number of sensors, which is the length of the list when the two agree, and every entry counted points to its sensor |
| SensorManagerModel.SensorManager.GetDefaultSensor | libshims/camera/SensorManager.cpp:227-252 | the lowest-index sensor of the type whose wake-up flag is set exactly for the seven wake-up types, every access in bounds and into the live buffer |
| SensorManagerModel.SensorManager.CreateEventQueue | libshims/camera/SensorManager.cpp:254-270 | asks the server only after NO_ERROR, with a server at hand, and returns its connection |
| PackageInstances.BindingsNeverChange | libshims/camera/SensorManager.cpp:110-115 | over every run no call changes or removes a binding |
| PackageInstances.OneInstancePerName | libshims/camera/SensorManager.cpp:72-119 | calls with the same name return the same instance whatever the lookups answer; different non-empty names never share one, and each instance carries its name |
| PackageInstances.NamedBinding | libshims/camera/SensorManager.cpp:72-119 | a call with a package name returns the instance bound to it, or binds that name, and no other, to a new instance of that name |
| PackageInstances.OnlyEmptyNameAliases | libshims/camera/SensorManager.cpp:107-115 | two names bound to one instance include the empty name |
| PackageInstances.EmptyNameSharing | libshims/camera/SensorManager.cpp:89-115 | the first call with the empty name makes an instance named after the first package the lookup lists, if any, and shares it with that package if and only if that had none |
| PackageInstances.Registry.GetInstanceForPackage | libshims/camera/SensorManager.cpp:72-119 | the method makes one step of the map relation with a freshly allocated instance |
| ExecSh.GrowthBounds | mtk/debug_tool/src/functions.c:32-39 | for all chunk sizes up to the initial capacity: length below capacity, capacity at most twice the length once grown, and bytes carried over by realloc equal to the capacity gained |
| ExecSh.OneDoublingSuffices | mtk/debug_tool/src/functions.c:26-36 | one doubling per chunk always makes room if and only if the chunk size limit is at most the initial capacity |
| ExecSh.NoWrap | mtk/debug_tool/src/functions.c:33-38 | no sum or doubling exceeds a size_t that holds twice the output |
| ExecSh.Collect | mtk/debug_tool/src/functions.c:32-39 | the buffer holds the concatenation of all chunks in order with room to spare, and its capacity and copying obey the bounds |
| ExecSh.ExecSh | mtk/debug_tool/src/functions.c:23-43 | NULL exactly when the command could not be started, otherwise the whole output |
| JpegAlign.AndSplits | kernel-headers/jpeg_drv.h:9-10 | the bits of x under a mask and under its complement add up to x |
| JpegAlign.LowMaskIsMod | kernel-headers/jpeg_drv.h:10 | masking with a power of two minus one is the remainder |
| JpegAlign.MasksAreArithmetic | kernel-headers/jpeg_drv.h:9-10 | for a power of two, TO_MASK(x, a-1) is x mod a, TO_FLOOR(x, a) is x - x mod a, and they add up to x |
| JpegAlign.FloorIsGreatestMultiple | kernel-headers/jpeg_drv.h:9 | TO_FLOOR is the greatest multiple not above x |
| JpegAlign.CeilIsLeastMultiple | kernel-headers/jpeg_drv.h:8 | TO_CEIL is the least multiple not below x if and only if x + (a-1) does not wrap at 32 bits |
| JpegAlign.RoundingIsIdempotent | kernel-headers/jpeg_drv.h:8-9 | rounding twice is rounding once, and multiples are fixed, for all words |
| JpegAlign.RoundingIsMonotone | kernel-headers/jpeg_drv.h:8-9 | TO_FLOOR is monotone; TO_CEIL keeps x <= y if and only if the larger operand does not wrap, the smaller is 0, or both wrap |
| JpegAlign.CeilWrapsExample | kernel-headers/jpeg_drv.h:8 | two concrete words on which TO_CEIL is not monotone |
| JpegAlign.CeilAndFloor | kernel-headers/jpeg_drv.h:8-9 | the two roundings differ by a unless x is a multiple |
| JpegAlign.DunumIsCyclic | kernel-headers/jpeg_drv.h:12 | DUNUM_MAPPING is (value + 3) mod 4, with 0 wrapping to 3 |

## Left out

- 32-bit widths of the table fields: the code only copies and compares them, so they are unbounded here; the conversion of an event's subcommand attribute to `int` is not modelled.
- `memmove` below the slot: the step model moves one slot per step, not one byte or word.
- Lifetimes.CarefulRunsAreHealthy: does not interleave API calls step by step; the counts under concurrent dispatch are in `CallbackRefs`.
- Commands whose `cancel()` can return before it unregisters (`wifi_logger.cpp:459-479`), or that are never cancelled: not among the clients of `Lifetimes`.
- HalInfoModel.HalInfo.WifiCleanup: does not cover the inputs on which the loop never ends, which a method cannot return from; `Cleanup` has them. Its `during` is fixed per turn, not chosen by the command cancelled.
- The rest of `wifi_cleanup` (the control sockets and the loops that log), the failure paths of `wifi_initialize`, the event loop, netlink parsing and the callbacks themselves.
- Death notices inside one step of the constructor's query, such as between reading a pointer and following it.
- Concurrent use of the command table: its functions take no lock, so it is modelled as sequential.
- Fairness of `pthread_mutex_lock`: any call can finish, but a particular waiter is not promised the lock.
- `getDynamicSensorList` and `isDataInjectionEnabled`: the same query followed by one forwarded call.
- The `MTK_HARDWARE` block of `SensorManager.cpp` and the destructor: build-variant glue, and one free at the end of an object's life.
- Leak-freedom of `mSensorList`: re-initialisation drops the old block; only counted.
- ExecSh.Collect: does not model failing allocations or `size_t` wrap-around; `NoWrap` bounds the latter.
- The macros for operands of other types: signed operands and widths other than 32 bits.
- The other kernel headers, the remaining shims, `debug_tool.c`, the rest of `functions.c` and the FM configuration: constants, forwarders and dispatch.
