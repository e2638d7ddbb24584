# A model of unbox's decision logic

unbox is a Wayland compositor whose decisions are taken by small state machines on one thread. This
project models those machines in Dafny and proves what they keep over every run. `dafny verify
dfyconfig.toml` checks all of it.

Each machine is modelled twice. A module of values holds a step function and the theorems: what every
run keeps, what one call undoes, how two machines fit together. A class beside it (`*_class.dfy`, or
in the same file) has the fields and loops of the source; each method ensures that it does what the
step function says, keeps the object's `Valid()`, and what that means for its caller. The environment
is an arbitrary sequence of events; an assumption about it is a named predicate such as `Possible`,
`Can`, `Matched` or `Real`.

| files | what they model |
|---|---|
| hooks, hooks_reference, hooks_refinement, hooks_dispatch, hooks_isolation, hooks_filter, hooks_class | the typed bus: events and filters whose callbacks re-enter, with tombstones, depth counter and deferred compaction, against a bus that removes at once |
| activation, activation_class | installing extensions and the activation order |
| turns, frames, frames_class, watcher | snapshot-and-look-up-again firing, once for any registry; the frame driver with its output protocol; file watches |
| host_disable | the bus, the frame requests and the file watches of a host together: what disabling an extension takes |
| registry | the surface registry and its move-only handles |
| routing, routing_streams, routing_class | the implicit pointer grab, touch capture and surface destruction in the ui substrate |
| grab, grab_class, input_chain | the interactive grab of a window, its target, and the two machines in a row |
| focus_ring, windows, windows_class | the focus ring, and the shell, the dock and the ring keeping the same windows |
| combo, matcher | key combo strings and the key matcher |
| gesture, gesture_class | the dock's swipe and drag |
| arrangement | exclusive zones of layer surfaces |
| options, sequences | an optional value; sequences without repeats |

## Where the code and its comments differ

The model follows the code. Where a promise fails there is a lemma with a concrete run and one that
says exactly when it fails.

- `hooks.hpp:41` says kernel-owned subscriptions are never disabled; a throw from one purges the
  kernel's entries on that hook (`hooks.hpp:220-226`). `SilentUntilItSubscribes`; `ThrowRemovesExactly`.
- `hooks.hpp:13-18` says a throw disables an extension and drops all its subscriptions; those it makes
  later, from a frame callback say, do fire, because `subscribe` does not ask (`host.hpp:307-316`).
  `SilentUntilItSubscribes`; `LiveExactly`.
- `host.hpp:209` and `host.hpp:239` put a throw from a file watch or a frame callback behind the same
  boundary as one from a hook; but `disable` purges hooks only (`server.cpp:167-181`), and the
  extension's frame requests and file watches live on. `DisabledIsStillCalled`; `DisableReleasesExactly`,
  `DrainDisablesExactly`.
- `host.hpp:243` says a frame request without an output is inactive; it is active
  (`server_impl.hpp:299-310`), and it is not scheduled when the first output comes.
  `EarlyRequestIsNotScheduled`; `UnscheduledExactly`.
- The dt base is reset when a drain ends with no request; when the last request is dropped at another
  time it is kept (`server.cpp:568-578`). `IdleGapLeaksIntoDt`; `StaleBaseExactly`.
- `file_watcher.cpp:75-77` says arming a directory that is watched already is idempotent; under another
  spelling of the directory it makes the watches of the earlier spelling deaf. `SecondSpellingDeafens`;
  `AllAreHeardExactly`.
- A button grab outlives the destruction of its surface so that its tail stays consumed
  (`ui_substrate.cpp:1137-1143`), and a further press in it is adopted by another surface.
  `AdoptionUnbalances`; `StepAccounts`.
- A touch point captured by a surface that is destroyed reaches the bus on its next events
  (`ui_substrate.cpp:1147-1149`), and its lift can be counted against another point.
  `LostPointMiscounts`; `NextKeepsCounted`, `LostByDestruction`, `BusSeesMatched`.
- `policy.hpp:26-33` of ext-xdg-shell says a grab is active only with its input held. A request made
  when the latest finger has lifted and an older one has not starts a grab that no finger holds.
  `StaleRequestStrandsTheGrab`; `FeedKeepsOriginHeld`.
- Buttons pressed or released during a grab are not always forwarded to the seat in pairs
  (`extension.cpp:489-511` of ext-xdg-shell). `SomeButtonsAreNotForwarded`; `SeatLevel`.
- A window can get two slots in the dock, because the ring can focus a window that is in the dock.
  `AltTabFocusesMinimized` and `TwoSlotsForOneWindow`; `SlotsStayDistinct`.
- The window the dock has just hidden can stay the focused one, when a window mapped while there was
  no keyboard. `KeyboardComesLate` and `MinimizedStaysFocused`; `MinimizeHandsOnFocus`.
- `arrangement.hpp:126-129` says the order within a pass is irrelevant to the area; with a negative
  reservation it can matter. `NegativeReservationBreaksIt`; `OrderIsImmaterial`.
- `arrangement.hpp:107-110` speaks of requiring a strip for an explicit edge; any anchored explicit
  edge is taken. `ExplicitEdgeNeedsNoStrip`; `EdgeRule`.

## Model

| member | source | states |
|---|---|---|
| HooksRefinement.BusRefinesReference | packages/kernel/include/unbox/kernel/hooks.hpp:161-233 | from any valid state and for any sequence of calls, callbacks included, the tombstoning bus produces the outputs of a bus that removes subscriptions at once |
| HooksRefinement.StepRefines | packages/kernel/include/unbox/kernel/hooks.hpp:173-232 | one step of the bus (emit, apply, subscribe, unsubscribe, purge, disable, return or throw of a callback) is the same step of the reference bus under the abstraction, and keeps the invariant |
| HooksRefinement.StepKeepsValid | packages/kernel/include/unbox/kernel/hooks.hpp:228-238 | after every step a hook's depth counts its dispatches in flight, an idle hook holds no dead entry, every dispatch stands at an entry inside its snapshot |
| HooksRefinement.SlotsStayPut | packages/kernel/include/unbox/kernel/hooks.hpp:228-233 | while a dispatch is in flight on a hook no entry changes place or subscription, entries are only appended, a dead one stays dead |
| HooksRefinement.NoTombstoneAtRest | packages/kernel/include/unbox/kernel/hooks.hpp:186-189 | with no dispatch in flight every entry of every hook is a live subscription, in order |
| HooksRefinement.StepKeepsOrdered | packages/kernel/include/unbox/kernel/hooks.hpp:161-165 | tokens are issued in increasing order and entries stay sorted by them |
| HooksRefinement.RemoveOnRefines | packages/kernel/include/unbox/kernel/hooks.hpp:191-218 | purging or unsubscribing on a set of hooks strikes the same subscriptions from the reference lists and from every dispatch still to reach them |
| HooksRefinement.ThrowRefines | packages/kernel/include/unbox/kernel/hooks.hpp:181-188 | a throwing callback costs its owner the same subscriptions on both buses, and the dispatch goes on with the next one |
| HooksRefinement.EmitRefines | packages/kernel/include/unbox/kernel/hooks.hpp:173-180 | a dispatch takes the subscriptions live at its start, in subscription order |
| HooksDispatch.DispatchCallsExactly | packages/kernel/include/unbox/kernel/hooks.hpp:173-189 | one dispatch, from any moment and whatever its callbacks do, calls in order of subscription and each once subscriptions that were live when it began, and when it ends none of those is still live that it has not called |
| HooksDispatch.CalledInOrder | packages/kernel/include/unbox/kernel/hooks.hpp:173-189 | at any time the calls a dispatch has still to make are among what it has pending, with increasing tokens |
| HooksIsolation.RemovedStaysSilent | packages/kernel/include/unbox/kernel/hooks.hpp:210-218 | a subscription that is removed never fires again, whatever runs afterwards |
| HooksIsolation.ThrowSilencesOwner | packages/kernel/include/unbox/kernel/hooks.hpp:220-226 | after a throw none of the owner's subscriptions on the hooks in reach fires again: all registered hooks, or the one hook if it is unregistered or the owner is the kernel |
| HooksIsolation.RemovalIsInvisible | packages/kernel/include/unbox/kernel/hooks.hpp:191-198 | striking the subscriptions an extension has had so far on some hooks changes no other call of any later run, those it makes later included: it is the run in which the struck ones stay and do nothing |
| HooksIsolation.ThrowIsInvisible | packages/kernel/src/server.cpp:167-181 | the run after a throw, whatever happens in it, is the run in which the callback returned the value it was given and the subscriptions its owner had within reach are mute |
| HooksIsolation.ThrowRemovesExactly | packages/kernel/include/unbox/kernel/hooks.hpp:220-226 | a throw takes a subscription off a hook exactly if the thrower owns it and the hook is in reach: every registered hook if its own is registered and it is not the kernel's, else its own alone |
| HooksIsolation.LiveExactly | packages/kernel/include/unbox/kernel/hooks.hpp:161-226 | after any step the live subscriptions of a hook are those that were and are not taken off, and the one just made, be its owner disabled or not |
| HooksIsolation.SilentUntilItSubscribes | packages/kernel/include/unbox/kernel/hooks.hpp:220-226 | a run, for any owner, the kernel or an extension: its callback throws on a registered hook and is not called again, and what it subscribes afterwards is called |
| HostDisable.DisableReleasesExactly | packages/kernel/src/server.cpp:167-181 | a disabled extension holds nothing any more exactly if it had no frame request, no file watch and no subscription on an unregistered hook |
| HostDisable.DisableClears | packages/kernel/src/server.cpp:167-181 | disabling clears the subscriptions of the extension on the registered hooks, and on no other |
| HostDisable.DrainDisablesExactly | packages/kernel/src/frame_driver.cpp:36-47 | after a drain a subscription is live exactly if it was and no called callback that threw belongs to its owner, its hook being registered |
| HostDisable.ThrowsCostNoFrame | packages/kernel/src/frame_driver.cpp:15-49 | frame callbacks that throw change neither which callbacks a frame calls nor which requests are left, the thrower's own others included |
| HostDisable.DisabledIsStillCalled | packages/kernel/src/frame_driver.cpp:15-49 | a run to a frame in which an extension throws: its subscription on a registered hook is gone and its other request is still called |
| HooksFilter.DispatchCarriesFold | packages/kernel/include/unbox/kernel/hooks.hpp:262-282 | from a bus at rest, whatever callbacks do and return, every finished filter dispatch returns the fold of the calls it made over its seed, throwing calls skipped, each call having been given the fold of those before it; an event hands every listener its arguments unchanged; however dispatches nest |
| HooksFilter.StepTracks | packages/kernel/include/unbox/kernel/hooks.hpp:265-282 | one step extends the record of the dispatch it concerns by exactly the call that ended, with what it was given and its outcome, and a dispatch that ends reports what its record carries |
| HooksFilter.FoldComposes | packages/kernel/include/unbox/kernel/hooks.hpp:265-282 | when each call computed a function of what it was given, what a filter returns is the composition of those functions over its seed, throwing ones left out |
| HooksFilter.FilterTakesEventKeeps | packages/kernel/include/unbox/kernel/hooks.hpp:262-282 | a run: a hook made as a filter takes what its callback returns, one made as an event keeps its arguments |
| HooksClass.Hook.Subscribe | packages/kernel/include/unbox/kernel/hooks.hpp:161-165 | appends a live entry under a fresh token |
| HooksClass.Hook.Unsubscribe | packages/kernel/include/unbox/kernel/hooks.hpp:210-218 | kills the entry of a token, compacts when idle |
| HooksClass.Hook.Purge | packages/kernel/include/unbox/kernel/hooks.hpp:191-198 | kills the entries of an owner, compacts when idle |
| HooksClass.Hook.CompactIfIdle | packages/kernel/include/unbox/kernel/hooks.hpp:228-233 | erases the dead entries when no dispatch is in flight, else changes nothing |
| HooksClass.Hook.Scan | packages/kernel/include/unbox/kernel/hooks.hpp:175-180 | the dispatch loop stops at the next live entry of its snapshot |
| HooksClass.Hook.Enter | packages/kernel/include/unbox/kernel/hooks.hpp:173-175 | raises the depth, giving the size snapshot |
| HooksClass.Hook.Exit | packages/kernel/include/unbox/kernel/hooks.hpp:187-188 | lowers the depth and compacts when it is 0 |
| HooksClass.Bus.Emit | packages/kernel/include/unbox/kernel/hooks.hpp:173-189 | a dispatch begins as the step function says |
| HooksClass.Bus.CallbackReturns | packages/kernel/include/unbox/kernel/hooks.hpp:181-188 | a callback that returns moves its dispatch on as the step function says, a filter taking the value |
| HooksClass.Bus.CallbackThrows | packages/kernel/include/unbox/kernel/hooks.hpp:183-185 | a callback that throws disables its owner and moves on as the step function says |
| HooksClass.Bus.DisableOwner | packages/kernel/include/unbox/kernel/hooks.hpp:220-226 | disable through the sink, or purge on the hook alone |
| HooksClass.Bus.PurgeEverywhere | packages/kernel/src/server.cpp:167-181 | purge on every registered hook |
| HooksClass.Bus.Adopt | packages/kernel/src/server.cpp:162-165 | registers a hook with the sink and the list |
| HooksClass.Bus.Subscribe | packages/kernel/include/unbox/kernel/hooks.hpp:161-165 | subscribing on a hook of the bus, during dispatches or not |
| HooksClass.Bus.Unsubscribe | packages/kernel/include/unbox/kernel/hooks.hpp:210-218 | dropping a subscription, during dispatches or not |
| Activation.LeastOrderIsUnique | packages/kernel/src/server.cpp:306-308 | there is at most one lexicographically least order by (tier, install index), so activation is deterministic |
| Activation.GreedyIsLeast | packages/kernel/src/server.cpp:331-358 | picking the least ready extension each time gives the least of all orders with dependencies first |
| Activation.NoReasonToWait | packages/kernel/src/server.cpp:306-308 | an extension that another one precedes though all its dependencies were active before is not of a lower tier, nor of the same tier and installed earlier |
| Activation.GreedyIsOrder | packages/kernel/src/server.cpp:341-358 | such picks never repeat an extension and never come before a dependency |
| Activation.StuckMeansCycle | packages/kernel/src/server.cpp:350-352 | when nothing is ready and something is left, there is a dependency cycle, and the lemma returns one |
| Activation.CycleLeavesNoOrder | packages/kernel/src/server.cpp:350-352 | if there is an order with dependencies first, nothing is a cycle, self-dependencies included |
| Activation.ReadyIsIndegreeZero | packages/kernel/src/server.cpp:344 | an extension's dependencies are all done exactly when its count of open mentions is 0 |
| Activation.OpenAfter | packages/kernel/src/server.cpp:355-357 | finishing an extension lowers a dependent's count once per mention, repeats in depends_on included |
| ActivationClass.ExtensionHost.Install | packages/kernel/src/server.cpp:282-298 | too late, duplicate id, or appended with id = position; nothing changes on refusal |
| ActivationClass.ExtensionHost.ActivateExtensions | packages/kernel/src/server.cpp:300-367 | runs once; its result is correct: missing dependency, cycle if and only if there is one, or the least order |
| ActivationClass.ActivationOrder | packages/kernel/src/server.cpp:306-358 | the same for the sort alone |
| ActivationClass.IndexById | packages/kernel/src/server.cpp:310-313 | the map from ids to install indices |
| ActivationClass.AddEdges | packages/kernel/src/server.cpp:318-329 | one edge and one count per mention; stops at the first name that is not installed |
| ActivationClass.Kahn | packages/kernel/src/server.cpp:338-358 | Kahn's loop over an indegree array yields the least order, or reports a cycle that exists |
| ActivationClass.Pick | packages/kernel/src/server.cpp:342-349 | the scan finds the ready extension of least (tier, index), or none is ready |
| ActivationClass.LowerIndegrees | packages/kernel/src/server.cpp:355-357 | after the decrements every count is the number of open mentions again |
| Turns.ServesSnapshotOnce | packages/kernel/src/frame_driver.cpp:19-48 | for every such registry a snapshot is called once each, except tokens dropped by a callback before their turn; nothing else is called |
| Turns.DoAllLive | packages/kernel/src/frame_driver.cpp:7-13 | tokens are never reused: after any adds and drops an old token is live exactly if it was and was not dropped, for every registry that issues increasing tokens |
| Frames.NeverStalls | packages/kernel/src/server.cpp:553-621 | over every run of output add/destroy, frame events and requests added or dropped anywhere: the driver is null or a live output, and a live request with a driver has a frame pending on it |
| Frames.StepKeeps | packages/kernel/src/server.cpp:595-621 | one handler keeps that, promotion of a surviving output included |
| Frames.DrainCallsSnapshotOnce | packages/kernel/src/frame_driver.cpp:15-49 | one drain calls each request live at its start exactly once unless dropped before its turn, and no request added during it |
| Frames.NextFrameServes | packages/kernel/src/server.cpp:563-579 | a live request is served by the frame that is coming, then another is coming if any request is left, and the dt base is reset if and only if none is |
| Frames.OtherOutputsAreQuiet | packages/kernel/src/server.cpp:563-564 | a frame of an output that is not the driver calls nothing and changes nothing but that it is not pending |
| Frames.OnlyTheDriverServes | packages/kernel/src/server.cpp:560-578 | requests are called only in frames of the driver, or of the output that becomes it; dt is 0 without a base, else the time since it, and the frame is the new base unless no request is left |
| Frames.DtSpansTheGap | packages/kernel/src/server.cpp:554-570 | between two serving frames of the driver, whatever other outputs and requests do, the second's dt is the time from the first to it |
| Frames.FirstSurvivorDrives | packages/kernel/src/server.cpp:602-618 | when the driver is destroyed the first other output in list order drives, scheduled if a request is alive, the base reset; when another is, driver and base stay |
| Frames.ActAllDriver | packages/kernel/src/server.cpp:412-420 | a request sets the driver, if there is none, to the first output |
| Frames.OutputsStayInOrder | packages/kernel/src/server.cpp:547-551 | outputs are listed in the order in which they came |
| Frames.EarlyRequestIsNotScheduled | packages/kernel/src/server_impl.hpp:299-310 | a request made before the first output is not scheduled when that output comes |
| Frames.UnscheduledExactly | packages/kernel/src/server.cpp:547-551 | requests wait without a driver exactly after an output that comes while there is none, whose event's callbacks make no request and leave one that was waiting undropped |
| Frames.IdleGapLeaksIntoDt | packages/kernel/src/server.cpp:568-578 | dropping the last request outside a drain leaves the dt base, so the next animation's first dt is the idle gap |
| Frames.StaleBaseExactly | packages/kernel/src/server.cpp:574-578 | the base goes stale exactly when callbacks outside a frame drop every request there is and every one they make after making it, and the driver's output, or the one that becomes it, is not the one being destroyed |
| Frames.EmptiedExactly | packages/kernel/src/frame_driver.cpp:7-13 | callbacks leave no request exactly if they drop every live one, and each they make after making it |
| FramesClass.FrameDriver.Add | packages/kernel/src/frame_driver.cpp:7-11 | a fresh token, the entry added |
| FramesClass.FrameDriver.RemoveFrameRequest | packages/kernel/src/frame_driver.cpp:13 | the token's entry removed |
| FramesClass.Server.Drain | packages/kernel/src/frame_driver.cpp:15-49 | the snapshot loop with its second look-up calls what the drain function says and leaves its state |
| FramesClass.Server.ScheduleDriverFrame | packages/kernel/src/server.cpp:412-420 | keeps or picks the driver and schedules a frame on it |
| FramesClass.Server.RegisterFrameRequest | packages/kernel/src/server_impl.hpp:299-310 | adds the request, then kicks the driver |
| FramesClass.Server.OnFrame | packages/kernel/src/server.cpp:553-579 | the frame handler does the frame step, what it calls, dt and rescheduling included |
| FramesClass.Server.OnDestroy | packages/kernel/src/server.cpp:595-621 | the destroy handler does the destroy step |
| FramesClass.Server.HandleNewOutput | packages/kernel/src/server.cpp:547-551 | the output joins the list before its added event |
| Watcher.AlwaysExact | packages/kernel/src/file_watcher.cpp:91-143 | after any history of adds and removes, inside callbacks or not, the armed descriptors are those of the directories of the live watches, each under the spelling of one of them, and the watcher runs if there are any; whatever the order of re-arming |
| Watcher.AllAreHeardExactly | packages/kernel/src/file_watcher.cpp:71-89 | after any history all live watches are heard exactly if no two of them have one directory under different spellings |
| Watcher.OneSpellingIsHeard | packages/kernel/src/file_watcher.cpp:75-82 | of the spellings the live watches have for a directory one is heard and no other |
| Watcher.SecondSpellingDeafens | packages/kernel/src/file_watcher.cpp:75-82 | a run: a second watch under another spelling of the directory makes the first deaf, until it is dropped |
| Watcher.MatchesExactly | packages/kernel/src/file_watcher.cpp:153-187 | a watch matches what is read exactly if it is heard and an event names a file it covers in its directory |
| Watcher.WithoutInotifyNothing | packages/kernel/src/file_watcher.cpp:91-95 | where inotify cannot be started no history leaves a watch |
| Watcher.NotificationFiresMatchesOnce | packages/kernel/src/file_watcher.cpp:174-208 | one notification calls each watch that is heard and that some event concerns exactly once unless dropped before, no other, and none added meanwhile |
| Watcher.FileWatcher.AddFile | packages/kernel/src/file_watcher.cpp:91-110 | the entry and its directory, or an inert handle and no entry; a path without a file name still starts the watcher |
| Watcher.FileWatcher.AddDir | packages/kernel/src/file_watcher.cpp:112-123 | the same with an entry that matches any name |
| Watcher.FileWatcher.RemoveWatch | packages/kernel/src/file_watcher.cpp:125-143 | the entry gone, directories armed anew, stopped when idle |
| Watcher.FileWatcher.RearmAllDirs | packages/kernel/src/file_watcher.cpp:85-89 | arms the directories of the entries in iteration order, from nothing |
| Watcher.FileWatcher.OnReadable | packages/kernel/src/file_watcher.cpp:145-209 | the notification step |
| Watcher.FileWatcher.Read | packages/kernel/src/file_watcher.cpp:153-172 | the read loop reports the events of known descriptors that name a file, under the spelling armed last |
| Watcher.FileWatcher.Snapshot | packages/kernel/src/file_watcher.cpp:177-187 | the tokens of the entries that match |
| Watcher.FileWatcher.FireAll | packages/kernel/src/file_watcher.cpp:188-208 | the fire loop calls what the turn function says |
| Watcher.FileWatcher.MatchesAny | packages/kernel/src/file_watcher.cpp:179-186 | an entry matches some change of its directory: any name, or its own |
| Registry.LookupIsLatestHeld | packages/kernel/include/unbox/kernel/surface_registry.hpp:52-70 | after any interleaving of registrations, moves and resets a key gives the value of its most recent registration while a handle stands for it, null otherwise |
| Registry.LatestIsLatest | packages/kernel/include/unbox/kernel/surface_registry.hpp:52-56 | the record of latest registrations that this refers to is right |
| Registry.RunAgrees | packages/kernel/include/unbox/kernel/surface_registry.hpp:92-124 | store and handles are what the history of registrations says they are |
| Registry.SupersededHandleIsHarmless | packages/kernel/include/unbox/kernel/surface_registry.hpp:58-65 | resetting a handle whose registration is superseded leaves the store as it was |
| Registry.PointerAssoc.Set | packages/kernel/include/unbox/kernel/surface_registry.hpp:52-56 | puts the value under a fresh token |
| Registry.PointerAssoc.Clear | packages/kernel/include/unbox/kernel/surface_registry.hpp:60-65 | erases only with the owning token |
| Registry.PointerAssoc.Get | packages/kernel/include/unbox/kernel/surface_registry.hpp:67-70 | the value, or null |
| Registry.SurfaceRegistration.Reset | packages/kernel/include/unbox/kernel/surface_registry.hpp:117-124 | releases its slot and becomes inert |
| Registry.SurfaceRegistration.MoveAssign | packages/kernel/include/unbox/kernel/surface_registry.hpp:98-109 | releases its slot and takes the other's; nothing on self-move |
| Routing.RunsKeepValid | packages/kernel/src/ui_substrate.cpp:1119-1152 | in every reachable state the grab surface, the touch captures and the queued reloads are live surfaces, reloads queued once, and a grab surface implies that the substrate owns the grab |
| Routing.StepKeepsValid | packages/kernel/src/ui_substrate.cpp:1582-1677 | one routing call or destruction keeps that |
| Routing.DeliveriesAreLive | packages/kernel/src/ui_substrate.cpp:1557-1580 | input and reloads only reach live surfaces; during a substrate grab moves only reach the grab surface |
| Routing.HitExactly | packages/kernel/src/ui_substrate.cpp:679-687 | the hit test finds a surface exactly if it is the last created of the visible ones whose box, near edges in and far edges out, holds the point, and none exactly if there is none |
| Routing.InputGoesToTheTop | packages/kernel/src/ui_substrate.cpp:1557-1650 | with no button down, a press and a touch go to the topmost surface at the point and are consumed, a motion is its alone and the others see the pointer leave |
| Routing.InputPassesBetween | packages/kernel/src/ui_substrate.cpp:1557-1650 | with no surface at the point they are passed on and nothing of them is delivered |
| Routing.GrabbedSurfaceGetsAll | packages/kernel/src/ui_substrate.cpp:1582-1618 | in a grab all buttons and moves are the grab surface's, until the last button is up or it dies |
| Routing.CapturedPointStays | packages/kernel/src/ui_substrate.cpp:1633-1677 | a captured point is delivered to its surface until it ends or the surface dies, whatever happens besides |
| Routing.ChangedAssetIsReloadedOnce | packages/kernel/src/ui_substrate.cpp:1520-1543 | a surface whose asset changed is reloaded at the next tick, once however often it changed, unless it dies before |
| Routing.SurfacesStayInOrder | packages/kernel/src/ui_substrate.cpp:1119-1152 | surfaces stay in the order of creation with ids of their own |
| Routing.CreatedIsOnTop | packages/kernel/src/ui_substrate.cpp:679-687 | a new visible surface is the one hit where it lies |
| RoutingStreams.SplitStream | packages/kernel/src/ui_core.hpp:103-129 | a well-formed button stream is split into two well-formed streams, and at any time all buttons that are down belong to the owner's; surfaces may die meanwhile |
| RoutingStreams.OneOwner | packages/kernel/src/ui_substrate.cpp:1582-1618 | from a press to the last release every button event goes to the party that owns the grab |
| RoutingStreams.DeliveriesBalance | packages/kernel/src/ui_substrate.cpp:1582-1677 | surfaces dying at will, in a run without an adoption or a recaptured touch id, downs minus ups delivered to a surface are the buttons and points it holds |
| RoutingStreams.GentleRunIsRegular | packages/kernel/src/ui_substrate.cpp:1119-1152 | a run is such a one if no grab surface dies during its grab and touch ids are distinct |
| RoutingStreams.StepAccounts | packages/kernel/src/ui_substrate.cpp:1595-1601 | a step keeps every account right exactly when it neither lets a surface adopt an orphaned grab nor captures a touch id twice |
| RoutingStreams.AdoptionUnbalances | packages/kernel/src/ui_substrate.cpp:1595-1601 | a run from an empty substrate: after the grab surface dies a further press is adopted by another surface, which gets one release more than presses and holds nothing |
| RoutingClass.PointerButtonGrab.OnPress | packages/kernel/src/ui_core.hpp:107-113 | the first press fixes the owner |
| RoutingClass.PointerButtonGrab.OnRelease | packages/kernel/src/ui_core.hpp:116-122 | a release goes to the owner; the last ends the grab; one with nothing down goes to nobody |
| RoutingClass.UiSubstrate.HitTest | packages/kernel/src/ui_substrate.cpp:679-687 | the surface created last among the visible ones whose box holds the point, or none if none does |
| RoutingClass.UiSubstrate.RouteMotion | packages/kernel/src/ui_substrate.cpp:1557-1580 | a move to the target, a leave to every other surface |
| RoutingClass.UiSubstrate.RouteButton | packages/kernel/src/ui_substrate.cpp:1582-1618 | the button step |
| RoutingClass.UiSubstrate.RouteTouchDown | packages/kernel/src/ui_substrate.cpp:1633-1650 | the touch-down step |
| RoutingClass.UiSubstrate.RouteTouchMotion | packages/kernel/src/ui_substrate.cpp:1652-1664 | the touch-motion step |
| RoutingClass.UiSubstrate.RouteTouchUp | packages/kernel/src/ui_substrate.cpp:1666-1677 | the touch-up step, also for a cancel |
| RoutingClass.UiSubstrate.DestroySurface | packages/kernel/src/ui_substrate.cpp:1119-1152 | the destroy step |
| RoutingClass.UiSubstrate.Unwatch | packages/kernel/src/ui_substrate.cpp:868-874 | no reload of the surface is left queued |
| RoutingClass.UiSubstrate.OnAssetChanged | packages/kernel/src/ui_substrate.cpp:846-851 | a reload is queued once |
| RoutingClass.UiSubstrate.TickAll | packages/kernel/src/ui_substrate.cpp:1520-1543 | the queued reloads of live surfaces, each once, and the queue emptied |
| InputChain.PointerDragIsHeld | packages/kernel/src/input.cpp:187-201 | in every run of device input, requests and destruction, a window follows the pointer only while a button is down in a stream the bus owns |
| InputChain.PressBetweenDrags | packages/kernel/src/input.cpp:187-201 | a press between the surfaces reaches the machine: a request made under it drags |
| InputChain.PointBetweenDrags | packages/kernel/src/input.cpp:216-263 | a point that goes down between them reaches the machine: a request made under it follows it |
| InputChain.BusTouchesAreCounted | packages/kernel/src/input.cpp:216-263 | the grab machine counts the points of the bus in every real run in which no lost point lifts while the bus has points down, capturing surfaces dying at will |
| InputChain.EveryPointHasItsSide | packages/kernel/src/input.cpp:216-263 | as long as no capturing surface is destroyed, each point down is captured or known to the bus, and the run is such a one |
| InputChain.TouchDragIsHeld | packages/ext-xdg-shell/src/policy.hpp:104-108 | in every run of a real device, capturing surfaces dying at will, with requests under the latest point a window follows a touch point only while that point is physically down, the bus's and captured by nobody |
| InputChain.NextKeepsOriginHeld | packages/ext-xdg-shell/src/policy.hpp:132-137 | whatever has been lost and miscounted, the origin of a touch drag stays down over a step exactly when it is no request made after the latest point lifted |
| InputChain.LostByDestruction | packages/kernel/src/ui_substrate.cpp:1147-1149 | points become unknown to both sides exactly when a surface that captured one is destroyed |
| InputChain.BusSeesMatched | packages/kernel/src/input.cpp:246-253 | the bus gets an unmatched touch event exactly when a point lost to both sides lifts |
| InputChain.NextKeepsCounted | packages/ext-xdg-shell/src/policy.hpp:147-150 | the machine's count of the bus's points goes wrong over a step exactly when a lost point lifts while the bus has points down |
| InputChain.LostPointMiscounts | packages/ext-xdg-shell/src/policy.hpp:147-150 | a run from the start in which a lost point lifts: the machine counts one point too few, and a request under the remaining point is refused |
| GrabMachines.GrabFollowsItsSource | packages/ext-xdg-shell/src/policy.hpp:71-161 | over every run with matched ids a pointer grab implies the button is down, the counter is the points down, and with prompt requests a touch grab implies its origin is down |
| GrabMachines.FeedKeepsOriginHeld | packages/ext-xdg-shell/src/policy.hpp:132-137 | the origin of a touch grab stays down over a step exactly when the step is not a request made after the latest point lifted, ups without downs included |
| GrabMachines.FeedKeepsCounted | packages/ext-xdg-shell/src/policy.hpp:147-155 | the counter stays the points down over a step exactly when no up comes without its down while points are down |
| GrabMachines.StaleRequestStrandsTheGrab | packages/ext-xdg-shell/src/policy.hpp:132-137 | such a request leaves a grab with no finger down |
| GrabMachines.OthersLeaveTheGrab | packages/ext-xdg-shell/src/policy.hpp:101-108 | no other source or point steers or ends a grab |
| GrabMachines.StepKeepsButtonHeld | packages/ext-xdg-shell/src/policy.hpp:71-77 | every input keeps: a pointer grab implies the button is down |
| GrabMachines.GrabHasItsWindow | packages/ext-xdg-shell/src/extension.cpp:248-255 | over every run the machine grabs exactly while a window is recorded, and it is mapped if requests come from mapped windows |
| GrabMachines.HandleKeepsMapped | packages/ext-xdg-shell/src/extension.cpp:365-375 | the recorded window stays mapped over a step exactly when no request comes for an unmapped one while some input is down |
| GrabMachines.OneButtonIsForwarded | packages/ext-xdg-shell/src/extension.cpp:484-519 | with one button and no touch every press and release is forwarded to the seat |
| GrabMachines.SeatLevel | packages/ext-xdg-shell/src/extension.cpp:484-519 | over every run the buttons the seat takes for down are those that are, less those pressed in a grab, plus those released in a touch grab; so with none down it is balanced exactly if these two are equally many |
| GrabMachines.SomeButtonsAreNotForwarded | packages/ext-xdg-shell/src/extension.cpp:494-509 | a touch grab that engages under a held button swallows its release, and a second button pressed in a grab is only released |
| GrabMachineClass.GrabMachine.OnButton | packages/ext-xdg-shell/src/policy.hpp:71-77 | with the button up no pointer motion drags; a release ends exactly a pointer grab; a grab that does not end is unchanged; a pointer grab has its button down afterwards |
| GrabMachineClass.GrabMachine.OnTouchDown | packages/ext-xdg-shell/src/policy.hpp:83-87 | a point that goes down changes neither what any touch point drags nor what the pointer drags |
| GrabMachineClass.GrabMachine.TouchLifted | packages/ext-xdg-shell/src/policy.hpp:147-155 | a lifted point drags nothing; the grab ends exactly if the point dragged; other points and the pointer drag as before |
| GrabMachineClass.GrabMachine.Engage | packages/ext-xdg-shell/src/policy.hpp:132-145 | refused exactly with no input down, and then nothing changes; else one input drags: the latest touch point and not the pointer if any point is counted, else the pointer and no point |
| GrabMachineClass.GrabMachine.OnGrabTargetLost | packages/ext-xdg-shell/src/policy.hpp:112-115 | neither the pointer nor any point drags afterwards, and what is down stays known |
| GrabMachineClass.ShellGrab.Begin | packages/ext-xdg-shell/src/extension.cpp:365-375 | the window is recorded if and only if the grab engages |
| GrabMachineClass.ShellGrab.ProcessButton | packages/ext-xdg-shell/src/extension.cpp:484-519 | the button step of machine and window, and whether the seat is told |
| GrabMachineClass.ShellGrab.ProcessTouchUp | packages/ext-xdg-shell/src/extension.cpp:584-591 | the up step of machine and window |
| GrabMachineClass.ShellGrab.OnUnmap | packages/ext-xdg-shell/src/extension.cpp:248-255 | unmapping the grabbed window lets go of it |
| Windows.UnitsAlwaysAgree | packages/ext-xdg-shell/src/extension.cpp:198-266 | between events of any run the ring's order, the dock's list and the mapped windows in map order are the same; slots, focused and cursor refer to mapped windows; a mapped window the dock has hidden has a slot |
| Windows.NextKeepsAgree | packages/ext-keybindings/src/extension.cpp:192-213 | each event keeps that |
| Windows.SlotsStayDistinct | packages/ext-stage-dock/src/extension.cpp:229-245 | a step leaves two slots for one window exactly when it minimizes a focused window that has a slot |
| Windows.AltTabFocusesMinimized | packages/ext-keybindings/src/extension.cpp:295-308 | a run that focuses a window in the dock |
| Windows.TwoSlotsForOneWindow | packages/ext-stage-dock/src/extension.cpp:229-245 | and the next minimize gives it a second slot |
| Windows.RestoreUndoesMinimize | packages/ext-stage-dock/src/extension.cpp:262-289 | restoring the slot just made gives back slots, hidden windows, lists and focus |
| Windows.RestoreBringsBack | packages/ext-stage-dock/src/extension.cpp:262-289 | restoring slot i focuses its window, shows it and removes that place, for every i |
| Windows.MapFocuses | packages/ext-xdg-shell/src/extension.cpp:243-247 | a window that maps is the focused one for shell, dock and ring, last in map order |
| Windows.UnmapForgets | packages/ext-xdg-shell/src/extension.cpp:248-255 | a window that unmaps leaves its place, the dock and the focus |
| Windows.RequestFocuses | packages/ext-xdg-shell/src/extension.cpp:198-221 | a request focuses a mapped window the seat is not on, and does nothing else |
| Windows.MinimizeHandsOnFocus | packages/ext-stage-dock/src/extension.cpp:251-257 | a minimize leaves nothing focused exactly when all other windows are in the dock, else the first other window in map order that is not, in sight; but the minimized one itself when the seat was already on that one; a seat with a keyboard ends on it |
| Windows.MinimizeHandsToOneInSight | packages/ext-stage-dock/src/extension.cpp:251-257 | over every run with a keyboard, layer surfaces taking it at will, a minimize hands the focus to a window that is neither hidden nor in the dock, or to none if all are |
| Windows.RotateGoesRound | packages/ext-keybindings/src/extension.cpp:295-308 | focus-next and focus-prev go to the window after and before the cursor in map order, round the ends; a seat with a keyboard follows |
| Windows.RoundVisitsAll | packages/ext-keybindings/src/extension.cpp:295-308 | as many focus-next events as windows focus each once through the whole session, in map order from the one after the current, and come back |
| Windows.NextKeepsSeatFollows | packages/ext-xdg-shell/src/extension.cpp:198-221 | what that rests on: the seat is on no mapped window but the focused one, kept by each such event |
| Windows.FocusStaysOne | packages/ext-stage-dock/src/extension.cpp:274-286 | as long as nobody takes the keyboard from a mapped window, seat, dock and ring have one focus over every run; the seat may lose a window that is gone |
| Windows.NextKeepsOneFocus | packages/ext-xdg-shell/src/extension.cpp:198-221 | each such event keeps that |
| Windows.KeyboardComesLate | packages/ext-xdg-shell/src/extension.cpp:198-221 | a run from an empty session in which a window maps while there is no keyboard, and the seat stays on another |
| Windows.MinimizedStaysFocused | packages/ext-stage-dock/src/extension.cpp:251-257 | then a minimize leaves the dock's focus on the window it has just hidden |
| WindowsClass.Dock.Unmapped | packages/ext-stage-dock/src/extension.cpp:294-301 | the window gone from slots, list and focus |
| WindowsClass.Dock.IsMinimized | packages/ext-stage-dock/src/extension.cpp:476-483 | whether it has a slot |
| WindowsClass.Dock.FirstNonMinimizedOther | packages/ext-stage-dock/src/extension.cpp:466-474 | the first mapped window, by place, that is another and has no slot, or none if there is none |
| WindowsClass.Compositor.Focus | packages/ext-xdg-shell/src/extension.cpp:198-221 | the focus step, with and without a keyboard |
| WindowsClass.Compositor.MapToplevel | packages/ext-xdg-shell/src/extension.cpp:243-247 | focus, then the mapped event |
| WindowsClass.Compositor.UnmapToplevel | packages/ext-xdg-shell/src/extension.cpp:248-255 | the unmapped event, then the flag |
| WindowsClass.Compositor.MinimizeWindow | packages/ext-stage-dock/src/extension.cpp:229-260 | the minimize step |
| WindowsClass.Compositor.RestoreWindow | packages/ext-stage-dock/src/extension.cpp:262-289 | the restore step |
| WindowsClass.Compositor.RotateWindows | packages/ext-keybindings/src/extension.cpp:295-308 | the rotate step |
| FocusRings.HistoriesKeepGood | packages/ext-keybindings/src/focus_ring.hpp:26-54 | after any history tokens are distinct and the cursor is one of them |
| FocusRings.OneRoundVisitsAll | packages/ext-keybindings/src/focus_ring.hpp:62-72 | as many focus-next steps as windows visit each once, in map order from the one after the cursor, and come back |
| FocusRings.BackwardUndoesForward | packages/ext-keybindings/src/focus_ring.hpp:76-86 | from a set cursor focus-prev undoes focus-next and the other way round |
| FocusRings.AfterRemovalFromTheEnds | packages/ext-keybindings/src/focus_ring.hpp:62-86 | after the current window is removed focus-next goes to the first of the others and focus-prev to the last |
| FocusRings.WithoutIsErase | packages/ext-keybindings/src/focus_ring.hpp:40 | erasing the one place removes the token and keeps the rest in order |
| FocusRings.FocusRing.Find | packages/ext-keybindings/src/focus_ring.hpp:100-107 | the first place, or none |
| FocusRings.FocusRing.Insert | packages/ext-keybindings/src/focus_ring.hpp:26-30 | appended once |
| FocusRings.FocusRing.Erase | packages/ext-keybindings/src/focus_ring.hpp:35-44 | removed, the cursor cleared if it was there |
| FocusRings.FocusRing.NoteFocused | packages/ext-keybindings/src/focus_ring.hpp:49-54 | the cursor moves to a token of the ring only |
| FocusRings.FocusRing.NextToken | packages/ext-keybindings/src/focus_ring.hpp:62-72 | the next token, the front from a cleared cursor |
| FocusRings.FocusRing.PrevToken | packages/ext-keybindings/src/focus_ring.hpp:76-86 | the previous token, the back from a cleared cursor |
| Combos.Split | packages/ext-keybindings/src/policy.hpp:145-153 | the tokens hold no '+' and join back to the input |
| Combos.TokensAreUnique | packages/ext-keybindings/src/policy.hpp:145-153 | so they are the only such tokens |
| Combos.ParseCombo | packages/ext-keybindings/src/policy.hpp:140-189 | accepts exactly the strings of the grammar, and returns the combo they stand for |
| Combos.ReadTokens | packages/ext-keybindings/src/policy.hpp:154-189 | the same for a list of tokens |
| Combos.DenotesOne | packages/ext-keybindings/src/policy.hpp:140-189 | no string stands for two combos |
| Combos.PrintedComboIsReadBack | packages/ext-keybindings/src/policy.hpp:133-139 | the print of a combo, tap or chord with any modifiers, stands for it |
| Combos.ParsePrinted | packages/ext-keybindings/src/policy.hpp:133-189 | parsing a printed combo gives the combo |
| Combos.ReadComboIsPrintable | packages/ext-keybindings/src/policy.hpp:133-139 | what parses can be printed, and its print parses to it |
| Combos.LookUpModifier | packages/ext-keybindings/src/policy.hpp:95-125 | the bit of a modifier name in any case |
| Combos.ModifierNames | packages/ext-keybindings/src/policy.hpp:95-125 | the modifier names are super and logo, alt, ctrl and control, shift, in any case, with the protocol's bits, and no other |
| Combos.EqualsName | packages/ext-keybindings/src/policy.hpp:97-111 | equality up to ASCII case |
| KeyMatcher.WhatFires | packages/ext-keybindings/src/policy.hpp:232-296 | over every history a Super release fires the first Super tap exactly when the tap was clean, another key's press the first chord with its key and exact modifiers, consumed, and nothing else fires |
| KeyMatcher.ChordsAreExact | packages/ext-keybindings/src/policy.hpp:282-294 | the chord that fires is the first with the key and exactly these of Shift, Ctrl, Alt and Super |
| KeyMatcher.TapsAreExact | packages/ext-keybindings/src/policy.hpp:256-266 | the tap that fires is the first tap of the table whose modifiers include Super |
| KeyMatcher.LocksNeverMatter | packages/ext-keybindings/src/policy.hpp:276-290 | no other modifier bit changes what fires or the state |
| KeyMatcher.FlagsSayWhatHappened | packages/ext-keybindings/src/policy.hpp:247-280 | the two flags read off the history: pressed since the last release, and another key pressed after the first such press |
| KeyMatcher.Matcher.Feed | packages/ext-keybindings/src/policy.hpp:245-296 | the step and its outcome |
| KeyMatcher.Matcher.FindSuperTap | packages/ext-keybindings/src/policy.hpp:303-314 | the first Super tap of the table |
| Gesture.AlwaysPlaced | packages/ext-stage-dock/src/gesture.hpp:76-207 | over every run the slide stays in the dock's travel, and between gestures it is at the end that `open` names |
| Gesture.SeededIsPlaced | packages/ext-stage-dock/src/gesture.hpp:176-181 | that holds after the metrics are set and close_now |
| Gesture.DragFollowsFinger | packages/ext-stage-dock/src/gesture.hpp:130-151 | a drag taken up anywhere leaves the dock displaced by the finger's last displacement, a real number, rounded up to a pixel (towards open) and stopped at the ends; by whole pixels exactly as many; an unmoved finger leaves it |
| Gesture.SwipeOutcome | packages/ext-stage-dock/src/gesture.hpp:76-111 | a whole swipe, with any samples or none, ends at rest, open or closed by the speed of the last two samples between which time advanced and by its last place from its start; one that starts past the edge does nothing |
| Gesture.LastSampleDecides | packages/ext-stage-dock/src/reveal.hpp:76-113 | the fraction depends on the last x only, and the speed on the last two samples between which time advanced, for any samples, equal timestamps included |
| Gesture.ReseedIsExact | packages/ext-stage-dock/src/dock_layout.hpp:47-52 | seeding with 1 + x/width and laying out again gives the pixel x back |
| Gesture.DockXBounds | packages/ext-stage-dock/src/dock_layout.hpp:47-52 | hidden at 0, out at 1, monotone in between |
| Gesture.OutcomeTellsTheGlue | packages/ext-stage-dock/src/gesture.hpp:39-43 | the slide moves only when reported, and the surface is made visible exactly for an opening or a swipe |
| Gesture.MetricsCountLater | packages/ext-stage-dock/src/gesture.hpp:61-66 | metrics that are set do not move the dock and are those of every later layout |
| GestureClass.RevealRecognizer.BeginDrag | packages/ext-stage-dock/src/reveal.hpp:76-87 | accepted exactly at the edge or when forced; the fraction begins at the start fraction, and in a drag stays that plus the finger's travel, clamped |
| GestureClass.RevealRecognizer.Move | packages/ext-stage-dock/src/reveal.hpp:96-115 | monotone in the finger: further right never a smaller fraction, further left never a larger one, back at its origin the start fraction; without a drag nothing changes |
| GestureClass.RevealRecognizer.Release | packages/ext-stage-dock/src/reveal.hpp:126-138 | opens exactly if the drag was taken and its speed, or without a fling its place, says so |
| GestureClass.Controller.OnTouchDown | packages/ext-stage-dock/src/gesture.hpp:76-87 | a swipe begins exactly at the edge of a closed dock that no finger swipes, and then the dock is hidden; any other touch leaves slide, finger and drag alone; a dock in place stays in place |
| GestureClass.Controller.OnTouchMotion | packages/ext-stage-dock/src/gesture.hpp:92-99 | the dock stands where the swiping finger's fraction lays it out; another finger changes nothing; a dock in place stays in place |
| GestureClass.Controller.OnTouchUp | packages/ext-stage-dock/src/gesture.hpp:104-111 | lifting the swiping finger leaves the dock at rest at an end, open exactly as speed and place decide; another finger changes nothing |
| GestureClass.Controller.OnTouchCancel | packages/ext-stage-dock/src/gesture.hpp:115-121 | a cancelled swipe leaves the dock at rest and closed however far it was; another finger changes nothing |
| GestureClass.Controller.OnDragStart | packages/ext-stage-dock/src/gesture.hpp:130-144 | taking hold of the dock does not move it, and the fraction it starts with lays it out where it is |
| GestureClass.Controller.OnDragMove | packages/ext-stage-dock/src/gesture.hpp:147-151 | the dock stands where the fraction lays it out, and moves with the finger's direction, never against it |
| GestureClass.Controller.OnDragEnd | packages/ext-stage-dock/src/gesture.hpp:154-157 | the dock is at rest at an end, open exactly as speed and place decide |
| GestureClass.Controller.SnapTo | packages/ext-stage-dock/src/gesture.hpp:197-208 | at rest at the end the commit names, in place from any state, the visibility reported with it; the swiping finger is not touched |
| Arrangement.EdgeRule | packages/ext-layer-shell/include/unbox/ext-layer-shell/arrangement.hpp:74-115 | when an edge is the exclusive one, as an if-and-only-if |
| Arrangement.ExplicitEdgeNeedsNoStrip | packages/ext-layer-shell/include/unbox/ext-layer-shell/arrangement.hpp:107-112 | a surface on all four edges reserves on an explicit edge, and on none without one |
| Arrangement.StripsReserve | packages/ext-layer-shell/include/unbox/ext-layer-shell/arrangement.hpp:74-168 | a strip along one edge, given by its anchor bits, takes its zone and the margin on that edge |
| Arrangement.ArrangeIsClosedForm | packages/ext-layer-shell/include/unbox/ext-layer-shell/arrangement.hpp:130-168 | the fold is (x+L, y+T, max(0,w-L-R), max(0,h-T-B)) whenever along each axis nothing is given back or all that is taken fits, negative reservations included |
| Arrangement.OrderIsImmaterial | packages/ext-layer-shell/include/unbox/ext-layer-shell/arrangement.hpp:130-168 | every permutation of the surfaces gives the same area exactly when along each axis nothing is given back or all that is taken fits |
| Arrangement.GivingFirstOrLast | packages/ext-layer-shell/include/unbox/ext-layer-shell/arrangement.hpp:161-166 | otherwise giving back first leaves less than giving back last |
| Arrangement.InsideIffItFits | packages/ext-layer-shell/include/unbox/ext-layer-shell/arrangement.hpp:130-168 | the area lies inside the output exactly when the left and the top sums fit |
| Arrangement.NegativeReservationBreaksIt | packages/ext-layer-shell/include/unbox/ext-layer-shell/arrangement.hpp:161-166 | two surfaces, one with a negative reservation, whose order matters |

## Left out

- wlroots, EGL and GL, RmlUi, rendering, previews and the seat's own state: effects without visible semantics.
- Callbacks that destroy a hook, an output or the surface being called: the C++ object would go away under its own caller. Moved entries (`Entry&` after a push_back) and the lifetime of std::function for the same reason.
- The `Subscription` handle class: dropping a handle is the unsubscribe input.
- An `activate()` that throws is fatal there; extension shutdown (reverse install order) is not modelled.
- Throws inside file-watch callbacks: they reach `disable` as those of frame callbacks do. Where a frame callback can throw it acts on the frame requests only, not on the bus.
- The order in which hash maps enumerate: it is a parameter, arbitrary.
- inotify calls that fail and path splitting. A descriptor stands for its directory, and what a spelling leads to does not change; so that inotify numbers a directory anew when it is armed anew, and that events queued under the old number are then lost, is not modelled.
- A substrate without GL: it has no surfaces and passes everything on.
- Axis routing, TouchModeTracker, SlideAnimator, VT switching, data bindings, the dock's show and hide glue, usable areas per output.
- Windows: geometry, raising and activation of windows; popups; closing the active window.
- Keyboard: xkbcommon's name resolution is a function parameter, of a whole string (the C string ends at a NUL); toml parsing and the reload of bindings.
- Widths: tokens, counters and pixels are unbounded integers, so no wrap-around of 32-bit values; times are natural numbers.
- Gesture: positions and fractions are reals, without floating-point rounding; the slide is a whole number because every assignment converts an int. `dirty_dragging` is not modelled, the glue ignores it.
- Hooks: the reference bus is about calls and values; it does not say when memory of a dead entry is freed beyond idle hooks holding none.
