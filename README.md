# pysysim signal engine, module hierarchy and urgent events in Dafny

This project models the core of pysysim, a discrete-event simulator for
hardware-like systems built on simpy. It covers three parts.

- **The signal engine** (`Signal`, `Port`). Every signal is an id into one
  mutable `Signals.Network`. The network holds each signal's current, last,
  next and initial value, its last-change tick, three one-shot event slots,
  its pending commit, its name and scope, and the mirrored sink and source
  lists.
  - `assign` pushes a pending value through the graph, skipping the
    immediate predecessor, and then schedules or re-times one commit.
  - A commit shifts next → value → last, fires edge events by integer
    truthiness and logs the new value. It then commits every sink in turn,
    skipping only the signal the commit started from.
  - Initial-value propagation seeds `last` and `value` along the same walk
    as `assign` and fires nothing.
  - `connect`, `disconnect` and `Port.bind` keep the sink and source lists
    mirror images of each other.
- **The module hierarchy** (`_gather`, `Module`). A module is a value: its
  class, with tagged process names and a base class, plus its attributes as
  an ordered tree of signals, submodules, lists, dicts and other values.
  - `Modules.Elaboration` runs `initialize` and
    `propagate_initial_values` against the network.
  - Each of its methods is proved equal to a specification function in
    `Elaborate`. That function returns an outcome (pass, or the exception
    raised) and the new state.
- **The urgent event** (`UrgentEvent.succeed`). This is a small class over
  a simpy-like environment whose queue is the list of scheduled entries.

Propagation is specified as a walk and a fold.

- `Walk` lists the signals a recursion visits, in order.
- `ApplyAll`, `CommitAll` and `SeedAll` apply one step to each listed
  signal.
- The recursions do not terminate on every graph. They take a ghost
  `depth` and the precondition `Finite`, which says that every walk ends
  within `depth` hops. `WalkDepthIrrelevant` shows that the bound never
  changes the result.

Time is an integer tick `now`. A pending commit is the tick at which it
falls due. The logger is a trace of `(signal, value)` pairs.

Where the code and the written description of the project differ, the
model follows the code.

- `disconnect` of a non-signal raises `AttributeError`, because the error
  message reads `signal.name`. It does not raise `ValueError`.
- A signal stored in a dict under a key that starts with `_` is still named
  by `initialize`, since only the attribute name is checked for the prefix.
  `_gather` skips it all the same (`PrivateEntryNamedNotGathered`).

## Model

| member | source | states |
|---|---|---|
| SignalSpec.Cell.WithSlot | src/sysim/signal.py:221-240 | registering an event changes exactly one slot and no other field |
| SignalSpec.Link | src/sysim/signal.py:191-200 | appending an edge keeps the number of sink and source lists |
| SignalSpec.RemoveFirst | src/sysim/signal.py:188-189 | `list.remove` takes out exactly one occurrence when there is one and leaves the list alone otherwise |
| SignalSpec.Unlink | src/sysim/signal.py:183-189 | removing an edge keeps the number of lists |
| SignalSpec.BindWiring | src/sysim/signal.py:322-335 | binding keeps the number of lists |
| SignalSpec.LinkKeepsMirror | src/sysim/signal.py:191-200 | `connect` keeps sinks and sources mirrored and adds exactly one a→b edge, counted with multiplicity |
| SignalSpec.MirrorAt | src/sysim/signal.py:183-200 | in a mirrored wiring, b is a sink of a as often as a is a source of b |
| SignalSpec.UnlinkKeepsClosed | src/sysim/signal.py:183-189 | `disconnect` keeps every id in range |
| SignalSpec.UnlinkKeepsMirror | src/sysim/signal.py:183-189 | an existing sink is also a source entry, and removing both keeps the mirror |
| SignalSpec.UnlinkCountAt | src/sysim/signal.py:183-189 | removal keeps the sink/source counts equal pointwise |
| SignalSpec.RemoveFirstOfAppended | src/sysim/signal.py:188-200 | removing an element just appended, and absent before, restores the list |
| SignalSpec.ConnectDisconnectRoundTrip | src/sysim/signal.py:183-200 | `connect` then `disconnect` of a new sink restores both lists exactly |
| SignalSpec.LinkUnlink | src/sysim/signal.py:183-200 | the same round trip on any wiring where neither list holds the edge |
| SignalSpec.BindAddsEdges | src/sysim/signal.py:322-335 | `bind` adds other→port for INPUT, port→other for OUTPUT and both for INOUT, with no duplicate check, and keeps the mirror |
| SignalSpec.Walk | src/sysim/signal.py:115-128 | a propagation visits its start first, and only existing signals |
| SignalSpec.WalkSinks | src/sysim/signal.py:125-128 | the visits below a sink list stay in range |
| SignalSpec.WalkDepthIrrelevant | src/sysim/signal.py:125-128 | once a walk ends within a bound, any larger bound gives the same walk |
| SignalSpec.WalkSinksDepthIrrelevant | src/sysim/signal.py:153-165 | the same for the visits below a list of sinks |
| SignalSpec.WalkSinksAt | src/sysim/signal.py:153-155 | one round of the sink loop: a skipped sink contributes nothing, any other contributes its own walk |
| SignalSpec.WalkStart | src/sysim/signal.py:163-165 | a walk is its start followed by the walks below its sinks |
| SignalSpec.StarWalk | src/sysim/signal.py:125-128 | when every sink leads only back to s, both rules visit s and then each other sink once per listing |
| SignalSpec.StarWalkSinks | src/sysim/signal.py:163-165 | the same for the sink list alone |
| SignalSpec.WalkSinksAllSkipped | src/sysim/signal.py:127-128 | a sink list made only of the skipped signal is not visited |
| SignalSpec.InoutChainLoops | src/sysim/signal.py:125-128 | on 0→1, 1↔2 the commit walk from 1 or 2 with origin 0 ends within no bound |
| SignalSpec.CommitDivergesThroughInout | src/sysim/signal.py:125-128 | commit propagation from 0 never terminates on that graph, while next-value propagation does within 2 hops |
| SignalSpec.ApplyAll | src/sysim/signal.py:145-165 | writing along a walk keeps the number of signals |
| SignalSpec.ApplyAllCells | src/sysim/signal.py:145-165 | exactly the visited signals receive the write, however often visited; all others are unchanged |
| SignalSpec.ApplyAllAppend | src/sysim/signal.py:153-165 | writing along two walks in turn equals writing along their concatenation |
| SignalSpec.ApplyAllKeepsEvents | src/sysim/signal.py:145-165 | value propagation touches no event slot and no pending commit |
| SignalSpec.CommitN | src/sysim/signal.py:107-122 | repeated commits change only the values, the change tick and the event slots |
| SignalSpec.FiredFromSlots | src/sysim/signal.py:87-105 | the events triggered are exactly those of the slots whose transition happened, each once |
| SignalSpec.EdgeEventsOnCommit | src/sysim/signal.py:87-113 | rising fires iff both values are present and falsy→truthy, falling mirrors it, change fires iff the values differ; a fired slot is emptied, an empty slot stays empty |
| SignalSpec.StableAfterCommit | src/sysim/signal.py:107-113 | a commit that changes the value stamps `now`, so `stable` is false for every interval; one that keeps it leaves `stable` as it was |
| SignalSpec.CommitAll | src/sysim/signal.py:115-128 | a commit pass keeps the number of signals |
| SignalSpec.CommitAllCons | src/sysim/signal.py:120-128 | a commit pass is the first signal's commit followed by the rest |
| SignalSpec.CommitAllResume | src/sysim/signal.py:125-128 | a pass may be resumed from its intermediate state |
| SignalSpec.CommitAllCells | src/sysim/signal.py:115-128 | each signal ends as many commits applied as it is visited |
| SignalSpec.CommitAllAppend | src/sysim/signal.py:125-128 | a pass over a concatenation is the two passes in turn |
| SignalSpec.FiredFresh | src/sysim/signal.py:87-105 | the events a commit fires belong to the signal, are distinct and were never queued before |
| SignalSpec.CommitCellKeepsEvents | src/sysim/signal.py:87-105 | one commit keeps the urgent queue duplicate-free and every slot unqueued |
| SignalSpec.RegisterKeepsEvents | src/sysim/signal.py:221-240 | registering a fresh event in an empty slot keeps that invariant |
| SignalSpec.CommitAllKeepsActions | src/sysim/signal.py:115-128 | a commit pass changes no pending commit |
| SignalSpec.CommitAllKeepsEvents | src/sysim/signal.py:115-128 | a whole pass keeps the event invariant, so no event succeeds twice |
| SignalSpec.AssignThenCommit | src/sysim/signal.py:107-113 | a signal the assignment reached and the commit visits once ends with value := assigned, last := old value, next := None, change tick = now iff the value changed |
| SignalSpec.FanOutEquivalence | src/sysim/signal.py:125-128 | assign-then-commit on a signal whose distinct sinks lead only back to it leaves every sink holding the value |
| SignalSpec.WithoutCount | src/sysim/signal.py:125-128 | in a fan-out walk each sink is visited exactly once |
| SignalSpec.DiamondWalks | src/sysim/signal.py:125-128 | on 0→1, 0→2, 1→3, 2→3 both rules visit 3 twice: [0, 1, 3, 2, 3] |
| SignalSpec.CommitTwiceClears | src/sysim/signal.py:107-113 | a second commit at the same tick finds no pending value and clears the value |
| SignalSpec.CommittedTwiceClears | src/sysim/signal.py:115-128 | a signal visited twice by a pass ends with no value |
| SignalSpec.DiamondCommitsTwice | src/sysim/signal.py:115-128 | so on the diamond, assigning at 0 and committing leaves signal 3 without a value |
| SignalSpec.EventsKept | src/sysim/signal.py:145-155 | writes that keep every event slot keep the event invariant |
| SignalSpec.NextValueAfterAssign | src/sysim/signal.py:157-165 | assignment changes only `next`, on exactly the visited signals; `next_value` then reads the assigned value, or a copy of `value` when none is pending |
| SignalSpec.SeedAfterPropagate | src/sysim/signal.py:145-155 | seeding sets value and last to the seed on the visited signals, keeps next and the events, and leaves the rest unchanged |
| SignalSpec.DueBounds | src/sysim/signal.py:212-219 | a commit without delay is due at once; one with delay d is due after max(1, d) ticks, the wait of `Simulator.wait`, so a zero or negative delay waits one tick |
| SignalSpec.SplitDots | src/sysim/signal.py:179-181 | `split(".")` gives at least one part, none containing a dot, and one part iff the path has no dot |
| SignalSpec.JoinSplit | src/sysim/signal.py:179-181 | `".".join(path.split("."))` is the path again |
| SignalSpec.JoinDotsSnoc | src/sysim/signal.py:181 | joining splits off the last part |
| SignalSpec.NameAndScope | src/sysim/signal.py:176-181 | the name has no dot; scope + "." + name rebuilds a dotted path; an undotted path has empty scope and is its own name |
| SignalSpec.SplitUndotted | src/sysim/signal.py:179 | an undotted path splits into itself |
| SignalSpec.SplitLast | src/sysim/signal.py:179 | the last part of x.y is y |
| SignalSpec.DottedPath | src/sysim/signal.py:176-181 | initialising with prefix.tail names the signal tail in scope prefix |
| SignalSpec.FirstNameWins | src/sysim/signal.py:176-181 | only an unset name or scope is set, so a second `initialize` changes nothing, and events are untouched |
| Signals.Rewritten | src/sysim/signal.py:145-165 | writes that keep events and pending commits keep the network invariants |
| Signals.Reschedule | src/sysim/signal.py:216-219 | setting a due tick at or after now starts a commit process only if none was pending |
| Signals.Network.constructor | src/sysim/signal.py:43-67 | an empty network at tick 0 satisfies the invariant |
| Signals.Network.NewSignal | src/sysim/signal.py:43-67 | a new signal with no connections, no values, no events and no pending commit; nothing else changes |
| Signals.Network.Connect | src/sysim/signal.py:191-200 | ValueError for a non-signal or an existing sink; otherwise exactly the edge a→other is added to both lists |
| Signals.Network.Disconnect | src/sysim/signal.py:183-189 | AttributeError for a non-signal, ValueError for a non-sink; otherwise the edge is removed from both lists |
| Signals.Network.Bind | src/sysim/signal.py:322-335 | outcome and wiring are those of `BindStep`: the edges by direction, nothing for a port without direction, AttributeError for a non-signal |
| Signals.Network.Push | src/sysim/signal.py:145-165 | the recursive write equals writing along the predecessor-skipping walk |
| Signals.Network.UpdateState | src/sysim/signal.py:107-113 | shifts next → value → last and stamps the tick when the value changes |
| Signals.Network.UpdateEvents | src/sysim/signal.py:87-105 | appends exactly the fired events to the urgent queue and empties their slots |
| Signals.Network.UpdateLog | src/sysim/signal.py:79-85 | logs the value when it is present and differs from the last |
| Signals.Network.CommitOne | src/sysim/signal.py:120-122 | state, events and log of one signal, in that order |
| Signals.Network.UpdateInternals | src/sysim/signal.py:115-128 | the recursive commit equals committing along the origin-skipping walk |
| Signals.Network.UpdateSinks | src/sysim/signal.py:125-128 | the sink loop equals the pass over the walks below the sinks |
| Signals.Network.UpdateSink | src/sysim/signal.py:127-128 | one round of the sink loop advances the pass by one sink |
| Signals.Network.Schedule | src/sysim/signal.py:216-219 | a pending commit is re-timed; otherwise exactly one commit process is started |
| Signals.Network.Assign | src/sysim/signal.py:212-219 | pushes the value along the walk, then sets the one pending commit due at now (+ max(1, delay)) |
| Signals.Network.Shift | src/sysim/signal.py:202-210 | `<<=` with a signal connects other→self, with ValueError if already connected; with a value it assigns without delay |
| Signals.Network.RunCommit | src/sysim/signal.py:130-143 | a due commit commits along the origin-skipping walk, clears the action slot and finishes its process |
| Signals.Network.EndCommit | src/sysim/signal.py:143 | clearing the action keeps exactly one process per pending commit |
| Signals.Network.PropagateInitialValue | src/sysim/signal.py:167-170 | seeds the initial value along the predecessor-skipping walk, and is a no-op without one |
| Signals.Network.InitializeName | src/sysim/signal.py:176-181 | sets name and scope from the path where unset and changes nothing else |
| Signals.Network.EdgeEvent | src/sysim/signal.py:221-240 | returns the registered event, or registers one fresh event never queued before |
| Signals.Network.Stable | src/sysim/signal.py:242-245 | `stable(interval)` holds iff the last value change is more than `interval` ticks ago; a signal stable for a non-negative interval did not change in the current tick (see `SignalSpec.StableAfterCommit`) |
| Signals.Network.NextValue | src/sysim/signal.py:280-286 | `next_value` is the pending value if one is set, else a copy of the current value, and None only when both are (see `SignalSpec.NextValueAfterAssign`) |
| Signals.Network.Advance | src/sysim/signal.py:133-141 | time moves forward only up to the next due commit, keeping the invariants |
| Hierarchy.Ancestry | src/sysim/module.py:39-54 | the class chain starts at the class itself |
| Hierarchy.ProcessesOfAncestry | src/sysim/module.py:39-54 | a name is a process iff some class in the chain tags it |
| Hierarchy.TaggingAncestor | src/sysim/module.py:39-54 | every process has a class in the chain that tags it |
| Hierarchy.AncestorTags | src/sysim/module.py:39-54 | every name tagged in the chain is a process |
| Hierarchy.InheritsProcesses | src/sysim/module.py:45-52 | a subclass's processes are its own tags united with the base class's, so it inherits them all |
| Hierarchy.Filter | src/sysim/module.py:29-30 | keeps only items of the wanted type, never more than given |
| Hierarchy.FilterAppend | src/sysim/module.py:22-28 | filtering distributes over concatenation |
| Hierarchy.LeavesAreLeaves | src/sysim/module.py:18-32 | flattening yields no lists or dicts |
| Hierarchy.LeavesOfAreLeaves | src/sysim/module.py:22-24 | the same for lists |
| Hierarchy.LeavesOfEntriesAreLeaves | src/sysim/module.py:25-28 | the same for dicts |
| Hierarchy.GatherIsFilter | src/sysim/module.py:18-32 | `_gather` is the items of the wanted type among the leaves, lists in order and dicts in key order, private keys skipped |
| Hierarchy.GatherListIsFilter | src/sysim/module.py:22-24 | the same for a list |
| Hierarchy.GatherDictIsFilter | src/sysim/module.py:25-28 | the same for a dict |
| Hierarchy.OwnChildren | src/sysim/module.py:131-139 | `instances` and `signals` are exactly the wanted leaves, in order |
| Hierarchy.NestedSignalHidden | src/sysim/module.py:29-30 | a submodule's signal is not among its parent's `signals`; the submodule is among its `instances` |
| Hierarchy.Decimal | src/sysim/module.py:69-70 | `str(i)` is non-empty and has no dot |
| Hierarchy.Targets | src/sysim/module.py:63-73 | the objects `_initialize_recursive` initialises are all of the wanted type |
| Hierarchy.ElementTargets | src/sysim/module.py:68-70 | the same for list elements |
| Hierarchy.EntryTargets | src/sysim/module.py:71-73 | the same for dict entries |
| Hierarchy.AttrTargets | src/sysim/module.py:102-107 | the same for a module's attributes |
| Hierarchy.ItemsAppend | src/sysim/module.py:63-73 | the reached objects of two walks in turn are those of each walk |
| Hierarchy.TargetsMatchGather | src/sysim/module.py:63-73 | without private keys, `_initialize_recursive` reaches exactly what `_gather` collects, in the same order |
| Hierarchy.ElementTargetsMatch | src/sysim/module.py:68-70 | the same for list elements |
| Hierarchy.EntryTargetsMatch | src/sysim/module.py:71-73 | the same for dict entries |
| Hierarchy.PrivateEntryNamedNotGathered | src/sysim/module.py:71-73 | a signal under dict key `_x` is initialised as `d._x` but not gathered |
| Hierarchy.PathsExtendName | src/sysim/module.py:63-73 | every path extends the attribute name |
| Hierarchy.ElementPathsExtend | src/sysim/module.py:68-70 | the same for list elements |
| Hierarchy.EntryPathsExtend | src/sysim/module.py:71-73 | the same for dict entries |
| Hierarchy.ElementName | src/sysim/module.py:67-70 | a signal at `a(i)` in module `mod` gets name `a(i)` and scope `mod` |
| Elaborate.Find | src/sysim/module.py:78-80 | returns an attribute stored under the key, or none when no attribute has it |
| Elaborate.Lookup | src/sysim/module.py:78-80 | `signals` and `instances` give the gathered lists, `_name`, `_kwargs`, `name` and `processes` a value that is no list or port; `hasattr` fails iff the key is none of these, no method of `Module`, no instance attribute and no class member |
| Elaborate.LookupOK | src/sysim/module.py:80 | what `getattr` returns refers to existing signals |
| Elaborate.BindTo | src/sysim/module.py:87-88 | `this.bind(that)` changes only the wiring |
| Elaborate.BindPairs | src/sysim/module.py:87-88 | the zip loop changes only the wiring |
| Elaborate.PairsStep | src/sysim/module.py:87-88 | one round of the zip loop: bind pair i and stop on an exception |
| Elaborate.BindKeyword | src/sysim/module.py:77-92 | binding one keyword changes only the wiring |
| Elaborate.BindAll | src/sysim/module.py:75-92 | binding all keywords changes only the wiring |
| Elaborate.RunsOf | src/sysim/module.py:109-110 | one run per process name, owned by the module |
| Elaborate.InitModule | src/sysim/module.py:94-110 | initialisation only adds names and runs, keeps the signal count, and starts only runs of this module or modules below it |
| Elaborate.InitAttrs | src/sysim/module.py:102-107 | the attribute loop only adds names and runs, and only for modules below |
| Elaborate.InitItem | src/sysim/module.py:63-73 | the same for one attribute |
| Elaborate.InitElements | src/sysim/module.py:68-70 | the same for list elements |
| Elaborate.ElementsStep | src/sysim/module.py:69-70 | one round of the list loop, stopping on an exception |
| Elaborate.InitEntries | src/sysim/module.py:71-73 | the same for dict entries |
| Elaborate.InitTarget | src/sysim/module.py:66-67 | initialising one reached object keeps the signal count |
| Elaborate.InitTargets | src/sysim/module.py:63-73 | so does initialising a list of them |
| Elaborate.InitTargetsAppend | src/sysim/module.py:63-73 | initialising two lists in turn stops at the first exception |
| Elaborate.InitItemIsTargets | src/sysim/module.py:63-73 | `_initialize_recursive` is initialising its reached objects in order |
| Elaborate.InitElementsIsTargets | src/sysim/module.py:68-70 | the same for list elements |
| Elaborate.InitEntriesIsTargets | src/sysim/module.py:71-73 | the same for dict entries |
| Elaborate.InitAttrsIsTargets | src/sysim/module.py:102-107 | the same for a module's attributes |
| Elaborate.NameAll | src/sysim/module.py:67 | naming keeps the signal count |
| Elaborate.SignalTargetsNamed | src/sysim/module.py:67 | initialising signals never fails and only names them |
| Elaborate.SignalPhase | src/sysim/module.py:105-107 | the signal phase of `initialize` names each signal with "<module>.<path>" and changes nothing else |
| Elaborate.FirstTargetNames | src/sysim/module.py:67 | a signal reached several times takes its name from the first path; one never reached is unchanged |
| Elaborate.LaterNamesKeep | src/sysim/signal.py:178-181 | a signal already named keeps its name |
| Elaborate.ReservedKeywords | src/sysim/module.py:78-92 | a keyword `signals` or `instances` takes the list branch: a single value goes to the only gathered child if there is exactly one (AttributeError for a submodule, which has no `bind`), else ValueError; `_name`, `_kwargs`, `name` and `processes` raise ValueError |
| Elaborate.BindingErrors | src/sysim/module.py:78-92 | an unknown keyword raises KeyError and a named attribute that is neither list nor port raises ValueError, with nothing bound |
| Elaborate.ListBroadcast | src/sysim/module.py:81-88 | a single value is bound to a list port iff it has length 1, else ValueError |
| Elaborate.ZipShorter | src/sysim/module.py:87 | zip stops at the shorter list |
| Elaborate.PairWiring | src/sysim/module.py:87-88 | the wiring after binding ports to signals pairwise keeps the signal count |
| Elaborate.PairsBound | src/sysim/module.py:87-88 | binding directed ports to signals succeeds and adds each pair's edges in order |
| Elaborate.NamedFirst | src/sysim/module.py:96 | the module's name is recorded before anything else |
| Elaborate.ScheduledOnce | src/sysim/module.py:109-110 | on success each tagged process of the class is scheduled exactly once; on failure none |
| Elaborate.BindingFailureStops | src/sysim/module.py:98-99 | a binding exception ends `initialize` with only the name set and the wiring of bindings made so far |
| Elaborate.GatherBelow | src/sysim/module.py:18-32 | `_gather` returns nothing nested deeper than its input |
| Elaborate.GatherListBelow | src/sysim/module.py:22-24 | the same for lists |
| Elaborate.GatherDictBelow | src/sysim/module.py:25-28 | the same for dicts |
| Elaborate.InstancesBelow | src/sysim/module.py:131-134 | every instance is nested less deeply than its module, so the recursion ends |
| Elaborate.FoundOrdersAppend | src/sysim/module.py:113-114 | the order over two gathered lists is the two orders in turn |
| Elaborate.OrderItemGathered | src/sysim/module.py:113-114 | walking an attribute for initial values visits the modules `_gather` finds, in its order |
| Elaborate.OrderListGathered | src/sysim/module.py:22-24 | the same for a list |
| Elaborate.OrderEntriesGathered | src/sysim/module.py:25-28 | the same for a dict |
| Elaborate.FoundOrdersOfModules | src/sysim/module.py:131-134 | the gathered modules give the same order as `instances` |
| Elaborate.InstancesOrder | src/sysim/module.py:112-117 | `propagate_initial_values` visits each instance in turn, recursively, and then the module's own signals |
| Elaborate.SubmodulesFirst | src/sysim/module.py:112-117 | the signals of instance i come after those of earlier instances, before later ones and before the module's own |
| Elaborate.ChildSplit | src/sysim/module.py:113-114 | the same split for any list of modules |
| Elaborate.SeedStep | src/sysim/module.py:113-114 | one round of the instance loop: propagate instance i, then the rest |
| Elaborate.SeedFrom | src/sysim/signal.py:167-170 | propagating one initial value keeps the signal count |
| Elaborate.SeedAll | src/sysim/module.py:116-117 | so does propagating from a list of signals |
| Elaborate.SeedableAppend | src/sysim/module.py:112-117 | the walks of a concatenation end iff those of both parts do |
| Elaborate.SeedAllAppend | src/sysim/module.py:112-117 | propagating a concatenation is the two parts in turn |
| Elaborate.SeedAllFields | src/sysim/module.py:112-117 | propagating initial values changes only value and last: no next value, event, pending commit, name or initial value |
| Modules.Elaboration.constructor | src/sysim/module.py:59-61 | nothing named and nothing scheduled yet |
| Modules.Elaboration.Initialize | src/sysim/module.py:94-110 | outcome and new state equal `InitModule`: name, then bindings, then submodules, then signals, then processes |
| Modules.Elaboration.ScheduleProcesses | src/sysim/module.py:109-110 | adds exactly one run of each process |
| Modules.Elaboration.InitializePortBindings | src/sysim/module.py:75-92 | outcome and wiring equal `BindAll`, stopping at the first exception |
| Modules.Elaboration.BindOne | src/sysim/module.py:78-92 | outcome and wiring equal `BindKeyword` |
| Modules.Elaboration.BindZip | src/sysim/module.py:87-88 | outcome and wiring equal `BindPairs` |
| Modules.Elaboration.BindElement | src/sysim/module.py:88 | outcome and wiring equal `BindTo`: only a port has `bind` |
| Modules.Elaboration.InitializeAttrs | src/sysim/module.py:102-107 | outcome and state equal `InitAttrs` |
| Modules.Elaboration.InitializeRecursive | src/sysim/module.py:63-73 | outcome and state equal `InitItem` |
| Modules.Elaboration.InitializeElements | src/sysim/module.py:68-70 | outcome and state equal `InitElements` |
| Modules.Elaboration.InitializeEntries | src/sysim/module.py:71-73 | outcome and state equal `InitEntries` |
| Modules.Elaboration.PropagateInitialValues | src/sysim/module.py:112-117 | the signals end as `SeedAll` along `InitialOrder`: instances first, recursively, then the module's own signals |
| Modules.Elaboration.PropagateSubmodules | src/sysim/module.py:113-114 | the instance loop seeds each instance's order in turn |
| Modules.Elaboration.PropagateSignals | src/sysim/module.py:116-117 | the signal loop seeds from each signal in turn |
| Events.Count | src/sysim/events.py:21 | an event has no more queue entries than the queue has, and none exactly when no entry names it |
| Events.CountAppend | src/sysim/events.py:21 | scheduling adds one entry for its event and none for others |
| Events.TriggerPending | src/sysim/events.py:16-20 | `succeed` works iff the event is pending, and stores the value |
| Events.TriggerOnce | src/sysim/events.py:16-17 | a triggered event raises RuntimeError on any later `succeed` |
| Events.AtMostOnce | src/sysim/events.py:12-22 | over any calls an event succeeds exactly once if it starts pending and is called, never otherwise, and keeps its first value |
| Events.Environment.constructor | src/sysim/events.py:9-10 | an environment with an empty queue |
| Events.Environment.Schedule | src/sysim/events.py:21 | appends one entry at now + delay with the next entry number, for that event only |
| Events.UrgentEvent.constructor | src/sysim/events.py:9-10 | a new event is pending, not ok and not queued |
| Events.UrgentEvent.Succeed | src/sysim/events.py:12-22 | pending: ok, value stored, queued once at URGENT priority and the current time, returns itself; otherwise RuntimeError with nothing changed; other events' entries are untouched |

## Left out

- simpy itself: processes, `simpy.Interrupt`, `env.run` and the event loop. A pending commit is a due tick, a re-timed commit has its tick replaced, and `Signals.Network.Advance` moves time forward. The queue of `Events.Environment` is the list of scheduled entries, not a heap, and it is never popped.
- Float time: `Simulator.wait` converts with `int(time/timescale)`. The model works in integer ticks and keeps only the `max(1, …)` of the wait.
- Logging: `_update_log` records `(signal, value)` in a trace instead of calling the type's `log`. The `force` flag (never set by the engine) is not modelled. `log_initial_value`, `log_initial_values`, `register` and `register_alias` are not modelled; they only call the logger.
- `src/sysim/core.py`, `src/sysim/types.py`, `src/sysim/logging.py`: the global simulator handle, type adapters and VCD writer are not part of this model.
- `Struct` signals and `SubSignal`, `Signal.__call__`, and the `signal`/`input`/`output` factories are not modelled.
- Signal values are integers or None. Other Python values, compared by `!=` and truthiness, are not modelled.
- Cyclic topologies: every propagation requires `Finite` for some depth. Graphs where a recursion never ends are excluded, not modelled (see `SignalSpec.CommitDivergesThroughInout`).
- Signals.Network.Bind: an OUTPUT port bound to a non-signal has already appended the value to its own sinks when `AttributeError` is raised. The model raises with no change.
- Python reflection: `__dict__` is the ordered `attrs` list, the metaclass is the `ModuleClass` chain, and `hasattr` finds an attribute every module has (`Elaborate.Lookup`), an instance attribute or a class member. Dict keys are strings.
- Class-level attributes of a module class are plain members: `getattr` on one yields a value that is neither a list nor a port, so binding to one raises ValueError. A subclass that redefines one of the properties of `Module` is not modelled.
- Elaborate.Lookup: Python's built-in dunder attributes (`__dict__`, `__class__`, …) are not members, so a keyword naming one raises KeyError in the model where the source raises ValueError.
- Module objects are values, so aliasing (one module reached twice) is not modelled. `_name` is recorded in `named`, in the order the names are set.
- The order in which processes are scheduled: `processes` is a set, so the model schedules a multiset of runs.
- `UrgentEvent.succeed` values are modelled as integers or None. simpy's `fail`, callbacks and `_ok` before triggering (absent in simpy, false here) are not modelled.
- The engine's event slots hold event ids, and the network's urgent queue is those ids. `Events.UrgentEvent` models one event by itself; the link is the invariant that the queue has no duplicates (`SignalSpec.CommitAllKeepsEvents`).
