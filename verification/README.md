# doze: a verified model

doze is a development daemon that starts a stack of modules, apps, services and tasks in
dependency order, wakes them on demand, and shows them in a dash. This project models the
parts of it where order, interleaving or exact arithmetic decide correctness, and proves
what they promise for every stack, every run and every input. `dafny verify dfyconfig.toml`
checks all of it.

The files, by subject:

- Dependencies. `graphs` has walks, reachability and cycles. `closure` and `boot` are the
  boot closure; `cycles`, `accept` and `topo` the two cycle searches; `edges` how references
  and `after` become edges; `equations`, `locals`, `steady`, `sorted`, `steady_sorted` and
  `decode` the evaluation of locals and of bodies in dependency order; `remember` the set a
  project remembers between runs; `live`, `live_held` and `live_names` live adds and removes.
- The subscription protocol. `control`, `control_run` and `control_exchange` are one
  connection shared by many requests; `replication`, `replication_rows`, `replication_fold`,
  `replication_run` and `replication_reach` the instances topic; `journal`, `journal_sent`, `journal_run` and
  `journal_loss` the journal topic; `meters` the kept readings.
- Source positions. `source` and `remote` blank doze's own arguments out of what a module
  reads, and move what it reports back.
- Placement. `placement` and `bindplan` are the checks at load and the address plan.
- The dash and the command line. `shares`, `layout` and `layout_room` are the console layout, `chart` the
  plot, `loglines` the log follower, `overrides` the per-developer override bodies.

Imperative code is a method or a class, with an array, a map or a sequence as its fields,
proved equal to a function of the old state, or against a property stated outright; the
lemmas are about those functions. The three protocols are state machines whose actions are
the program's steps between two points where another goroutine can run; their theorems
quantify over every sequence of possible actions.

## Findings

Where a promise is false of the code, the code is kept, a lemma gives the input, and another
says exactly when the promise holds.

- `cmd/doze/remember.go:155-177`: `rootsOf` lets a disabled instance that is awake hide the
  enabled one it needs, which is then dropped from the remembered set
  (`Remember.ShopLosesItsDatabase`). A set of which nothing is declared any more reads as
  everything until `down` replaces it by what is awake (`Remember.VanishedSetIsReplaced`);
  and so does an up of a disabled instance, which `cmd/doze/up.go:48-52` lets through
  (`Remember.UpOfDisabledStartsEverything`). The comment at `cmd/doze/remember.go:20-23` says
  neither `up` nor `down` shrinks the set; `Remember.UpIsRecalledIff` and
  `Remember.DownNeverShrinksIff` say when the set comes back, for any names and any record;
  where no enabled block needs a disabled one, it is exactly the enabled names that do
  (`Remember.UpIsRecalledIffEnabled`).
- `internal/daemon/dynamic.go:309-315`: an add whose boot fails leaves a block that clients
  reach in the endpoints manifest, and a fronted one its listener, address and routes; one
  whose listener fails leaves the address claimed for it, and no lease to release it by
  (`Live.FailedAddsThatLeaveSomething`, `Live.FailedAddIsUndoneIff`). The listener left
  stays open, no remove finds it, and the same add cannot come through again
  (`LiveNames.LeftListenerStays`, `LiveNames.LeftListenerIsNotFound`).
- `internal/daemon/dynamic.go:182-184`: a live add checks that its name is new and not that
  its label is. Two blocks of one label share a published name, and removing either, or a
  boot of either that fails, takes it from the other (`LiveNames.TwinLosesItsName`). Nor is a
  live add needed: the check at load skips disabled blocks (`internal/config/domains.go:75`),
  and a remove of a disabled one withdraws a name an enabled one publishes
  (`internal/daemon/dynamic.go:256-258`, `LiveNames.DisabledTwinTakesTheName`). Names are
  right over a run exactly when they are at its start and no enabled block's is ever shared
  (`LiveNames.NamesAlwaysRightIff`).
- `internal/daemon/subscribe.go:64-67` says a subscriber cannot miss a change. A change that
  does not signal (`internal/registry/registry.go:218-223`; a fronted block added live,
  `internal/daemon/dynamic.go:184`) stays unseen until another one does
  (`ReplicationRun.SilentChangeIsUnseen`, `ReplicationRun.SettledShowsNowIff`).
- `internal/display/clean.go:59-68` cleans the name a row is listed under, and a removal
  carries the name as declared: the row is dropped exactly when cleaning leaves the name as
  it is (`ReplicationRun.UncleanRowOutlivesItsInstance`).
- `internal/daemon/subscribe.go:144-190`: the repair waits for the next event, so when the
  full feed drops the newest event it stays unseen until another is recorded
  (`JournalLoss.QuietClientMayLackTheNewest`, `JournalRun.QuietClientIsCaughtUpIff`).
- `internal/config/vars.go:195-257`: a local that reads all of `local`, or that asks whether
  it is itself known, may end with a value its expression does not have
  (`Locals.UntrackedReadIsNoSolution`, `Steady.SelfReadIsNoSolution`). The expressions this
  cannot happen to, in any stack whose names are visited sorted, are exactly the ones steady
  in order (`SteadySorted.SteadyInOrderIffAlwaysHolds`).
- `internal/daemon/bindplan.go:47`: the host of a `listen` override is not looked at, so two
  instances that pass the check at load are given one address when a port of one, main or
  not, is a port of the other (`BindPlan.OtherHostsCollide`, `BindPlan.ListenHostIsIgnored`).
- `internal/config/overrides.go:108-136`: an override that sets an argument nothing reads is
  not reported, such as a `port` on a task (`Overrides.TaskPortIsSilent`,
  `Overrides.TaskOverrideIsReportedIff`, `Overrides.SameProblemsIffAllRead`).
- `internal/config/eval.go:403-405`: an argument that an override replaces still gives its
  block a dependency on what it named (`Overrides.ReplacedReferenceStays`,
  `Overrides.SameReferencesIff`).

## Model

| member | source | states |
|---|---|---|
| `Boot.BootOrder` | session.go:294-316 | the boot order is the closure of the targets in the graph of declared dependencies, whose properties are the next rows |
| `Boot.ClosureWalk.Visit` | cmd/doze/up.go:275-297 | one visit leaves the visited set and the order the recursive walk leaves, on any graph, cyclic or not; it terminates because fewer declared names stay unvisited |
| `BootClosure.ClosureIsReachable` | session.go:294-316 | on any graph, cyclic or not, the closure is exactly the declared names reachable from the targets, each once |
| `BootClosure.ClosureOrdersIffOffCycles` | cmd/doze/up.go:275-297 | every dependency comes before its dependents if and only if no instance in the closure is on a cycle |
| `BootClosure.LateDependencyIsOnCycle` | session.go:294-316 | a dependency that does not come first depends, itself, on its dependent |
| `Accept.CheckCycles` | internal/config/runnable.go:629-685 | the check passes if and only if no block mentions itself through others; a cycle it reports is a walk along real mentions whose last name already occurs on it |
| `Accept.CycleCheck.Visit` | internal/config/runnable.go:629-685 | one visit of the three-colour search does to the colours what the search does, and returns the stack on a grey name |
| `Accept.CollectEdges` | internal/config/runnable.go:629-685 | the edges searched are exactly what blocks mention: dependencies, references and `after` entries |
| `Accept.AcceptedStackBootsDependenciesFirst` | internal/config/runnable.go:629-685 | a stack the check accepts boots, for any targets, exactly the declared names reachable from them, each once, every dependency before its dependents |
| `Accept.AcceptedStackIsAcyclic` | internal/config/runnable.go:629-685 | the dependency graph of an accepted stack has no cycle |
| `CycleSearch.SearchFailsIffCyclic` | internal/config/runnable.go:629-685 | a search that starts from every name fails if and only if the graph has a cycle, and then reports a walk whose last name already occurs on it |
| `CycleSearch.SettledOrder` | internal/config/eval.go:442-478 | a search that succeeds leaves every name searched for in its order once, with dependencies first, and nothing that is not reached from them |
| `CycleSearch.SortReportsWalk` | internal/config/eval.go:442-478 | from any consistent point of a search, a reported cycle continues the stack along real edges back onto itself |
| `Topo.TopoOrder` | internal/config/eval.go:442-478 | fails exactly when the pending blocks' graph has a cycle, with a walk that closes on itself; otherwise returns a permutation of them with dependencies first |
| `Topo.TopoSearch.Visit` | internal/config/eval.go:442-478 | one visit of the search over pending blocks does to the colours and the order what the search does |
| `Edges.ParseAfter` | internal/config/runnable.go:549-595 | `after` is accepted exactly when each entry is a reference or a known wait around one; the condition on a name is the one its last wait asks for |
| `Edges.ReadableIff` | internal/config/runnable.go:549-595 | an `after` list is accepted exactly when every entry is a reference or one call of `started`, `lazy`, `ready` or `healthy` around one, and its references are those written |
| `Edges.WaitedIs` | internal/config/runnable.go:549-595 | a block is waited for until it is started, or not before it is needed, exactly when the last `started` or `lazy` entry of its name says so, and until it is healthy otherwise |
| `Edges.InstanceDeps` | internal/config/eval.go:335-387 | a block that reads its own attributes is refused; any other has the dependencies its references and `after` entries name, as in the rows below |
| `Edges.BootEdges` | internal/config/runnable.go:459-478 | derives the very list InstanceDeps does from the same references, `after` entries and waits, in whatever order the waits are taken |
| `Edges.FirstMentionOrder` | internal/config/eval.go:335-387 | dependencies are in the order of first mention |
| `Edges.IsolatedBlockHasNoDependencies` | internal/daemon/dynamic.go:147-178 | a block decoded alone, which can name only itself, has no dependencies |
| `Remember.RootsOf` | cmd/doze/remember.go:153-177 | the roots are the enabled members no other member needs, in declaration order, whatever order the set is walked in |
| `Remember.RootsStartTheSame` | cmd/doze/remember.go:153-177 | for enabled names of an accepted stack, the boot closure of the roots has the same names as the boot closure of the set |
| `Remember.WantedIff` | cmd/doze/remember.go:153-177 | for any set, a declared instance is started by its roots exactly when some root of its enabled members reaches the instance and no disabled member needs that root |
| `Remember.LengthTestIsSetTest` | cmd/doze/remember.go:36-39 | for enabled names, equal lengths mean equal sets |
| `Remember.EverythingIsRecordedAsNothing` | cmd/doze/remember.go:179-188 | up of enabled names is recorded as nothing exactly when there are none or they start everything; a set is recorded otherwise, and starts what they do |
| `Remember.Project.RememberUp` | cmd/doze/remember.go:179-188 | up records the roots of what was asked for and what was awake, or nothing when they start everything |
| `Remember.Project.RememberDown` | cmd/doze/remember.go:190-206 | down adds what was awake to what is still declared, unless there is nothing to add or everything was started |
| `Remember.Project.LastSet` | cmd/doze/remember.go:52-66 | what is recalled is what is still declared and enabled, unless that is nothing or starts everything |
| `Remember.UpIsRecalledIff` | cmd/doze/remember.go:179-188 | for any names, disabled ones among them, what up recorded starts, next time, the same boot closure exactly when each declared name is reached from a root no disabled member hides; or, with no root, when the names and everything start each other |
| `Remember.UpIsRecalledIffEnabled` | internal/config/eval.go:160-177 | where no enabled block depends on a disabled one, which the check at load sees to among modules and apps, non-empty declared names are recalled exactly when all of them are enabled |
| `Remember.EnabledUpIsRecalled` | cmd/doze/remember.go:179-188 | enabled names, one at least, are always recalled |
| `Remember.UpOfDisabledStartsEverything` | cmd/doze/up.go:46-75 | an up of a disabled instance records nothing, which starts everything next time, even what the instance does not need |
| `Remember.DownNeverShrinksIff` | cmd/doze/remember.go:190-206 | down loses nothing the record would start exactly when every name the record stands for is still reached from a root no disabled member hides, or the new record stands for everything |
| `Remember.DownNeverShrinks` | cmd/doze/remember.go:190-206 | in particular when some of the record is still declared and no disabled awake member needs an enabled one |
| `Remember.DisabledLeaveRootsAloneIff` | cmd/doze/remember.go:153-177 | disabled members leave the roots as they are if and only if none of them needs one |
| `Remember.DisabledAwakeDependantShrinksTheSet` | cmd/doze/remember.go:190-206 | in any stack of that shape down forgets an instance that up recorded |
| `Remember.ShopLosesItsDatabase` | cmd/doze/remember.go:190-206 | such a stack: down forgets the database because the disabled web was awake |
| `Remember.VanishedSetIsReplaced` | cmd/doze/remember.go:52-66 | a record of which nothing is declared any more starts everything, and after a down only what was awake |
| `Equations.FoldIffSolution` | internal/config/vars.go:195-257 | evaluating a system in any order that puts mentions first succeeds exactly when the system has a solution, and gives that solution, which is the only one |
| `Locals.EvaluateLocals` | internal/config/vars.go:195-257 | the recursive evaluation, for any order of the blocks, reports what the search-and-evaluate function does, and leaves its environment when that succeeds |
| `Locals.Evaluation.Visit` | internal/config/vars.go:195-257 | one visit evaluates what a local mentions first, skips itself, and reports a cycle or a failed expression |
| `Locals.LocalsAreTheSolution` | internal/config/vars.go:195-257 | evaluation succeeds with an environment exactly when no local needs itself through others and every local has in it the value its expression has among the others; so the result is unique, whatever the block and visiting order |
| `Locals.SolvedApartIsSolutionIff` | internal/config/vars.go:226-238 | that environment solves every local in itself exactly when no expression that mentions its own name can tell that it is there |
| `Locals.CyclicLocalsReportWalk` | internal/config/vars.go:195-257 | a reported cycle is a walk along real mentions whose last name already occurs on it |
| `Locals.FailingLocalFails` | internal/config/vars.go:195-257 | a refusal for a value names a local whose expression fails once the others it mentions are known |
| `Locals.UntrackedReadIsNoSolution` | internal/config/vars.go:195-257 | a local that reads the whole of `local` can be evaluated to a value it does not have in the final environment |
| `Steady.SteadyIffAlwaysHolds` | internal/config/vars.go:195-257 | an expression ends with the value it has in the final environment, in every system and whatever the visiting order, exactly when it is steady: knowing more than what it mentions, and its own value, does not change it |
| `SteadySorted.SteadyInOrderIffAlwaysHolds` | internal/config/vars.go:217-256 | the same for names visited sorted, as they are: exactly when that holds wherever the local can come to be evaluated, which for the first name of all is only after what it mentions |
| `SteadySorted.SteadyInOrderHolds` | internal/config/vars.go:217-256 | such an expression holds in every system so visited |
| `SteadySorted.UnsteadyInOrderFails` | internal/config/vars.go:217-256 | for any other there is a system, sorted, in which it does not |
| `Steady.SteadyLocalsAreASolution` | internal/config/vars.go:195-257 | where every expression is steady the result solves the system |
| `Steady.TrackedIsSteady` | internal/config/vars.go:229-238 | an expression that reads only what it mentions, and not itself, is steady |
| `Steady.SelfReadIsNoSolution` | internal/config/vars.go:229-238 | a local that asks whether it is itself known ends with a value it does not have |
| `Steady.UnreadSelfMentionIsAccepted` | internal/config/vars.go:229-238 | a local that mentions itself where it is not read is accepted, and solved |
| `Decode.Evaluate` | internal/config/eval.go:144-212 | decoding succeeds exactly when the pending blocks have no cycle, no enabled block depends on a disabled one, and the bodies have a solution; then the attributes are that solution, the only one, whatever order the blocks were written in; a cycle is reported whenever there is one, a disabled dependency when there is no cycle, and else a body that does not decode against what it references |
| `Decode.DecodedIsSolution` | internal/config/eval.go:144-212 | decoding in an order with references first finds a solution whenever there is one |
| `Decode.FindBlocked` | internal/config/eval.go:144-212 | a disabled dependency of an enabled block is found whenever there is one |
| `Decode.NoneBlockedIff` | internal/config/eval.go:160-177 | no block is blocked exactly when every dependency of an enabled block on a block of the list is on an enabled one |
| `Live.Config.Add` | internal/config/config.go:159-171 | appends in a fresh array, so no list returned before changes; the index stays the name map exactly when the name is new |
| `Live.Config.Remove` | internal/config/config.go:173-190 | drops the name from list and index, in a fresh array, and keeps the index exact |
| `Live.Config.Lookup` | internal/config/config.go:143-148 | finds a name exactly when an instance has it |
| `Live.RemoveUndoesAdd` | internal/config/config.go:159-190 | a remove after an add under a new name gives back the list and the index |
| `Live.Daemon.AddInstance` | internal/daemon/dynamic.go:147-230 | an add declares its block exactly when every step comes through, and otherwise leaves the configuration as it was; what each outcome leaves in the listeners, addresses, routes, consoles, published names, leases, claims, front door and manifest |
| `Live.Daemon.RemoveInstance` | internal/daemon/dynamic.go:235-273 | a remove drops the instance and its own domain from the configuration and from all of those, releases its name, and writes the manifest anew |
| `Live.Daemon.RepublishDomains` | internal/daemon/dynamic.go:320-357 | every published name no other program holds is claimed and leased; every other lease is released, its route with it |
| `Live.Daemon.WriteManifest` | internal/daemon/dynamic.go:359-386 | the manifest lists exactly the declared instances with an address, and the front door serves the apps whose names are claimed |
| `Live.AddKeepsSynced` | internal/daemon/dynamic.go:147-230 | an add that comes through keeps leases, front door and manifest in step with the configuration |
| `Live.RemoveKeepsSynced` | internal/daemon/dynamic.go:235-273 | so does every remove |
| `LiveHeld.SyncedMeans` | internal/daemon/dynamic.go:213-218 | in step, the manifest lists exactly the instances clients reach, and the front door serves exactly the claimed names that enabled apps ask it for |
| `LiveHeld.AddedOwn` | internal/daemon/dynamic.go:188-231 | an add that comes through, or fails at its boot, holds a listener, its address, routes and console for a block doze fronts; any other holds nothing |
| `LiveHeld.RemovedOwn` | internal/daemon/dynamic.go:247-262 | a remove leaves nothing held under its name |
| `LiveHeld.OthersAreUntouched` | internal/daemon/dynamic.go:147-273 | neither changes what is held under any other name, whatever comes of it |
| `LiveHeld.WhatStopsAnAdd` | internal/daemon/dynamic.go:188-230 | when an add has no port, no address, a listener that does not open, or a boot that fails |
| `Live.FailedAddIsUndoneIff` | internal/daemon/dynamic.go:309-315 | in a daemon in step with its configuration, a failed add leaves what is held as it was exactly when it was stopped before the listener, or at the listener with no new address claimed, or at the boot of a block clients do not reach |
| `Live.FailedBootLeaves` | internal/daemon/dynamic.go:223-230 | a failed boot leaves a reached block in the manifest, and a fronted one its listener, address and routes |
| `Live.FailedAddsThatLeaveSomething` | internal/daemon/dynamic.go:195-230 | one add of each kind, to a daemon that holds nothing |
| `Live.RemoveUndoesLiveAdd` | internal/daemon/dynamic.go:147-273 | removing what was just added gives back all that was held, in a daemon in step with its configuration and its names published |
| `Live.LiveStackBootsDependenciesFirst` | internal/daemon/dynamic.go:147-273 | after any run of adds of isolated blocks and removes, an acyclic stack is still acyclic, and boots dependencies first for any targets |
| `Live.LiveRunAddsNoEdge` | internal/daemon/dynamic.go:147-273 | such a run adds no edge |
| `LiveNames.RunIsIndexed` | internal/daemon/dynamic.go:147-273 | over any run of live adds and removes the name index is the name map of what is declared then |
| `LiveNames.NamesAlwaysRightIff` | internal/daemon/dynamic.go:147-273 | over any run of live adds and removes, every enabled instance's name resolves to where that instance is reached, and would after any remove more, exactly when names are right at the start, no enabled instance ever shares its name with another declared one, enabled or not, and no block is tried under a name an enabled one publishes |
| `LiveNames.AddKeepsNamesIff` | internal/daemon/dynamic.go:208-218 | an add keeps the names of enabled instances right exactly when every enabled one that publishes the added name is reached at the same address |
| `LiveNames.FailedAddKeepsNamesIff` | internal/daemon/dynamic.go:309-315 | a failed boot keeps them right exactly when no enabled instance publishes its name; any other failure always does |
| `LiveNames.RemoveKeepsNamesIff` | internal/daemon/dynamic.go:254-258 | a remove keeps them right exactly when no other enabled instance publishes the name of the one removed, which may be disabled |
| `LiveNames.TwinLosesItsName` | internal/daemon/dynamic.go:254-258 | two live apps, orders-pg and orders_pg, have one label: after a remove of one the other is published no more |
| `LiveNames.DisabledTwinTakesTheName` | internal/config/domains.go:68-92 | a stack with one of the two disabled passes the check at load, and a remove of the disabled one leaves the other unpublished |
| `LiveNames.FailedBootLeavesListener` | internal/daemon/dynamic.go:221-230 | a failed boot of a fronted block leaves a listener of a block that is not declared |
| `LiveNames.LeftListenerIsNotFound` | internal/daemon/dynamic.go:237-240 | a remove of that name does not find it and changes nothing |
| `LiveNames.LeftListenerStays` | internal/daemon/dynamic.go:237-273 | it stays over any run of adds and removes, unless a block of its name asks for another address |
| `ControlRun.DoReturnsItsOwnAnswer` | internal/control/client.go:170-193 | over any interleaving of the requests on a connection, Do returns only the answer the daemon made for the request it was given, and never finds another kind of frame |
| `ControlRun.StreamHandsItsOwnFrames` | internal/control/client.go:195-240 | Stream gives its callback a prefix of the frames its own handler emitted, in order, after the acknowledgement and before the end; all of them when the daemon ended it, whose error it returns; a refused stream gives none |
| `ControlRun.ReaderStuckIff` | internal/control/client.go:102-125 | the reader cannot move a frame only when a stream still waiting has a full inbox; a request with one answer never holds it up |
| `ControlRun.ForgottenFramesPass` | internal/control/client.go:102-125 | frames for forgotten ids pass by the reader's own steps, changing nothing for the others |
| `ControlExchange.AnyAnswerIsReturned` | internal/control/client.go:168-190 | on an idle connection a request with one answer can get any answer, and Do returns it |
| `ControlExchange.AnyStreamIsHandedOver` | internal/control/client.go:192-240 | on an idle connection a stream of events, a followed log or a subscription can be acknowledged, hand over any frame, and end with any error |
| `ControlExchange.FailingCallbackStops` | internal/control/client.go:224-229 | a callback that fails ends its stream, and the daemon is told while it can be |
| `ControlExchange.AnyCallerMayGiveUp` | internal/control/client.go:185-186 | a caller may give up at any time; the daemon is told of a stream and goes on with anything else |
| `ControlExchange.LeftIsForgotten` | internal/control/client.go:150-157 | a caller that has left is forgotten, whatever it left unread, and holds nothing up |
| `ControlExchange.QuitStreamsAreStopped` | internal/control/client.go:192-240 | over any run, the daemon stops only streams whose callback failed or context ended, and on an open connection every such stream has been stopped or the message that stops it is on its way |
| `ControlExchange.RefusedSubscriptionGetsAnError` | internal/control/server.go:153-167 | over any run, a subscription with no topic or an interval that does not read is given nothing, and its answer is an error |
| `ControlExchange.UnsentIsNeverBegun` | internal/control/client.go:130-148 | over any run, a request that could not be sent is never begun, and no caller is told the connection closed before it did |
| `ControlExchange.UnsentIsReported` | internal/control/client.go:130-148 | a request can fail to be sent at any time, which its caller is told at once |
| `ControlExchange.BrokenConnectionFreesCallers` | internal/control/client.go:121-125 | a connection that breaks frees every caller that waits |
| `ControlExchange.StoppedStreamEndsQuietly` | internal/control/server.go:146-150 | a stream that was stopped ends without an error, any other with any |
| `ControlRun.RunKeepsInv` | internal/control/server.go:65-188 | every interleaving keeps ids unique, and loses or reorders nothing a request still waits for |
| `ControlRun.StepKeepsInv` | internal/control/client.go:102-160 | every single step does |
| `ControlRun.FlowingStep` | internal/control/client.go:102-160 | no step loses or reorders what a request that waits has taken, holds in its inbox or has on its way |
| `ControlRun.WorkedStep` | internal/control/server.go:122-188 | the daemon says of a request one answer, or an acknowledgement, frames, an end and perhaps stragglers, for the request that was asked under that id |
| `Replication.Diff` | internal/daemon/subscribe.go:68-98 | the frame carries the instances that are new or changed and the names that are gone, and `last` becomes what is now |
| `Replication.Model.Apply` | internal/dash/app.go:512-543 | in place, a snapshot replaces the rows, a view replaces the row of its name or is appended, a removal drops the row of its name, a reading sets meters |
| `ReplicationRows.StatsSetMeters` | internal/dash/app.go:544-553 | after a stats frame each row has the meters of the last reading of its name, or its own when there is none; names, bodies and order stay |
| `ReplicationRows.UpsertsLayOver` | internal/dash/app.go:521-532 | a row that a view names is that view as it is drawn, in its place; other rows are left alone; views of new names follow in their order |
| `ReplicationRows.RemovalLeaves` | internal/dash/app.go:535-543 | removals leave exactly the rows not named, in their order |
| `ReplicationRows.FrameRows` | internal/dash/app.go:516-543 | after a frame of changes the rows are exactly its views as they are drawn and the rows no view was laid over, less those removed |
| `ReplicationRows.SnapshotRows` | internal/dash/app.go:515-519 | a snapshot's rows are its views as they are drawn, in their order |
| `ReplicationRows.DiffRows` | internal/daemon/subscribe.go:72-95 | rows that were what was last sent, as it is drawn and with its meters, are after a difference what is sent now |
| `Replication.ChangedViewsHold` | internal/daemon/subscribe.go:75-83 | exactly the new and the changed instances are sent |
| `ReplicationFold.DiffShows` | internal/daemon/subscribe.go:68-98 | applying a difference to rows that show what was last sent makes them show what is now, one row to a name |
| `ReplicationFold.SnapshotShows` | internal/dash/app.go:515-520 | a snapshot shows exactly what it carries, whatever was shown before |
| `ReplicationRun.RunKeepsInv` | internal/daemon/subscribe.go:68-107 | over any run each frame on the wire brings its reader to the version it was made from, versions only go forward, and no announced change is overlooked |
| `ReplicationRun.ClientShowsOneVersion` | internal/dash/app.go:512-543 | at any moment of any run the client shows, whole and one row to a name, some state the registry was in, and later never an older one, across reconnects too |
| `ReplicationRun.SettledShowsNowIff` | internal/daemon/subscribe.go:99-106 | when the daemon waits with no wake latched and all is read, the client shows the version last looked at, which is no older than any announced one; so after an announced change it shows what is now, and after silent ones exactly when they make no difference |
| `ReplicationReach.ConnectedClientIsShownAll` | internal/daemon/subscribe.go:68-95 | a client that connects, whatever it showed before, can be shown what the registry holds |
| `ReplicationReach.AnnouncedChangeArrives` | internal/daemon/subscribe.go:68-107 | from any state in which both wait, an announced change wakes the daemon, which sends what changed; the client then shows it, and both wait again |
| `ReplicationReach.EmptyChangeSendsNothing` | internal/daemon/subscribe.go:90-95 | an announced change that makes no difference sends nothing |
| `ReplicationReach.ReadingIsPassedOn` | internal/daemon/subscribe.go:111-138 | a reading is passed on whatever the daemon is about |
| `ReplicationRun.SilentChangeIsUnseen` | internal/registry/registry.go:215-223 | a run in which a change that does not announce itself is never seen |
| `ReplicationRun.UncleanRowOutlivesItsInstance` | internal/display/clean.go:58-68 | a removal drops the row exactly when the name was drawn as it is |
| `Journal.SubJournal` | internal/daemon/subscribe.go:144-190 | what is sent is the past, and then for each live event the events missed before it, read back from disk, and the event itself when it is new |
| `JournalSent.SentIsInOrder` | internal/daemon/subscribe.go:144-190 | whatever the live feed carries, dropped, repeated or already read, what is sent is strictly increasing, ends in the newest event of all, and is exactly the past, each live event newer than everything before it, and of what the disk answers what falls between the two |
| `JournalSent.SentIsConsecutive` | internal/daemon/subscribe.go:166-180 | when the disk answers with everything missed, what is sent has no gap |
| `JournalSent.LastIsNewest` | internal/daemon/subscribe.go:162-188 | the loop's last event is the newest of those it started from and those the feed carried |
| `JournalRun.ClientLacksOnlyWhatTheDiskLost` | internal/daemon/subscribe.go:144-190 | over any interleaving of recording, rotation, feed drops, reads, sends, deliveries, cuts and reconnects, what a client has received is strictly increasing, and between its first and its last it lacks exactly what a disk read found gone |
| `JournalRun.KeptRangesArriveConsecutively` | internal/dash/app.go:673-690 | when the disk kept every range read from it, the events received are consecutive over any number of reconnects |
| `JournalRun.QuietClientIsCaughtUpIff` | internal/journal/journal.go:139-145 | when the daemon has nothing left to send the client has the newest event the feed took or the disk was read for, which is the newest of all exactly when the feed did not drop that one |
| `JournalLoss.QuietClientMayLackTheNewest` | internal/daemon/subscribe.go:165-190 | a run from the start that ends with nothing left to send and a client without the newest event, which the disk has |
| `JournalLoss.ForgottenEventIsLost` | internal/journal/journal.go:139-145 | a run from the start in which the disk forgets an event while the client is away, which then goes from the one before it to the one after |
| `JournalRun.RunKeepsInv` | internal/dash/connection.go:38-67 | what every such run keeps: order in the queue and the stream, the resume point, and no hole but what the disk lost for good |
| `Remote.BlankCoreArguments` | internal/config/kinds.go:184-216 | exactly the bytes of doze's own arguments become spaces, and newlines stay, whatever order the arguments are visited in |
| `Source.LineSpan` | internal/config/remotediag.go:104-127 | gives line n exactly when there is one: from where n-1 newlines have passed to before its newline and carriage return |
| `Source.LineIs` | internal/config/remotediag.go:104-127 | its text holds no newline, and stops before one, before a carriage return and one, or where the file does |
| `Source.LineBeginsOnce` | internal/config/remotediag.go:104-127 | a line begins in one place |
| `Remote.MoveByLine` | internal/config/remotediag.go:85-102 | moves a position exactly when its line reads the same in both files and it is on it, to the same offset of that line |
| `Remote.MovesBack` | internal/config/remotediag.go:85-102 | moving is undone by moving the other way |
| `Remote.MovesOnce` | internal/config/remotediag.go:85-102 | a position moves to one place only |
| `Remote.MovesInOrder` | internal/config/remotediag.go:85-102 | positions that move keep their order |
| `Remote.BlankedPositionMovesIff` | internal/config/kinds.go:181-216 | a position in what a module reads moves to the user's file exactly when blanking left its line as it was, and is then where it was |
| `Remote.BlanksKeepLines` | internal/config/kinds.go:181-216 | blanking keeps the number of lines |
| `Remote.RemoteRange` | internal/config/remotediag.go:50-83 | a range points at the same text of an identical line; or else at the block's own header when that is its line; or else at its whole line when there is one |
| `Remote.NoMadeUpName` | internal/config/remotediag.go:55-58 | a range under no file name, or the one an older module makes up, is in the block's own file, and any other is where it says |
| `Remote.UnmappedPointsAt` | internal/config/remotediag.go:70-83 | a range without an identical line points at the header exactly when it begins on the header's line, and else at its whole line, from its first column to the end of its text |
| `Remote.RemoteRangeStaysOnItsLine` | internal/config/remotediag.go:50-83 | a range in order points at the line it was reported on, in bounds, with its end no earlier than its start |
| `Placement.ValidatePorts` | internal/config/validate.go:29-60 | no error exactly when every enabled block has an address or needs none and, without names, no two ask for one address; every error is about blocks that are as it says |
| `Placement.PortsFineIff` | internal/config/validate.go:29-60 | ports are fine exactly when every enabled block listens somewhere, has a port or needs none and, without names, no address is asked for by two: the one a block listens on or its port at 127.0.0.1, and each other listener's port on the same host |
| `Placement.ValidateDomains` | internal/config/domains.go:69-89 | passes exactly when names are off or no two enabled names have one label; a conflict it reports is between two enabled blocks that publish the name it gives |
| `Placement.DomainLabel` | internal/config/domains.go:25-38 | the label is the name with everything but letters and digits made a hyphen, and no hyphen at either end |
| `Placement.LabelIsWellFormed` | internal/config/domains.go:25-38 | a label has only letters, digits and inner hyphens, and names that are labels already are left alone, and only those |
| `Placement.LabelIs` | internal/config/domains.go:25-38 | the label is a part of the name with all of its letters and digits, and a hyphen for whatever else is between them |
| `Placement.DomainIs` | internal/config/domains.go:63-67 | an instance is published as the label of its name, in its stack, in `.doze` |
| `Placement.SameDomainIff` | internal/config/domains.go:63-67 | two instances publish one name exactly when their names have one label |
| `BindPlan.BuildBindPlan` | internal/daemon/bindplan.go:29-92 | a plan is made exactly when every address is granted and, on one shared address, no two instances use one port; it binds each placed instance on its own port at its address; a refusal names an instance that was refused its address, or two that use the port |
| `BindPlan.PlanIsInjective` | internal/daemon/bindplan.go:29-92 | after both checks at load, a plan gives two instances placed by `port` no address in common, main port or other listener, in all three modes, and with names on whatever placed them |
| `BindPlan.OwnAddressesDiffer` | internal/daemon/bindplan.go:60-66 | with an address for each, no two instances share one |
| `BindPlan.NamesResolveToTheirInstance` | internal/daemon/bindplan.go:87-89 | a published name resolves to the address its instance is bound at |
| `BindPlan.ServedWhere` | internal/daemon/bindplan.go:53-86 | an enabled block doze listens for is bound on its own port, at the address claimed for its name when names are on and the machine gives addresses, at 127.0.0.1 otherwise |
| `BindPlan.NothingElseIsBound` | internal/daemon/bindplan.go:39-52 | nothing else is bound: not what binds its own port, is disabled or has no port |
| `BindPlan.DirectNamesResolveToLoopback` | internal/daemon/bindplan.go:46-52 | an app that binds its own port is not bound, and its name resolves to 127.0.0.1 |
| `BindPlan.ResolvesExactlyPublished` | internal/daemon/bindplan.go:29-92 | a plan resolves exactly the names of enabled blocks with a port, and none without names |
| `BindPlan.ListenHostIsIgnored` | internal/daemon/bindplan.go:41-86 | where instances do not get an address each, two of them have no address in common exactly when they have no port in common, main or other, whatever hosts were asked for |
| `BindPlan.OtherHostsPassTheCheck` | internal/config/validate.go:29-60 | two blocks on one port of two hosts pass the check |
| `BindPlan.OtherHostsCollide` | internal/daemon/bindplan.go:41-86 | two blocks with different main ports, of two hosts, that pass the check and are given one address by the plan |
| `Layout.DrawNode` | internal/dash/blocks.go:64-92 | draws the picture of a node, in any width and height, and terminates |
| `Layout.DrawRow` | internal/dash/blocks.go:107-148 | a row draws its children side by side in their widths, or one under the other when it is narrow |
| `Layout.DrawCol` | internal/dash/blocks.go:150-218 | a column draws its children one under the other in their heights, cut or filled to its own |
| `Layout.PictureFills` | internal/dash/blocks.go:64-218 | every picture is exactly as many rows as the height, each exactly as wide as the width |
| `Layout.WidthsFillRow` | internal/dash/blocks.go:117-129 | a row's widths and the cells between add up to its width |
| `Layout.HeightsFillColumn` | internal/dash/blocks.go:158-201 | a column's heights add up to its height when a child takes what is left and the rest fits; otherwise to what was asked for |
| `Layout.RowTiles` | internal/dash/blocks.go:130-148 | every line of every child of a row is there, where the child begins, after a space |
| `Layout.ColumnTiles` | internal/dash/blocks.go:202-218 | every child of a column that fits is drawn whole, as tall as it was given, below the ones before it |
| `Layout.ColumnShowsChild` | internal/dash/blocks.go:202-218 | in any column, what is drawn of a child is its picture in the room left for it |
| `LayoutRoom.WidthsAreFair` | internal/dash/blocks.go:117-129 | in a row each child but the last has its weight's part of the cells, rounded down, and the last no less |
| `LayoutRoom.StretchedHeightsAreFair` | internal/dash/blocks.go:165-201 | in a column tables, streams, rows and columns share by weight, rounded down, what is left; next to a stream, only what holds one |
| `LayoutRoom.OthersAreAsTallAsTheyAsk` | internal/dash/blocks.go:165-180 | any other child is as tall as it asks to be; next to a stream no taller than half the column or than five rows |
| `LayoutRoom.RestIsLeft` | internal/dash/blocks.go:181-184 | what is shared is the height less what the other children are given |
| `LayoutRoom.HasStreamIff` | internal/display/console.go:110-118 | a node holds a stream exactly when there is one at it or anywhere inside it |
| `LayoutRoom.ColumnAsksForAll` | internal/dash/blocks.go:52-57 | a column asks for what its children ask for together |
| `LayoutRoom.RowAsksForTallest` | internal/dash/blocks.go:46-51 | a row asks for what the tallest of its children asks for in an even part of the width |
| `LayoutRoom.LeavesAskForContent` | internal/dash/blocks.go:22-60 | a note, a detail or a table asks for its content and the frame around it, the others for a height of their own |
| `LayoutRoom.ColumnAtItsHeight` | internal/dash/blocks.go:152-218 | a column of blocks that do not stretch, given the height it asks for, draws each of them whole, as tall as it asks to be |
| `LayoutRoom.NestingIsLimited` | internal/dash/blocks.go:68-70 | a row or column more than three deep is a card whatever is in it, and any other block is drawn as itself |
| `LayoutRoom.NothingIsBlank` | internal/dash/blocks.go:65-67 | a rectangle too small to draw in, and a row or column of nothing, are left blank |
| `LayoutRoom.NarrowRowIsColumn` | internal/dash/blocks.go:113-116 | a row with less than twenty cells to a child is drawn as the column of its children |
| `LayoutRoom.ColumnEndsBlank` | internal/dash/blocks.go:213-218 | below its children a column is blank |
| `Shares.SplitFillsRoom` | internal/dash/blocks.go:117-129 | shares by weight, rounded down, with what is left given to the last, add up to the room |
| `Shares.SplitIsFair` | internal/dash/blocks.go:121-129 | every share but the last is its weight's part of the room rounded down, and the last is no less than that |
| `Chart.Plot` | internal/dash/chart.go:44-107 | the rows are as many and as wide as asked, and each cell shows its column's level at its height |
| `Chart.EachReadingInOneColumn` | internal/dash/chart.go:58-78 | each reading plotted is in exactly one column |
| `Chart.ShortHistoryEndsAtTheEdge` | internal/dash/chart.go:57-65 | a history with a cell to each reading is drawn reading by reading, the newest at the right edge, with nothing before it began |
| `Chart.LongHistoryIsMerged` | internal/dash/chart.go:66-77 | a longer one is drawn two readings to a column, counted from the newest, each column as high as the higher of its two |
| `Chart.HighestIsDrawn` | internal/dash/chart.go:40-43 | the highest reading plotted is drawn at its level in some column, and no column is higher |
| `Chart.LevelsInOrder` | internal/dash/chart.go:79-90 | higher readings are never drawn lower |
| `Chart.LevelIsSeenIff` | internal/dash/chart.go:79-90 | a reading is drawn exactly when it is above the bottom of the scale, and one at the top fills the column |
| `Chart.LevelIsNearest` | internal/dash/chart.go:79-90 | within the scale a level is the nearest there is, the upper one of two, but for a reading too low to be seen at that, which is drawn as the least |
| `Chart.ColumnReadsBack` | internal/dash/chart.go:91-107 | the eighths of a column add up to its level, full below the one cell it ends in and empty above |
| `LogLines.Follower.ReadNewLines` | cmd/doze/up.go:233-259 | each look reports what turns the complete lines of what was read into those of the whole file, keeps the unfinished line pending, and counts the bytes read |
| `LogLines.CutsDoNotMatter` | cmd/doze/up.go:233-259 | wherever a log is cut, the looks together report the complete lines of the whole and leave its unfinished line |
| `LogLines.CompleteContinues` | cmd/doze/up.go:233-259 | more text completes the unfinished line and nothing else |
| `LogLines.LineIsReported` | cmd/doze/up.go:250-257 | a line is reported as it is, whatever returns stand before its newline, and one that is empty but for them is not |
| `LogLines.ReportedLinesAreClean` | cmd/doze/up.go:253-257 | no line reported is empty, ends in a return or holds a newline |
| `LogLines.PiecesAreText` | cmd/doze/up.go:250-251 | the pieces a text is cut into are the text, with a newline between each two and in none |
| `Meters.MeterRing.Record` | internal/daemon/meters.go:36-62 | the ring is always the last 240 of the thinning of everything ever offered |
| `Meters.ThinnedIsSpaced` | internal/daemon/meters.go:30-32 | readings kept are at least 800 ms apart |
| `Meters.ThinnedIsGreedy` | internal/daemon/meters.go:36-62 | a frame with readings is kept, with its time, names and values, when it is offered unless it comes too soon after one kept before it, and what is kept stays kept |
| `Meters.ThinnedWereOffered` | internal/daemon/meters.go:36-62 | what is kept are frames that were offered, with readings, in the order they were offered |
| `Meters.Charts.Apply` | internal/dash/app.go:544-586 | a reading already held is skipped; any other is added to its instance's values, and its time to the times, or the times are dropped when it has none; no other instance changes |
| `Meters.SeriesIsNewestAccepted` | internal/dash/app.go:544-586 | a series is the newest 240 of the readings that were not held already when they came |
| `Meters.SeriesLinesUp` | internal/dash/app.go:544-586 | times and values line up from the newest back, and there are at most 240 |
| `Meters.SeriesGoesForward` | internal/dash/app.go:545-548 | the times held are strictly increasing |
| `Meters.ReplayChangesNothing` | internal/dash/app.go:545-548 | readings sent again after a reconnect change nothing |
| `Overrides.DecodesAsFlat` | internal/config/overrides.go:103-136 | however reads are split over schemas, a body under overrides hands out what the body with the arguments replaced would |
| `Overrides.HandedOutOnce` | internal/config/overrides.go:114-126 | each argument is handed out once, and from the override when that sets it |
| `Overrides.SameProblemsIff` | internal/config/overrides.go:108-136 | the same problems are reported as for the flat body exactly when overrides set no required argument alone and no argument that is never read |
| `Overrides.SameProblemsIffAllRead` | internal/config/overrides.go:34-73 | since no read requires what an override file may set, the same problems are reported exactly when every argument only overrides set is read |
| `Overrides.TaskOverrideIsReportedIff` | internal/config/runnable.go:404-411 | for a task, exactly when `enabled` is all the override adds |
| `Overrides.TaskPortIsSilent` | internal/config/runnable.go:110-117 | an override that gives a task a port: nothing is reported, where the flat body would be refused |
| `Overrides.ReferencesAre` | internal/config/eval.go:400-427 | a body under overrides, however many are laid, refers to what the flat one does and to what each argument they replaced did, and nothing else |
| `Overrides.SameReferencesIff` | internal/config/eval.go:400-427 | so it refers to what the flat one does exactly when every replaced argument refers to nothing else |
| `Overrides.ReplacedReferenceStays` | internal/config/eval.go:403-405 | a port that named another instance, overridden by a number, still names it |
| `Overrides.PartialReadsAsFlat` | internal/config/overrides.go:114-126 | one read and what it leaves are the flat body's |
| `Overrides.Apply` | internal/config/overrides.go:75-98 | every overridden block's body is wrapped in place, and an override that matches nothing is an error |

## Left out

- HCL parsing, expression evaluation and module decoding: a body is a map of arguments, an expression is the names it mentions and a value for each environment.
- Sockets, TLS, DNS, processes, files and the shared names registry: an allocator is a function from hosts to addresses, and that it gives no address to two hosts is assumed where it is used.
- Clocks and delays: a delay is a step that may happen at any later time.
- Locks: each method is taken to run whole; what a reader sees of a list while a live add runs is that the list it holds never changes (`Live.Config.Add`).
- Integer width: sequence numbers, request ids, offsets and sizes are unbounded.
- Floating point: `Chart` computes over the reals, so rounding of a level at a boundary is not captured.
- Control connection: a `Conn` is a state machine, not a class, since its reader, its callers and the daemon run at once; `cancel` messages and the stopping of a stream are in it, when a handler notices it was stopped is not.
- Journal: that the newest event is on disk and that a read returns the kept events in order are taken from `internal/journal/journal.go:116-183`; a write that fails is not modelled.
- Replication: a look at the registry and the configuration is one step (`internal/daemon/handler.go:63-92` reads one after the other); the `new` marks of the dash are left out.
- Replication.Model.Apply: a stats frame carries the readings that are not skipped as held already, which `Meters.Charts.Apply` decides.
- ReplicationRun.ClientShowsOneVersion: names are drawn as they are, because a name that cleaning changes breaks removal (`ReplicationRun.UncleanRowOutlivesItsInstance`); meters are compared by the daemon but not by this theorem, since stats frames change them in between; `ReplicationRows.DiffRows` and `ReplicationRows.StatsSetMeters` say what each frame does to them.
- Remote.RemoteRangeStaysOnItsLine: that a module's file has no more lines than the user's is proved of the blanking (`Remote.BlanksKeepLines`) and assumed of the header rewrite, which a library does.
- Remember.DownNeverShrinks: has a condition; `Remember.DownNeverShrinksIff` is exact.
- BindPlan.PlanIsInjective: without names it is stated for blocks placed by `port`, because it is false of `listen` overrides (`BindPlan.ListenHostIsIgnored`).
- Placement.DomainLabel: takes its name already in lower case; what lower case makes of a name is any function.
- Layout.DrawNode: a leaf is assumed to fill its rectangle, and widths and heights are not negative.
- LogLines.Follower.ReadNewLines: the file only grows; a log cut short while it is followed is not modelled.
- Meters.ReplayChangesNothing: readings without a time are pushed every time they are sent.
- Live.Daemon.AddInstance: the endpoints of the blocks already declared are taken to be computable, as they were when the daemon started; an app's own domains, their record, the certificate authority, the names noted as held, and module route names at the front door are left out.
- Live.FailedAddIsUndoneIff: is about a daemon in step with its configuration, which every add that comes through and every remove keeps (`Live.AddKeepsSynced`, `Live.RemoveKeepsSynced`).
- Live.Daemon.RemoveInstance: stopping the backend and deleting its data are left out.
- Live.Config.Add: keeps the index exact for a new name only; every caller checks that first.
- LiveNames.LeftListenerStays: two listeners on one address are taken to exclude each other (`LiveNames.Opens`); listeners other than main are not compared.
- Live.LiveStackBootsDependenciesFirst: an added block has no dependency on another, because it is decoded alone.
- Names the shutdown releases (`internal/daemon/domains.go:58-63`), the console topic's goroutines after their end, and the status command's own fold of snapshots are not part of this model.
- The engine runtime, the supervisor, the proxy, lockfiles, archives, signatures, the printer of stacks and the commands around them are not part of this model.
