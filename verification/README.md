# KubeNDT: a verified model of its core

KubeNDT runs network topologies on Kubernetes and configures the nodes in them.
This project models the parts of it whose correctness is not visible from one
function alone, and proves what they promise. `dafny verify dfyconfig.toml`
checks all of it.

- **Configuring a network** (`WorkerPool`, `Configurator`). The targets of a
  request go through a pool of goroutines, two buffered channels and a wait
  group. The pool is a step system whose steps may be taken in any order the Go
  scheduler allows. What one pod does is an uninterpreted function there and the
  classification loop of the handler in `Configurator`.
- **Generated topologies** (`Graphs`, `Topology`). Random choices are arbitrary
  inputs, so every statement is about every seed.
- **Least squares** (`AffineFit`) over the reals.
- **Timed state** (`LoginLimit`, `Sessions`, `Schema`). Classes with the fields the
  program updates, tied to functions over a log of events; the theorems are about
  whole runs with a clock that does not go back.
- **Commands and their readers** (`BridgeVlan`, `BridgeVlanShow`, `SpanningTree`,
  `SpanningTreeState`, `IPRoute`, `Vyos`). Scripts are executed as text against a
  model of the state they change; listings are printed from a state and read back.
- **Canonical forms** (`StateKeys`, `DatapathId`, `Nat64`).
- **Shared** (`Options`, `GoStrings`, `GoNumbers`): the functions of Go's standard
  library these parts use, defined and characterised once.

Loops and objects that change state are methods and classes, each proved against a
function of its inputs or of the old state; the lemmas are about those functions.

## Where the code and its documentation differ

The model follows the code. In each case there is a lemma with an input, or the
exact condition under which the promise holds.

- `experiments/gen_topology.py:53-67`: the extra-edge loop never ends for two names,
  and its draw fails for one (`Topology.ExtraEdgeLoopCanEnd`, `Topology.TooFewNames`).
- `experiments/gen_topology.py:77-80`: a ring of two is a single link
  (`Topology.Ring`).
- `experiments/common.py:466-480`: with lists of different lengths the sums count
  values the points leave out; the line is still the best one exactly when those sums
  cancel (`AffineFit.FitIsBestExactly`, `AffineFit.UnequalLengthsMisfit`).
- `backend/capabilities/vlan_base.go:75`: a port whose name begins with `port` is
  taken for the header; its further VLANs are counted for the port before it
  (`BridgeVlanShow.ListingReadsBackExactly`, `BridgeVlanShow.SwallowedPortForOne`).
- `backend/capabilities/stp_base.go:119-121`: when a bridge name is another one and
  then a control character, which Linux allows, the key does not sort by bridge
  (`SpanningTreeState.PortsSortedByPair`, `SpanningTreeState.ControlCharacterOutOfOrder`).
- `backend/executor/vyos.go:61-66`: quotes are escaped, backslashes and newlines are
  not; a line with a backslash reads back exactly when bash keeps every backslash in it
  (`Vyos.ScriptReadsBackExactly`, `Vyos.BackslashesEitherWay`).
- `backend/capabilities/openflow.go:52`: flow keys of two bridges can be equal when one
  bridge name runs into the other at a space (`StateKeys.FlowKeysCollideExactly`).
- `backend/capabilities/nat64.go:40-49`: an IPv4-mapped IPv6 prefix passes the pool
  check, and computing its addresses panics (`Nat64.AddressesExactlyForDottedQuads`).
- `backend/capabilities/nat64_base.go:30-32`: two routers get different ULAs exactly
  when the network addresses of their pools differ (`Nat64.UlaExactlyNetworkAddress`).
- `backend/auth/auth.go:335-340`: a role with a comma in it comes back as two
  (`Sessions.RolesRoundTrip`).

## Model

| member | source | states |
|---|---|---|
| WorkerPool.EveryInterleaving | backend/handlers/configurator.go:200-235 | main result: whatever the order of the steps of sender, workers, closer and collector, every run stops after finitely many, no step panics or waits on a full channel, and a run that cannot go on has finished with each target processed exactly once and slot i holding the result of target i; zero targets included |
| WorkerPool.SendsNeverWait | backend/handlers/configurator.go:208-235 | in every reachable state no send blocks, none hits a closed channel, no channel is closed twice |
| WorkerPool.StepKeepsInv | backend/handlers/configurator.go:211-235 | each of the steps keeps the invariant: the wait group counts the running workers, results closes only when all have left, no result is lost or duplicated |
| WorkerPool.StepCounts | backend/handlers/configurator.go:211-235 | a natural number decreases with every step |
| WorkerPool.NoDeadlock | backend/handlers/configurator.go:211-235 | in every reachable state that is not final some step can be taken (and in a final one none: NothingAfterFinish) |
| WorkerPool.FinishedSlots | backend/handlers/configurator.go:232-235 | at the end each slot holds the result of its own target, and the calls made are each index once |
| WorkerPool.ExecutionKeeps | backend/handlers/configurator.go:200-235 | the invariant holds after every execution, and its length is bounded by the measure |
| WorkerPool.PoolSize | backend/handlers/configurator.go:200-206 | one for each target or one for each processor, whichever is less, and at least one |
| WorkerPool.RunPool | backend/handlers/configurator.go:200-235 | running the pool under any schedule terminates with the results of a sequential loop in request order |
| Configurator.ProcessPod | backend/handlers/configurator.go:78-198 | the report equals the specified one for the pod, and the history grows, in order, by exactly the persistable actions the report calls successful |
| Configurator.MarkDuplicates | backend/handlers/configurator.go:122-134 | only persistable, unfailed, non-repeatable actions change: a duplicate is marked to skip, a failed look-up becomes the error of the action |
| Configurator.FailEvery | backend/handlers/configurator.go:82-101 | a reference that does not resolve gives one failed result and one error for each action |
| Configurator.ReportAction | backend/handlers/configurator.go:138-188 | one result is appended, counters and error list move together, and the history gains the action iff it persists and is reported as success |
| Configurator.ReportAll | backend/handlers/configurator.go:151-189 | one result per plan in order, the counters in balance, the history extended by the persisted successes |
| Configurator.ReportAccountsForEveryAction | backend/handlers/configurator.go:78-198 | one result per action in order; successes + failures + skipped is the number of actions; as many errors as failures |
| Configurator.EachActionReported | backend/handlers/configurator.go:151-188 | each action is reported from its plan, outcome and saving: skipped with the reason; failed with the error of the plan, else of the outcome, else of saving what persists; otherwise succeeded with its commands and output |
| Configurator.CheckIsReported | backend/handlers/configurator.go:121-134 | an error in planning, or in looking an action up in the history, is the error it fails with; one that is there already is skipped as a duplicate |
| Configurator.UnresolvedIsReported | backend/handlers/configurator.go:82-101 | a reference that does not resolve: each action failed, and each error entered, with the reason |
| Configurator.ErrorsInOrder | backend/handlers/configurator.go:138-150 | the pod, driver and text of each failed result stand in the error list after those of the failures before it |
| Configurator.PersistedInOrder | backend/handlers/configurator.go:170-177 | each action saved stands in the history after those saved before it |
| Configurator.SkippedExactlyDuplicates | backend/handlers/configurator.go:122-134 | an action is reported skipped exactly when it persists, is not repeatable, has no error and the history has it since the pod was created |
| Configurator.PersistedExactlySuccesses | backend/handlers/configurator.go:169-188 | an action is in the history from this request exactly when it persists and a result reports it as success |
| Configurator.EveryResultCounted | backend/handlers/configurator.go:237-248 | the three counts of any list of results add up to its length, and its errors are as many as its failures |
| Configurator.CountIsHowMany | backend/handlers/configurator.go:237-248 | each count is the number of places with that status |
| Configurator.CountConcat | backend/handlers/configurator.go:242-248 | counts and errors of concatenated reports are the sums and concatenations |
| Configurator.ConfigureNetwork | backend/handlers/configurator.go:200-276 | under any schedule of the pool the response has as many results as actions were asked for, those of each pod in their place in request order, totals counted from them; status is success iff no pod reports a failure and the MTU pass has no error |
| Configurator.AllResultsInPlace | backend/handlers/configurator.go:242-248 | where the results of each pod stand in the response |
| Topology.SpanningTree | experiments/gen_topology.py:54-61 | for every shuffle and every choice of parents: a connected simple graph of n - 1 links, link k joining the shuffled pod k + 1 to the chosen earlier one |
| Topology.ExtraEdges | experiments/gen_topology.py:62-66 | the loop keeps the graph simple and connected and stops short of n links only if every draw was already a link |
| Topology.SparsePairs | experiments/gen_topology.py:53-67 | for any distinct names and any random choices: a simple, connected graph, of n links when the loop ends; with three names or more it ends once the draws have covered the pairs; it never ends for one or two names |
| Topology.CoveringDrawsComplete | experiments/gen_topology.py:62-66 | with three names or more, draws that cover all pairs bring the graph to n links |
| Topology.ExtraEdgeLoopCanEnd | experiments/gen_topology.py:58-66 | from every tree, some draws complete the links iff there are no names or at least three |
| Topology.OneDrawFromTheEnd | experiments/gen_topology.py:62-66 | whatever was drawn so far on three names or more, one further draw can complete the links |
| Topology.TooFewNames | experiments/gen_topology.py:62-66 | with one or two names no simple graph has n links: for two the loop never ends, for one the draw itself fails |
| Graphs.AllPairsNeedManyEdges | experiments/gen_topology.py:62-66 | a set of links containing every pair of three or more names has at least n of them |
| Graphs.MissingPair | experiments/gen_topology.py:62-66 | while fewer than n links exist on three or more names, a pair that is not yet a link exists to be drawn |
| Graphs.DegreeSumIsTwiceEdges | experiments/gen_topology.py:53-67 | degrees of a graph on distinct names sum to twice the number of links |
| Topology.IfaceCounter.Next | experiments/gen_topology.py:34-40 | the k-th call for a pod returns eth k, and changes no other pod |
| Topology.BuildLinks | experiments/gen_topology.py:43-50 | link i joins pair i, on the interfaces the ranks of its two ends give and the two addresses of subnet i |
| Topology.LinkInterfaces | experiments/gen_topology.py:34-50 | of the links returned no two ends are the same pod and interface, and the interfaces on a pod are exactly eth1 to eth of its degree |
| Topology.InterfacesInOrder | experiments/gen_topology.py:34-50 | the interfaces of a pod are numbered in the order of the links |
| Topology.LinkSubnetsDistinct | experiments/gen_topology.py:29-31 | different links have different subnets, and no address text is given twice (the octets are octets iff the index is below 39000: LinkSubnetsValid) |
| Topology.LinkAddresses | experiments/gen_topology.py:29-49 | the address texts on link i, read back: 10, 100 + i / 250 and i mod 250, host 1 at the local and 2 at the peer end, prefix length 24 |
| Topology.LinksInSubnetsOfTheirOwn | experiments/gen_topology.py:29-49 | the two ends of a link are two hosts of one /24, and no other link has an end in it |
| Topology.PodNameDetermines | experiments/gen_topology.py:95-96 | group-k determines both the group and k, whatever dashes and digits the group holds |
| Topology.Ring | experiments/gen_topology.py:77-80 | fails iff n < 2; otherwise pods group-0 to group-(n - 1), each joined to the next and the last to the first; a single link for n = 2; simple and connected; n links and degree 2 everywhere iff n >= 3 |
| Topology.Line | experiments/gen_topology.py:83-86 | pods group-0 to group-(n - 1), each joined to the next; simple and connected |
| Topology.Sparse | experiments/gen_topology.py:70-74 | the groups hold n pods in all, whose names are those pod_names lists; the links, when drawn, are a simple connected graph of n with degree sum 2n |
| Topology.SparseNamesArePodNames | experiments/gen_topology.py:71-96 | the names links are drawn over are those pod_names derives from the nodes, empty groups left out |
| Topology.SparseSizes | experiments/gen_topology.py:71-73 | the group sizes sum to n (and differ by at most one: GroupsEven) |
| Topology.SparseNamesAre | experiments/gen_topology.py:71-73 | where each name stands: group-k for the k of its group, counted from 0, groups in order, the first n mod g of them with one more |
| Topology.SparseNamesDistinct | experiments/gen_topology.py:73 | names of pods of distinct groups are distinct |
| Graphs.CycleIsSimple | experiments/gen_topology.py:79 | n >= 3 pairs around the names are n different links without self-loops |
| Graphs.CycleDegree | experiments/gen_topology.py:79 | every name on the cycle has degree 2 |
| AffineFit.FitIsBestExactly | experiments/common.py:466-480 | for lists of any lengths, the line is a least-squares line of the zipped points iff the surplus y values sum to 0; or, with surplus x values, iff the y values sum to 0 and either the products x y do too or every surplus x value is at the mean |
| AffineFit.FitIsTheMinimum | experiments/common.py:466-480 | for lists of one length no line has a smaller sum of squared residuals than the fit, and only the fit itself has an equal one |
| AffineFit.DeterminationRange | experiments/common.py:466-480 | for lists of any lengths r2 is between 0 and 1; it is 1 iff all points are on the line or the y values are all at their centre, 0 iff they are not, the slope is 0 and surplus y values are at the centre |
| AffineFit.DeterminationOfPairs | experiments/common.py:466-480 | for lists of one length r2 is 1 iff all points are on the line, 0 iff the slope is 0 and the y values differ |
| AffineFit.DeterminationValue | experiments/common.py:477-479 | the value of r2: 1 less it, times the spread of the y values, is the sum of squared residuals; 1 when the y values do not vary |
| AffineFit.DeterminationIsCorrelation | experiments/common.py:471-479 | for lists of one length r2 is the square of the correlation |
| AffineFit.FitExists | experiments/common.py:466-474 | a fit is returned iff two x values differ |
| AffineFit.UnequalLengthsMisfit | experiments/common.py:466-480 | two inputs, one with surplus y and one with surplus x values, for which a better line is given; UnequalLengthsFit is one with surplus y values for which the line is best |
| AffineFit.Explained | experiments/common.py:475-479 | for lists of any lengths the residuals never exceed the spread of the y values, and equal it iff the slope is 0 and surplus y values are at the centre |
| LoginLimit.RefusesExactlyChains | backend/auth/loginlimit.go:14-68 | after any run, an attempt is refused iff the failures of the client since its last success end in at least 8, each within 15 minutes of the one before and the last within 15 minutes of now; the refusal ends 15 minutes after that last failure |
| LoginLimit.PurgeIsInvisible | backend/auth/loginlimit.go:55-60 | dropping stale entries changes no answer, at any time, in any run |
| LoginLimit.MapHoldsRecentClients | backend/auth/loginlimit.go:55-60 | right after a failure the map holds only clients whose last failure is within the window |
| LoginLimit.RunTracks | backend/auth/loginlimit.go:29-68 | while the last failure of a client is in the window its entry is there, with the length of the chain and the time the window ends |
| LoginLimit.ChainLengthIsLongest | backend/auth/loginlimit.go:43-53 | the counter is the longest chain at the end of the failures |
| LoginLimit.Limiter.LoginAllowed | backend/auth/loginlimit.go:29-40 | answers from the entry of the client; the wait is what is left of its window, and nothing when allowed |
| LoginLimit.Limiter.CounterOf | backend/auth/loginlimit.go:47-51 | the live counter of the client, or a new one in place of a missing or expired one; no counter is shared |
| LoginLimit.Limiter.RegisterLoginFailure | backend/auth/loginlimit.go:43-61 | the whole new map: the client counted and its window moved, expired entries gone |
| LoginLimit.Limiter.PurgeExpired | backend/auth/loginlimit.go:56-60 | exactly the expired entries are deleted |
| LoginLimit.Limiter.RegisterLoginSuccess | backend/auth/loginlimit.go:64-68 | exactly the entry of the client is deleted |
| Sessions.AcceptedExactlyInTime | backend/auth/auth.go:173-217 | after any run, whatever writes failed, a token is accepted iff it was issued and not revoked since, and every use so far and this one came within the maximum lifetime and within the idle timeout of the last use that was stamped, measured from stored whole seconds |
| Sessions.RefusedOnceRefusedForever | backend/auth/auth.go:190-211 | a token refused once is refused at every later time, whatever any update or delete did |
| Sessions.AcceptedWithinBothTimeouts | backend/auth/auth.go:203-211 | whatever writes failed, an accepted use is within the maximum lifetime of its creation and the idle timeout of its previous acceptance |
| Sessions.RolesRoundTrip | backend/auth/auth.go:335-340 | the stored roles are read back iff no role has a comma and the list is not one empty role |
| Sessions.AcceptedAsIssued | backend/auth/auth.go:173-210 | the principal of an accepted use has the identity the token was issued to, and its roles iff those can be stored |
| Sessions.Store.CreateSession | backend/auth/auth.go:173-186 | inserts exactly one row stamped with the whole second, and fails exactly when the token has one |
| Sessions.Store.ValidateSession | backend/auth/auth.go:190-211 | accepted iff the row exists and neither timeout has passed; an acceptance stamps the row, an expiry deletes it, each only if that write succeeds |
| Sessions.Store.DeleteSession | backend/auth/auth.go:214-217 | exactly the row of the token is gone when the delete succeeds |
| Sessions.Store.InvalidateAllSessions | backend/auth/auth.go:147-153 | no row is left and their number is returned |
| Sessions.RowsAreOld | backend/auth/auth.go:173-211 | the stored seconds are those of the creation and never later than those of the last acceptance |
| Schema.CutStartupsConverge | backend/database/database.go:57-87 | from a file whose columns match its version, after any start-ups each cut anywhere, one complete start-up ends at version 3 with every column |
| Schema.StartupKeepsConsistent | backend/database/database.go:57-87 | after every prefix of the statements of a start-up the stamped version has its columns |
| Schema.NothingIsDropped | backend/database/database.go:57-250 | no statement ever drops a table, a column, a row or a value |
| Schema.OldRowsGetDefaults | backend/database/database.go:228-250 | rows that were there before a column was added have its default under it |
| Schema.FirstVersionUpgrades | backend/database/database.go:57-87 | from the links of version 1 a complete start-up ends at version 3, with the three columns added and mtu 0 and empty addresses in every row |
| Schema.ColumnsInFull | backend/database/database.go:135-150 | the thirteen columns, in order, of the links after any complete start-up |
| Schema.EverythingIsCreated | backend/database/database.go:89-216 | a complete start-up leaves every table of the list and every index on a table before it in the list |
| Schema.NewerFileUntouched | backend/database/database.go:66-68 | a file stamped by a newer build keeps its tables and version |
| Schema.Database.InitDB | backend/database/database.go:57-89 | a start-up with a budget of statements executes exactly that prefix of them, and finishes iff the budget suffices and the version is not newer |
| Schema.Database.CreateTables | backend/database/database.go:89-216 | runs the CREATE TABLE and CREATE INDEX IF NOT EXISTS statements in order, up to the budget |
| Schema.Database.ApplyMigrations | backend/database/database.go:57-87 | runs the pending steps for the version found and then the stamp, none when the version is current or newer |
| Schema.Database.Run | backend/database/database.go:228-250 | one statement: a table, an index or a column is added only when it is missing |
| BridgeVlan.TrunkLeavesExactlyRequested | backend/capabilities/vlan_base.go:10-48 | executing the text of a trunk script, from any valid state of the device, leaves exactly the requested VLANs with only the native one untagged, its bridge filtering, and all else as it was |
| BridgeVlan.OperationLeavesExactlyWanted | backend/capabilities/vlan_base.go:31-53 | the same for the access, trunk and clear scripts |
| BridgeVlan.LastSetWins | backend/capabilities/vlan_base.go:10-53 | after any history of operations each device is as its last operation asked, one without an operation is untouched, and exactly the bridges of the operations have come to filter |
| BridgeVlan.AccessIsTrunkOfNative | backend/capabilities/vlan_base.go:31-53 | the access script is the text of a trunk with no tagged VLAN, and a cleared port is access to VLAN 1 |
| BridgeVlan.VLANSetTrunk | backend/capabilities/vlan_base.go:36-48 | the loop joins prelude, flush, one add for each VLAN that is not native, and the native add if there is one |
| BridgeVlan.ExecTagged | backend/capabilities/vlan_base.go:38-43 | the tagged adds, in any order and with repetitions, leave exactly that set of tagged VLANs |
| BridgeVlan.PreludeRuns | backend/capabilities/vlan_base.go:16-21 | the prelude finds the bridge of a device, itself or its master, sets self for a bridge, and turns filtering on there |
| BridgeVlan.ExecScript | backend/capabilities/vlan_base.go:19-48 | splitting a script at its semicolons gives its prelude and then its commands, which work on the VLANs of the device |
| BridgeVlanShow.ParseBridgeVLAN | backend/capabilities/vlan_base.go:66-106 | the rows are those of the ports that the lines, taken one by one, open and extend |
| BridgeVlanShow.PortVlans.Enter | backend/capabilities/vlan_base.go:84-92 | one line of a port sets its native VLAN or appends a tagged one |
| BridgeVlanShow.ReadPorts | backend/capabilities/vlan_base.go:72-93 | the walk leaves the ports folded from the lines |
| BridgeVlanShow.ReadLine | backend/capabilities/vlan_base.go:74-93 | a line opens a fresh port or changes only the last one |
| BridgeVlanShow.ListingAttributed | backend/capabilities/vlan_base.go:66-93 | what any printed listing is read as: a port whose name begins with port is skipped and its indented VLANs go to the port before it |
| BridgeVlanShow.ListingReadsBackExactly | backend/capabilities/vlan_base.go:66-106 | a listing reads back, one row for each port with its own VLANs, iff no port name begins with port |
| BridgeVlanShow.SwallowedPort | backend/capabilities/vlan_base.go:75-92 | otherwise: the rows of two ports of which the second is such a one; in SwallowedPortForOne VLAN 20 of port1 is reported on eth0 |
| BridgeVlanShow.FlagsOfEntry | backend/capabilities/vlan_base.go:87-92 | the flags of an entry make it native iff it is PVID and untagged |
| BridgeVlanShow.RowSaysMode | backend/capabilities/vlan_base.go:94-105 | the row has mode trunk iff some VLAN differs from the native one, access iff the native one is the only one, none iff there is none |
| BridgeVlanShow.RowHasEveryVlan | backend/capabilities/vlan_base.go:94-105 | the VLANs of a row are exactly those of the port |
| BridgeVlanShow.RowGivesPortBackExactly | backend/capabilities/vlan_base.go:94-105 | the row determines the port iff the PVID is the one VLAN that egresses untagged |
| BridgeVlanShow.SetThenRead | backend/capabilities/vlan_base.go:31-106 | setting and reading: the listing after any history of operations gives back what the last operation on each port asked for |
| BridgeVlanShow.AccessReadsBack | backend/capabilities/vlan_base.go:31-106 | whatever was on a port, set to access, listed and read, it is an access port of that VLAN |
| BridgeVlanShow.PrintPrints | backend/capabilities/vlan_base.go:63-66 | every list of ports has a listing of the shape the reader is for |
| SpanningTree.ParseSTPSysfs | backend/capabilities/stp_base.go:65-123 | the two passes return the rows of what the lines say, the bridges in order, the ports sorted by key and otherwise the same rows |
| SpanningTree.FirstPass | backend/capabilities/stp_base.go:74-99 | the maps and lists after the loop are those the lines give one by one |
| SpanningTree.AssignRoles | backend/capabilities/stp_base.go:100-113 | each port row has the role its bridge, number and state give it |
| SpanningTree.PatchBridges | backend/capabilities/stp_base.go:114-118 | each bridge row gets the name of its root port, and nothing else changes |
| SpanningTree.Sort | backend/capabilities/stp_base.go:119-121 | sorted by key, a permutation |
| SpanningTreeState.TextCollected | backend/capabilities/stp_base.go:77-99 | from the printed state the reader gets back the bridges in their order and the ports in theirs, however the lines interleave |
| SpanningTreeState.OrderIsIrrelevant | backend/capabilities/stp_base.go:65-123 | two texts with the same bridge lines and any reordering and interleaving of the port lines give the same rows in the same order |
| SpanningTreeState.RootPortIsNamed | backend/capabilities/stp_base.go:100-118 | root_port names the root port; on a bridge that runs the protocol a port has role root iff it is the one named, is alternate iff another and blocking, designated otherwise; without the protocol no role |
| SpanningTreeState.NoBridgeNoRole | backend/capabilities/stp_base.go:101-102 | a port of a bridge that has no line has no role |
| SpanningTreeState.EveryPortIsShown | backend/capabilities/stp_base.go:91-113 | each port has a row with its state, cost and priority, and there are no other rows |
| SpanningTreeState.KeyOrderExactly | backend/capabilities/stp_base.go:119-121 | comparing the concatenated keys compares the pairs (bridge, port) iff neither bridge is the other followed by a control character |
| GoStrings.LessExactly | backend/capabilities/stp_base.go:119-121 | the order of texts: at the first difference the smaller character, or the end |
| SpanningTreeState.ControlCharacterOutOfOrder | backend/capabilities/stp_base.go:119-121 | an input where it does not: br and br followed by U+0001 |
| SpanningTreeState.PortsSortedByPair | backend/capabilities/stp_base.go:100-122 | the port rows are a permutation of those of the state, and are sorted by bridge and then port iff no bridge of a port is another one followed by a control character |
| SpanningTreeState.PrintPrints | backend/capabilities/stp_base.go:40-40 | every state whose fields are words has such a text |
| GoNumbers.AtoiItoa | backend/capabilities/stp_base.go:81-81 | a root port number below 2^63 is read back from decimal |
| GoNumbers.AtoiOfAnything | backend/capabilities/stp_base.go:81-81 | any decimal with or without sign is read as the nearest number of the type, and a text that does not start like one as 0 |
| GoNumbers.ParseHex | backend/capabilities/stp_base.go:92-92 | a port number below 2^31 is read back from hexadecimal |
| Vyos.DispatchAsVyOSApply | backend/executor/vyos.go:53-72 | an error iff the command is not an argument list, otherwise one argument: the herestring with the escaped lines |
| Vyos.ExpandsBackExactly | backend/executor/vyos.go:57-70 | an encoded text closes at the quote put after it and expands to itself iff every backslash in it is followed by a character with which bash keeps it |
| Vyos.EscapeIsLost | backend/executor/vyos.go:61-70 | a backslash that makes an escape leaves the text shorter, whatever character a numeric or control escape stands for |
| Vyos.QuotedLinesReadBackExactly | backend/executor/vyos.go:57-70 | lines read back from the quoted body iff each is readable: no newline, and every backslash followed within the line by a character that makes no escape with it; the line at the end has no backslash |
| Vyos.ScriptReadsBackExactly | backend/executor/vyos.go:53-72 | the script read back is source, configure, the lines, commit and exit, iff every line is readable; BackslashesEitherWay has a line of each kind |
| Vyos.FixedTexts | backend/executor/vyos.go:57-68 | the lines before and after are source of the script template, configure, commit and exit; set, delete and comment are the operations known |
| Vyos.VyOSConfigureOps | backend/executor/vyos.go:105-125 | the request of the batch; accepted iff the batch is not empty and every line is a known op with a path; each op and path are the fields of its line, in order; a refusal names the first problem |
| Vyos.OpsAreTheWords | backend/executor/vyos.go:105-125 | the same of the function that specifies it |
| Vyos.BackEndsAgree | backend/executor/vyos.go:53-125 | for readable lines, what is read between the first two and last two lines of the script is the request, or the refusal, the other back end makes of the batch |
| StateKeys.ItoaLoop | backend/capabilities/state.go:66-76 | the loop gives the decimal numeral of a natural number and nothing for a negative one |
| GoStrings.ItoaValue | backend/capabilities/state.go:66-76 | the numeral denotes the number and has no leading zero |
| StateKeys.AddressKey | backend/capabilities/state.go:10-10 | equal keys iff equal interface and address |
| StateKeys.StaticRouteKey | backend/capabilities/state.go:28-28 | equal keys iff equal destination, gateway and device |
| StateKeys.BridgeMemberKey | backend/capabilities/state.go:36-36 | equal keys iff equal interface and bridge, the bridge being free text |
| StateKeys.PortForwardKey | backend/capabilities/state.go:38-44 | equal keys iff equal interface, protocol, external port and family, the protocol in the middle being free text |
| StateKeys.NetworkAreaKey | backend/capabilities/state.go:46-46 | equal keys iff equal network and area, the area being free text |
| StateKeys.IfaceFamilyKey | backend/capabilities/state.go:54-54 | equal keys iff equal interface and family |
| StateKeys.RedistributeFamilyKey | backend/capabilities/state.go:56-56 | equal keys iff equal source and family, the source being free text |
| StateKeys.RedistributeFamilyLevelKey | backend/capabilities/state.go:62-64 | equal keys iff equal source, family and level |
| StateKeys.TwoFieldKeysDecode | backend/capabilities/state.go:10-46 | what stands before the first space is the first field, and the rest the second |
| StateKeys.StaticRouteKeyDecodes | backend/capabilities/state.go:28-28 | cut at its spaces the key is destination, gateway and device |
| StateKeys.FamilyKeysDecode | backend/capabilities/state.go:52-64 | what stands after the last space is 6 or 4, or the level, and before it the rest |
| StateKeys.PortForwardKeyDecodes | backend/capabilities/state.go:38-44 | cut from both ends the key is interface, protocol, the numeral of the port, and 6 or 4 |
| StateKeys.FlowMatchIdempotent | backend/capabilities/openflow.go:48-50 | the match of a match is itself, so adding and deleting a flow meet in one key |
| StateKeys.FlowKeyWithoutSpaces | backend/capabilities/openflow.go:50-52 | on bridges without a space equal keys iff equal bridge and match |
| StateKeys.MatchesExactly | backend/capabilities/openflow.go:37-50 | the matches of flows are exactly the texts without actions, and each is its own match |
| StateKeys.MatchIsLongest | backend/capabilities/openflow.go:37-50 | the match is what stands before the first actions= without the commas and spaces at its end |
| StateKeys.FlowKeyDecodes | backend/capabilities/openflow.go:52-52 | on a bridge without a space the key gives the bridge and the match back |
| StateKeys.FlowKeysCollideExactly | backend/capabilities/openflow.go:50-59 | for two different bridges, some flows the flow check lets through have equal keys iff one bridge with a space after it begins the other with a space after it, and what is left over holds no actions and passes the flow check; FlowKeysCollide is such a pair |
| DatapathId.Normalises | backend/capabilities/openflow.go:41-46 | an accepted id gives 16 lowercase hex digits of the same number, which are accepted and kept as they are |
| DatapathId.SameTextExactlySameNumber | backend/capabilities/openflow.go:41-46 | two accepted ids give the same text iff they denote the same number |
| Nat64.TaygaAddresses | backend/capabilities/nat64_base.go:33-44 | empty addresses for a text that does not parse; otherwise the address after the network address with the byte increment, and the ULA of the network address; a network that is not IPv4 panics |
| Nat64.TranslatorAddressUsable | backend/capabilities/nat64.go:40-49 | for every dotted-quad pool accepted the increment cannot wrap, and the address is in the pool and neither its network nor its broadcast address |
| Nat64.TranslatorNumber | backend/capabilities/nat64.go:40-49 | as numbers: the network address is the multiple of the size of the pool that the pool address lies in, and the address of the translator is the one after it and below the last of the pool |
| Nat64.NetworkNumber | backend/capabilities/nat64.go:41-48 | masking a dotted-quad address to n bits gives the multiple of 2^(32 - n) it lies in |
| Nat64.PoolAcceptedExactly | backend/capabilities/nat64.go:40-49 | accepted iff the text parses, to an IPv4 address, plain or mapped, with at most 30 bits |
| Nat64.AddressesExactlyForDottedQuads | backend/capabilities/nat64.go:40-49 | of the pools accepted, the address computation succeeds for exactly those written as dotted quads; MappedPoolAccepted is a pool for which it does not |
| Nat64.UlaExactlyNetworkAddress | backend/capabilities/nat64_base.go:42-42 | equal ULAs iff equal network addresses |
| Nat64.DottedReads | backend/capabilities/nat64_base.go:38-41 | the text of the IPv4 address is its four bytes in order |
| Nat64.UlaReads | backend/capabilities/nat64_base.go:42-42 | the text of the IPv6 address is fd64, the four bytes two to a group, and ::1 |
| Nat64.DisjointPoolsDiffer | backend/capabilities/nat64_base.go:30-43 | pools that share no address get different ULAs |
| IPRoute.Keyed | backend/capabilities/inspect_linux.go:20-35 | the loop reads the tokens left to right, an attribute together with its value |
| IPRoute.ParseIPRoute | backend/capabilities/inspect_linux.go:37-66 | one row for each line with a destination, in order |
| IPRoute.KeyedReadsItems | backend/capabilities/inspect_linux.go:26-33 | after any attributes and flags the map holds the last value given for an attribute, also when values are themselves attribute names |
| IPRoute.RecoversAttribute | backend/capabilities/inspect_linux.go:20-35 | so each attribute of a printed line is recovered, in any order |
| IPRoute.LastIsTheOne | backend/capabilities/inspect_linux.go:26-33 | of distinct attributes the value recovered is the one printed |
| IPRoute.LineRecoversRoute | backend/capabilities/inspect_linux.go:39-64 | a printed route gives one row with its destination, gateway, interface, protocol and metric |
| IPRoute.RouteIsRead | backend/capabilities/inspect_linux.go:43-64 | field by field: the default destination is 0.0.0.0/0 or ::/0 by family; gateway, interface, protocol and metric are the values printed, empty where none is |
| IPRoute.NothingToRead | backend/capabilities/inspect_linux.go:40-51 | a blank line or a route type alone gives no row |
| IPRoute.TextRecoversRoutes | backend/capabilities/inspect_linux.go:37-66 | a printed table gives exactly the rows of its routes, in order |

## Left out

- Configurator.ProcessPod: resolving, planning, running and the history queries are abstract functions of the pod and its actions, since `backend/helpers` is not part of this model; plans and outcomes are assumed to match the actions one to one; the time a pod took is not stamped on its results, and logging is left out.
- Configurator.ConfigureNetwork: the order in which pods save to the shared history is not stated (each pod's own order is), nor are the per-pod timing fields and the computed speed-up; the MTU pass is one optional error.
- WorkerPool.EveryInterleaving: a target's processing is one step, so what two pods do to the cluster at the same time is not modelled.
- AffineFit.FitIsBestExactly: over the reals; floating-point rounding is not modelled.
- Topology.SparsePairs: the draws are a finite list, so that the loop ends is stated for draws that cover every pair rather than with probability one.
- LoginLimit.RefusesExactlyChains: the clock does not go back, and each call is one step, as the mutex makes it.
- Sessions.AcceptedExactlyInTime: the clock does not go back, tokens are opaque and issued once, and hashing is left out.
- Schema.CutStartupsConverge: the columns of tables other than link_attributes and of indexes are not written out, and a statement either happens or does not; the SQL engine, files and directories are left out.
- BridgeVlan.TrunkLeavesExactlyRequested: the shell is run by splitting at semicolons and words; the pipeline that looks up a master is taken to give its name, and devices that are on no bridge are left out.
- BridgeVlan.LastSetWins: device names are words without a semicolon.
- BridgeVlanShow.ListingReadsBackExactly: the kernel's order of VLANs is not used, any order and spacing reads back.
- SpanningTreeState.OrderIsIrrelevant: for ports with distinct names and distinct numbers on a bridge, as the kernel keeps them.
- SpanningTree.Sort: sort.Slice is only known to sort and permute; its algorithm is not modelled.
- Vyos.ScriptReadsBackExactly: which character a numeric or control escape stands for is any function, since the result does not depend on it; a quote that closes early is taken to fail, since what follows it is no longer dollar-quoted.
- Vyos.VyOSConfigureOps: the JSON text of the ops is left out.
- StateKeys.FlowKeysCollideExactly: flows are one line, as the flow check demands.
- StateKeys.PortForwardKey: whether a text is an IPv6 address is a parameter. Keys that are a single field, and keyDefaultRouteSet, are left out as immediate.
- Nat64.TaygaAddresses: the parsing of address text by net.ParseCIDR is a parameter, and parsing a network's own text is taken to give it back.
- IPRoute.LineRecoversRoute: single-hop routes; the indented lines of a multipath route are not printed.
- Kubernetes calls, WebSockets, streaming, HTTP routing, password hashing, the file manager, the range checks of the capability tables, and the row shaping of vtysh output.
