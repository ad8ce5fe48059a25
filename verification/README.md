# Cluster setup, topology, hashing, streaming convolution and capacity: a model

This project models the algorithms of a small-cluster deployment repository and
proves what they promise.

- **Journals and the cluster protocol.** Each node keeps an undo journal, and the
  head keeps a manifest. Disks change one atomic step at a time, and every run
  may be cut off between any two steps. `Journal`, `Doctor` and `NodeRuns` describe
  one node, `DoctorLaws` what a report and a repair come to, `ClusterRuns`,
  `ClusterSafety`, `ClusterSetup` and `ClusterOrder` all nodes. `NodeAgent` and
  `HeadAgent` are the programs, as classes that update their state in place.
- **Saved routes.** `RouteDump` rewrites a Netlink route stream in place and
  `RouteReplay` translates saved dumps to renumbered devices. The stream is the
  header and route service of sections 2.3.2 and 3.1.1 of RFC 3549, little-endian.
  `RouteMessages` has the messages themselves; `RouteEncoding` and `RouteParsing`
  say what becomes of their bytes.
- **The environment file.** `EnvText`, `EnvFile`, `EnvPreserves`, `EnvReading`,
  `EnvRoundTrip`, `EnvLaws` and `EnvInstall` are about lines of text: merging
  settings into a file, reading it back, and saving it through the journal.
- **Planning and launching.** `Addressing`, `Planner` and `PlanShape` assign addresses.
  `RingDetection`, `LldpRings`, `SavedPlans`, `PlanTargets` and `PlanRoundTrip`
  recover the plan from them. `LaunchLinks` and `PlannedTopologies` hand it to
  `Graphs`, `Rings`, `LinkTables`, `Topologies`, `CopyOrder`, `RankOrder` and
  `LaunchChecks`.
- **N-gram hashing.** `Congruences`, `Primes` and `HashTables` build the hash,
  `NGrams`, `NGramBatches`, `NGramBits` and `NGramSetup` compute ids in packed batches.
- **Streaming convolution.** `Convolutions`, `ConvSlots` and `ConvRuns` describe one
  request, `ConvPacking`, `ConvMerging`, `ConvCache` and `ConvBatches` whole batches
  over the shared cache.
- **Capacity and decode grids.** `Calibration`, `Capacity`, `Utilization`,
  `CapacityCheck` and `VerdictLaws` are block accounting and verdicts, `DecodeGrids` is the
  ragged-to-padded layout of decode tokens. `Sequences` and `Results` are shared.

`dafny verify dfyconfig.toml` checks the whole project. Programs that change
things step by step are methods and classes proved against functions. What is
promised is proved of those functions, over all inputs and all runs.

Where the code does not meet a promise for all inputs, the condition is stated:

- A decode step reads the window left for exactly one accepted token.
  `ConvRuns.DecodeAfterSpeculation` says when it is still right after several.
- Flat positions stand for the padded grid exactly under the condition of
  `DecodeGrids.FlatExactlyWhenFull`.
- `CapacityCheck.CheckCluster` has an error result: the program raises an error
  when the least useful context of one rank exceeds the profiled context of another.
- A two-node cluster that was planned behind a switch is recovered as a direct
  pair, with the same addresses and targets (`PlanRoundTrip.RoundTrip`).

## Model

| member | source | states |
|---|---|---|
| Journal.WriteKeepsRecoverable | setup_cluster_node.py:145-153 | Between the two disk steps of a journalled write, and after them, the journal still leads back to the files before setup: write-ahead order is what makes this so. |
| Journal.RestoreKeepsRecoverable | setup_cluster_node.py:795-822 | Every disk state a restore passes through, up to the one without the journal, can itself be restored to the same files. |
| Journal.RestoreOutcome | setup_cluster_node.py:795-822 | An uninterrupted restore, from any disk at all, puts every journalled path back to its before-image, leaves every other path alone, and ends without a journal. |
| Journal.JournalDeletedLast | setup_cluster_node.py:795-822 | The journal outlives every step of a restore but the last. |
| Journal.RestoreReachesOrigin | setup_cluster_node.py:795-822 | From a recoverable disk a complete restore gives exactly the files before setup. |
| Journal.NetworkRestoredFirst | setup_cluster_node.py:795-807 | No step of a restore changes another file before every journalled Netplan file holds its before-image. |
| NodeAgent.JournalAgent.Write | setup_cluster_node.py:145-153 | The in-place write refuses a path already journalled and otherwise adds exactly the write-ahead trace to the disk's history: journal first, file second. |
| NodeAgent.JournalAgent.Prepare | setup_cluster_node.py:662-680 | A transaction begins with one disk step: an empty journal of that transaction. |
| NodeAgent.JournalAgent.StartNetwork | setup_cluster_node.py:723-733 | Recording that networking was applied is one journal save; no file changes. |
| NodeAgent.JournalAgent.CheckRestore | setup_cluster_node.py:736-750 | The check passes exactly when membership and routes check out and every journalled file holds its before-image or what setup wrote; a file it names is one that holds neither. |
| DoctorLaws.CheckIs | setup_cluster_node.py:736-750 | The files pass exactly if each journalled one is its before-image, or is there with the recorded digest, mode and owner. |
| NodeAgent.JournalAgent.PutBack | setup_cluster_node.py:798-807 | One newest-first pass over the entries, networking or not, takes exactly the disk steps of undoing those entries. |
| NodeAgent.JournalAgent.Restore | setup_cluster_node.py:795-822 | Done: the whole restore trace has happened. Refused: a proper prefix of it has, and none of it if the checks failed. |
| NodeRuns.EveryRunRecoverable | setup_cluster_node.py:137-153 | Over every history of writes, restores and repairs, each cut off after any number of disk steps, the journal knows the way back to the files before setup. |
| NodeRuns.CheckNeverBlocksRecovery | setup_cluster_node.py:736-750 | After any such history the restore check accepts every file, and without a journal nothing differs from before setup. |
| NodeRuns.RestoreAlwaysFinishes | setup_cluster_node.py:795-822 | However many restores were cut short before, one that runs to its end gives back every file as it was. |
| NodeRuns.OnlyJournalledPathsDiffer | setup_cluster_node.py:137-153 | A file that differs from before setup is named in the journal, with its original contents there, and holds what setup wrote. |
| Doctor.RepairNeverOverwritesEdits | setup_cluster_node.py:921-956 | At every step of a repair, a changed file was absent, the before-image or the after-data, now is as setup wrote it, and is not a Netplan file if networking is blocked. |
| Doctor.RepairSettles | setup_cluster_node.py:856-883 | After a complete repair each repaired file is clean in the next report and accepted by the restore check; no other file's verdict has changed. |
| Doctor.RepairKeepsRecoverable | setup_cluster_node.py:921-956 | No step of a repair loses the way back to the files before setup. |
| DoctorLaws.IssuesExactly | setup_cluster_node.py:861-883 | An issue is reported exactly for each entry whose file is not there with the recorded digest, mode and owner, or whose after-image is damaged; it is repairable exactly if the contents can be recovered, the directory exists or may be made, and the file is absent, the before-image or of the recorded digest. |
| DoctorLaws.RepairOutcome | setup_cluster_node.py:921-956 | After a complete repair an entry whose contents can be recovered, from the after-image, the file itself or the rebuilt Netplan document, keeps them in the journal, and its file, if mendable and not held back, has exactly those contents and the recorded mode and owner. |
| DoctorLaws.RepairLeavesAlone | setup_cluster_node.py:921-956 | A repair changes no file that is not mendable, not journalled, or held back with blocked networking. |
| NodeAgent.JournalAgent.DoctorReport | setup_cluster_node.py:856-883 | The paths listed for repair are exactly those with a mendable entry: contents that can be recovered, a directory that can be made, and a file not intact but absent, as before setup, or of the recorded digest. Issues come in journal order; without networking the report refuses. |
| NodeAgent.JournalAgent.RepairNode | setup_cluster_node.py:921-956 | A repair on a fresh fingerprint takes exactly the steps of the repair trace and ends at its last; on a stale one it changes nothing. |
| HeadAgent.Head.Call | setup-cluster.py:620-647 | A node call leaves the cluster after the first of the node's steps, as many as the connection allows, and is reported done exactly if all happened and the reply arrived. |
| HeadAgent.Head.Preflight | setup-cluster.py:692-702 | Nodes are asked in reverse order, and exactly those whose check passes are ready. |
| HeadAgent.Head.RestoreNodes | setup-cluster.py:703-709 | Ready nodes are restored one after another whatever the others report; complete exactly if all succeed. |
| HeadAgent.Head.RestoreCluster | setup-cluster.py:692-711 | The cluster passes through exactly the states of the restore trace; the manifest goes exactly when everything succeeded. |
| HeadAgent.Head.Setup | setup-cluster.py:748-785 | Setup passes through exactly: manifest saved, calls until one fails, then a best-effort rollback if one did. It reports success exactly if there was no manifest and no call failed. |
| ClusterSafety.EveryHistorySafe | setup-cluster.py:692-785 | Over every sequence of setups, restores and maintenance, each cut off between any two disk steps on any node, every journal stays recoverable and named by the manifest. |
| ClusterSafety.NoOrphanedJournal | setup-cluster.py:748-785 | After any such history a journal of this head implies the manifest naming its transaction and node; without a manifest every node, unless another head is configuring it, has its original files. |
| ClusterSafety.UnconfiguredIsSafe | setup-cluster.py:714-716 | A cluster on which no setup has begun satisfies the invariant, so the two results above hold of everything that follows. |
| ClusterSafety.FailedPreflightChangesNothing | setup-cluster.py:692-702 | If one node's preflight fails, a restore asked for by the user changes no node and keeps the manifest. |
| ClusterSafety.EditsAreNeverRestoredOver | setup_cluster_node.py:736-750 | A journalled file edited to neither known version keeps its node untouched through any restore or rollback of the cluster, and the manifest stays. |
| ClusterSafety.RestoreCompletes | setup-cluster.py:692-711 | With every call going through, a restore from any safe state removes the manifest exactly if no listed node holds another transaction's journal, and then every listed node has its original files. |
| ClusterSetup.RollbackOutcome | setup-cluster.py:692-711 | After a best-effort restore from any safe state, each listed node that answered, was free and was not cut off has its original files, each other node is untouched, and the manifest is gone exactly if every listed node was restored and said so. |
| ClusterSetup.FailedSetupUndone | setup-cluster.py:748-785 | A setup in which a call fails, and whose rollback gets through, leaves every disk of the cluster exactly as it found it; the manifest goes exactly if no listed node was held by another transaction, and then all have their original files. |
| ClusterSetup.SetupConfigures | setup-cluster.py:748-785 | A setup none of whose calls fails leaves its manifest, and on every listed node a journal of its transaction with networking started and every key, SSH and network file as given; the head node has its environment file too. |
| ClusterOrder.SuccessIsEach | setup-cluster.py:748-785 | The calls of a setup all succeed exactly if each succeeds on the cluster its predecessors left. |
| ClusterOrder.NetworkingLast | setup-cluster.py:753-768 | At every moment of a setup, once networking has started on a node, every listed node is prepared with its keys and SSH files, and every node listed after it has finished its networking. |
| RouteDump.RemapRouteDump | setup_cluster_node.py:574-634 | The in-place rewriter, which re-reads the buffer it writes, reports the first fault in reading order or returns the input with exactly the index words of the unmodified stream replaced. |
| RouteDump.OnlyIndexesChange | setup_cluster_node.py:574-634 | An accepted dump keeps its length and every byte outside the disjoint nonzero index words, each of which then holds its image. |
| RouteDump.RoundTrip | setup_cluster_node.py:574-634 | Remapping under a map and then under one that undoes it is accepted and gives the dump back byte for byte. |
| RouteEncoding.RewriteMessages | setup_cluster_node.py:574-634 | On the bytes of any well-formed messages, with plain attributes, input and output interfaces, and multipath hops with attributes of their own, the rewriter returns the bytes of the same messages with every nonzero index translated; it refuses exactly if some nonzero index has no translation, naming the first. |
| RouteParsing.AcceptedExactlyMessages | setup_cluster_node.py:574-634 | The bytes accepted are exactly those that are the bytes of well-formed messages all of whose nonzero indexes have a translation. |
| RouteParsing.Rewrite | setup_cluster_node.py:574-634 | On any bytes at all, the rewriter succeeds exactly on such messages and returns their translation. |
| RouteReplay.DeviceIndexes | setup_cluster_node.py:637-652 | Saved indexes are translated exactly when every saved device is live with the same hardware address or, if none was saved, the same index, and no saved index repeats; a fault reported is a device's. |
| RouteReplay.RestoredRoutes | setup_cluster_node.py:637-659 | Images are made exactly when all devices are sound and every saved dump can be read; otherwise the fault is that of a device or of the first unreadable dump. |
| RouteReplay.ReplayKeepsEverything | setup_cluster_node.py:637-659 | Devices renumbered, the replayed dump still determines the saved one: the reversed translation gives it back. |
| EnvFile.MergeEnv | setup_cluster_node.py:168-202 | The loop over lines and settings computes the merged text, with the first unreadable line or unwritable value as its fault; the next two rows say what the text and the faults are. |
| EnvPreserves.MergeIs | setup_cluster_node.py:168-202 | A merge succeeds exactly if settings are known, lines readable and values writable. The text is then, byte for byte and in order, exactly the original lines that are blank, are comments other than the title, or assign a key that is not a cluster key; a line feed if those do not end in one; the title; and one line for each setting. |
| EnvPreserves.MergeFails | setup_cluster_node.py:170-201 | A refusal is for an unknown setting, else for the first line that is no assignment of an identifier or has unmatched quotes, else for a value. |
| EnvFile.LoadEnvFile | run-recipe.py:649-678 | The reader takes the lines in turn, each assignment replacing earlier ones; the next row says what that comes to. |
| EnvReading.LoadIs | run-recipe.py:668-677 | A key reads as the value of the last line that assigns it, quotes taken off: double ones, then single ones; comments and lines without an equals sign assign nothing. |
| EnvLaws.MergeReplaces | setup_cluster_node.py:168-202 | Merging into a merged file is merging into the original, success or fault alike; so saving the same settings twice changes nothing. |
| EnvLaws.MergedReadsBack | run-recipe.py:649-678 | The merged file reads back as the generated settings, over what the original read as on every other key. |
| EnvRoundTrip.KeptSplitAgain | setup_cluster_node.py:172-190 | Kept lines joined split again into lines that are all kept and read the same, even where a dropped line let a carriage return meet a line feed. |
| EnvInstall.InstallEnv | setup_cluster_node.py:205-235 | Saving the file writes it through the journal once, finds nothing to do, or refuses, for the first reason in the program's order; only a first save takes a disk step. |
| EnvInstall.SavingAgain | setup_cluster_node.py:224-232 | A second save, whatever its values, is no change exactly if the merged text is the same and is refused otherwise; the journal keeps the file from before the first. |
| Planner.MakePlan | setup-cluster.py:190-226 | A pool is refused exactly for the program's reasons, in its order; otherwise every node gets the interfaces, pings and SSH targets of the cables it is on. |
| PlanShape.PoolIs | setup-cluster.py:190-208 | A pool is taken exactly if the MTU is in range, the pool lies in 10/8, 172.16/12 or 192.168/16, its prefix is at most 24, it holds two subnets for every cable, and none of these contains a management address. |
| PlanShape.RingPlan | setup-cluster.py:212-226 | Around a ring each node has both rails of port 0 on its own cable and of port 1 on the cable of the node before it, at base + 256 (2 cable + rail) + 11 + position, and pings exactly the other ends of those. |
| PlanShape.OnePortPlan | setup-cluster.py:217-226 | On a common network each node has the two rails of its port and pings every other node, in order, on the first and then the second. |
| PlanShape.PlanCommon | setup-cluster.py:209-211 | Every node gets the MTU, the node list, its own management address and the subnets, and as SSH targets every other node and then its ping targets. |
| Addressing.AddressesAreUnique | setup-cluster.py:213-221 | No two planned interfaces share an address, and two share a subnet only on the same cable and rail. |
| RingDetection.DetectRing | setup-cluster.py:56-71 | A ring is found from subnets exactly when on both rails port 0 of each node shares a network with port 1 of one other node and following them is one cycle over all nodes. |
| LldpRings.DetectLldpRing | setup-cluster.py:74-113 | A ring is found from neighbour reports exactly when identified, reciprocal, twin-agreeing, port-alternating cables form one cycle over all nodes; the walk ends on every input. |
| SavedPlans.SavedConfiguration | setup-cluster.py:274-329 | The saved state is refused exactly when it does not determine a configuration; otherwise the one returned is read from the saved addresses. |
| SavedPlans.SoundIs | setup-cluster.py:276-307 | The checks before that come to this: one MTU, the twins of one port or of both on every node, and, when asked, every saved address live on its interface with that MTU. |
| PlanRoundTrip.PlanIsRecoverable | setup-cluster.py:274-329 | The addresses of any plan are accepted by the recovery, from any list of the same nodes that begins with the same head. |
| PlanRoundTrip.RoundTrip | setup-cluster.py:274-329 | What is recovered from a plan's addresses alone is the plan: ring order or ports, interfaces, MTU, subnets, and the same targets. |
| LaunchLinks.ClusterEnv | setup-cluster.py:229-271 | Uniform ports give ranks over the planned addresses; otherwise links for every cable and rail, and the one interface that manages every node, refused exactly if there is none. |
| PlanShape.RingLinks | setup-cluster.py:256-262 | Around a ring the links are, for each node in order, the two rails of its cable to the next node, with the addresses planned for both ends. |
| PlanShape.CommonLinks | setup-cluster.py:259-262 | On a common network the links are exactly those between an earlier and a later node on either rail. |
| PlannedTopologies.AcceptedPlansAreSeparate | setup-cluster.py:207-208 | A plan that was not refused keeps its subnets clear of every management address. |
| PlannedTopologies.PlansLaunch | setup-cluster.py:229-271 | The links written for any plan build a topology: a ring for four nodes or more around one, complete otherwise; and the planned order is accepted for launch. |
| Topologies.Build | cluster_topology.py:41-70 | A topology is built exactly for acceptable links that connect every node to the first, and a refusal names a fault the links have. |
| LinkTables.TableEntry | cluster_topology.py:52-69 | A node is another's neighbour exactly if a link joins them, and is dialled by the least address it has on such a link. |
| LinkTables.TableIgnoresOrder | cluster_topology.py:52-69 | The neighbour table, and so every path and order computed from it, does not depend on the order or direction in which links are listed. |
| RankOrder.Paths | cluster_topology.py:93-108 | The queue-driven search over rail lists returns the paths of the breadth-first specification; an unknown head is refused. |
| Graphs.ShortestPaths | cluster_topology.py:93-108 | A path is found exactly to what can be reached; it is a walk over links, and no walk there is shorter. |
| CopyOrder.FirstOfShortest | cluster_topology.py:93-108 | Of all shortest walks to a node, its copy path is the first in the order of the nodes' addresses. |
| RankOrder.CopyPathsAreRoutes | cluster_topology.py:93-108 | Every copy path is a shortest walk; every hop dials an address that the hop owns, the least on a link from the node before it; and the route to any hop is the beginning of each route through it, as jump chains need. |
| Rings.NeverStuck | cluster_topology.py:116-119 | On a connected network of at least four nodes, each with two neighbours, a chain that misses nodes can always be continued, so the least of an empty set is never asked for. |
| Rings.WalkRing | cluster_topology.py:116-119 | The walk goes once around every node and closes, starting towards the lesser neighbour. |
| RankOrder.RankOrder | cluster_topology.py:110-120 | An order exists exactly for complete networks and rings; it is by address, or around the ring from the head. |
| RankOrder.Subset | cluster_topology.py:122-125 | A selection is a topology exactly if its nodes are distinct, known and connected by their own links. |
| RankOrder.ValidateOrder | cluster_topology.py:127-135 | An order passes exactly if it selects a complete network, or a whole ring in its physical order. |
| RankOrder.RankOrderIsAllowed | cluster_topology.py:110-135 | The order the program computes is always one that it accepts. |
| LaunchChecks.ValidateLaunch | cluster_topology.py:165-199 | A launch passes exactly with the head first, sizes that fit, an allowed order, and on a ring the native backend, tensor parallelism only and no contrary setting; it then gets the ring settings. |
| LaunchChecks.RingLaunchedWhole | cluster_topology.py:127-199 | Of a ring's nodes only all of them in physical order, a pair of neighbours, or one node can pass: no partial ring is ever launched. |
| Primes.IsPrime64 | mods/qwen38-flash-next-ple-fp8-fix/ple_layer.py:69-92 | The loops of trial division, splitting and repeated squaring decide the test as specified: no small divisor and every base a witness. |
| Primes.AcceptedIs | mods/qwen38-flash-next-ple-fp8-fix/ple_layer.py:69-92 | With v - 1 split into an odd number times a power of two, the numbers accepted are the twelve small primes, and those that no small prime divides and that are strong probable primes of, or divide, all seven bases. |
| Primes.PrimesPass | mods/qwen38-flash-next-ple-fp8-fix/ple_layer.py:69-92 | The test never rejects a prime. |
| Congruences.Fermat | mods/qwen38-flash-next-ple-fp8-fix/ple_layer.py:80-91 | What the test rests on: a unit modulo a prime has power one at the prime less one. |
| Congruences.PrimeBeyond | mods/qwen38-flash-next-ple-fp8-fix/ple_layer.py:95-107 | There is a prime beyond every number, so the search for the next one ends. |
| Primes.NthPrimeAfter | mods/qwen38-flash-next-ple-fp8-fix/ple_layer.py:95-107 | The search over odd candidates ends, and its result is the count-th accepted number after the start. |
| Primes.NthStep | mods/qwen38-flash-next-ple-fp8-fix/ple_layer.py:95-107 | Each result is followed by the next accepted number, none between. |
| Primes.NthIncreases | mods/qwen38-flash-next-ple-fp8-fix/ple_layer.py:95-107 | Results strictly increase with the count. |
| Primes.NoPrimeSkipped | mods/qwen38-flash-next-ple-fp8-fix/ple_layer.py:95-107 | No prime between the start and a result is skipped: it is the result of a smaller count. |
| Primes.ExactBelow1681 | mods/qwen38-flash-next-ple-fp8-fix/ple_layer.py:69-92 | Below the square of the first prime not divided by, the test is exact. |
| HashTables.BuildMultipliers | mods/qwen38-flash-next-ple-fp8-fix/ple_layer.py:270-278 | Multipliers are the odd numbers drawn from the mixed seed of layer and position. |
| NGramBits.SplitMixIs | mods/qwen38-flash-next-ple-fp8-fix/ple_layer.py:62-66 | The mixed seed, bit by bit: add, fold by 30, multiply, fold by 27, multiply, fold by 31, in 64 bits, with the published constants. |
| NGramBits.DrawnIsOdd | mods/qwen38-flash-next-ple-fp8-fix/ple_layer.py:270-278 | A multiplier is one more than twice the mixed value of seed, layer and shift modulo half the largest factor that fits. |
| HashTables.TokenProductsFit | mods/qwen38-flash-next-ple-fp8-fix/ple_layer.py:270-278 | For every vocabulary below two to the 63rd, multipliers are odd and a token times one stays below two to the 63rd. |
| HashTables.BuildTables | mods/qwen38-flash-next-ple-fp8-fix/ple_layer.py:285-294 | Table sizes are the accepted primes of the global head numbers and offsets their running sums. |
| HashTables.SizesRunOn | mods/qwen38-flash-next-ple-fp8-fix/ple_layer.py:285-294 | Sizes run on through heads and layers: the first accepted number from the base up, then each next one. |
| HashTables.HeadSizesDiffer | mods/qwen38-flash-next-ple-fp8-fix/ple_layer.py:288-290 | No two heads, of one layer or of two, have tables of the same size. |
| HashTables.IdsStayInRange | mods/qwen38-flash-next-ple-fp8-fix/ple_layer.py:285-305 | A head's ids lie in its own range, ranges are disjoint, and all lie below the padded vocabulary. |
| NGramSetup.Setup | mods/qwen38-flash-next-ple-fp8-fix/ple_layer.py:249-305 | Refused exactly for bad dimensions; otherwise the constructed hash is fit for every token, which is all that the batch results below ask of it. |
| NGramSetup.IdsAreRows | mods/qwen38-flash-next-ple-fp8-fix/ple_layer.py:442-454 | Every id computed from tokens is a row of its head's table and of the padded table. |
| NGramSetup.HeadsNeverShareRows | mods/qwen38-flash-next-ple-fp8-fix/ple_layer.py:442-454 | Different heads never give the same id, for any tokens. |
| NGrams.ShiftIsDirect | mods/qwen38-flash-next-ple-fp8-fix/ple_layer.py:334-366 | The running-maximum shift is the direct one: the token so far back, or end-of-sequence if one lies in between. |
| NGrams.Pack | mods/qwen38-flash-next-ple-fp8-fix/ple_layer.py:402-437 | Scattered by sorted search, each valid token is in its request's row and every other place of the used rows is end-of-sequence; the rest of the buffer is untouched. |
| NGramBatches.Forward | mods/qwen38-flash-next-ple-fp8-fix/ple_layer.py:368-454 | The ids of every token in a packed batch, on the device or offloaded, are those of its own request's tokens alone; padding and other requests do not matter. |
| NGramBits.IdsByBits | mods/qwen38-flash-next-ple-fp8-fix/ple_layer.py:334-454 | A head's id is its offset plus, modulo its size, a number below two to the 63rd each of whose bits is the parity of that bit in the products of multipliers with the current token and as many before it as the n-gram is long, end-of-sequence standing for those beyond the sequence. |
| NGramBatches.ChunksAgree | mods/qwen38-flash-next-ple-fp8-fix/ple_layer.py:368-454 | However a stream is cut, with the last tokens carried as context a token's ids in its chunk are its ids in the whole stream. |
| NGramBatches.BatchIsStream | mods/qwen38-flash-next-ple-fp8-fix/ple_layer.py:368-454 | A request whose context was carried from one part of its stream and whose next part is in the batch gets the ids of the whole stream, wherever in the batch it stands. |
| NGramBatches.EmptyContextIsNothing | mods/qwen38-flash-next-ple-fp8-fix/ple_layer.py:334-366 | A context of end-of-sequence tokens stands for nothing: shifts are those of the bare stream. |
| Convolutions.ContinuesCausally | mods/qwen38-flash-next-ple-fp8-fix/ple_layer.py:716-782 | Convolving on from the window gives the outputs of one zero-initialised pass over the whole stream. |
| Convolutions.CausalOfImpulse | mods/qwen38-flash-next-ple-fp8-fix/ple_layer.py:716-782 | The convolution meant: a single input comes out once through each tap, at the tap's distance, times its weight, and nowhere else. |
| Convolutions.CausalAdds | mods/qwen38-flash-next-ple-fp8-fix/ple_layer.py:716-782 | Outputs of added streams add, so that single inputs determine every output. |
| ConvSlots.DecodeContinues | mods/qwen38-flash-next-ple-fp8-fix/ple_layer.py:716-782 | A decode outputs the causal convolution at its token and leaves the window moved on by one. |
| ConvSlots.PrefillContinues | mods/qwen38-flash-next-ple-fp8-fix/ple_layer.py:784-914 | A chunk, whatever its packed width, outputs the causal convolution and leaves the window after it; an empty one leaves the slot alone. |
| ConvSlots.SpecContinues | mods/qwen38-flash-next-ple-fp8-fix/ple_layer.py:916-1050 | A speculative step, rolled back to the tokens accepted last, outputs the causal convolution of its candidates and leaves the window for whichever number of them is accepted. |
| ConvSlots.RestOfSlotKept | mods/qwen38-flash-next-ple-fp8-fix/ple_layer.py:716-1050 | No step touches what lies in a slot behind its window, or behind a speculative step's candidates. |
| ConvRuns.StreamingEqualsOnePass | mods/qwen38-flash-next-ple-fp8-fix/ple_layer.py:716-1050 | For any split of a stream into chunks, decodes and speculative steps, outputs on accepted tokens are the one causal convolution of them, and the slot holds the window of the last accepted ones. |
| ConvRuns.DecodeAfterSpeculation | mods/qwen38-flash-next-ple-fp8-fix/ple_layer.py:716-1050 | A decode straight after several accepted tokens is right exactly when those after the first add nothing new to the next output. |
| ConvRuns.DecodeAfterTwoAcceptedDiffers | mods/qwen38-flash-next-ple-fp8-fix/ple_layer.py:716-1050 | A concrete filter and slot where such a decode is wrong. |
| ConvRuns.SlotsAreIndependent | mods/qwen38-flash-next-ple-fp8-fix/ple_layer.py:716-1050 | What becomes of a slot over a run of batches is its own steps' doing. |
| ConvPacking.Pack | mods/qwen38-flash-next-ple-fp8-fix/ple_layer.py:951-978 | The scatter with its dummy row and clamped columns puts each request's tokens, in order, at the head of its row and zeros after them. |
| ConvPacking.Unpack | mods/qwen38-flash-next-ple-fp8-fix/ple_layer.py:1017-1018 | Gathering gives every request its row's outputs back, and zeros at padding positions. |
| ConvCache.Cache.DecodeBatched | mods/qwen38-flash-next-ple-fp8-fix/ple_layer.py:716-782 | Each row of a batch takes its turn on its own slot; slots not in the batch, and the null slot, keep their rows; refused exactly if initial-state flags are short, changing nothing. |
| ConvCache.Cache.PrefillBatched | mods/qwen38-flash-next-ple-fp8-fix/ple_layer.py:784-914 | As for decodes, with each request's chunk taken from the flat batch and its outputs put back there; refused exactly if flags are missing or lists too short. |
| ConvCache.Cache.SpecBatched | mods/qwen38-flash-next-ple-fp8-fix/ple_layer.py:916-1050 | As for chunks, rolled back by each row's accepted count; refused exactly if the cache rows cannot retain a row of candidates. |
| ConvCache.Cache.Dispatch | mods/qwen38-flash-next-ple-fp8-fix/ple_layer.py:1052-1163 | Three groups that share no slot each act on the rows as they were before the batch, whatever the order of the passes. |
| ConvBatches.DispatchBatch | mods/qwen38-flash-next-ple-fp8-fix/ple_layer.py:1052-1163 | A dispatched batch leaves in the shared array exactly the rows, and outputs exactly the values, of each request's own step. |
| ConvBatches.DispatchAll | mods/qwen38-flash-next-ple-fp8-fix/ple_layer.py:1052-1163 | Forward passes one after another leave every slot of the shared array where its request's own run leaves it, with that run's outputs. |
| ConvBatches.EverySlotStreams | mods/qwen38-flash-next-ple-fp8-fix/ple_layer.py:1052-1163 | Over any run of dispatched batches, the outputs in a slot are the one causal convolution of the tokens accepted there, whatever the other slots did. |
| ConvMerging.Merge | mods/qwen38-flash-next-ple-fp8-fix/ple_layer.py:1149-1157 | Outputs of the two kinds of tokens are written back to the positions their tokens came from. |
| ConvMerging.SplitsCover | mods/qwen38-flash-next-ple-fp8-fix/ple_layer.py:1068-1080 | Index lists that split a batch name every position of it. |
| ConvMerging.MergeUndoesSplit | mods/qwen38-flash-next-ple-fp8-fix/ple_layer.py:1068-1157 | Splitting a batch and merging its parts gives the batch back, so each output lands on its own token. |
| Calibration.CacheModel | mods/memory-profile/capacity.py:106-144 | A profile gives a model exactly if its layout is one uniform pool of safe groups with whole, sufficient blocks per request; the model charges the profiled context what was measured, plus slack. |
| Calibration.RoundIsNearest | mods/memory-profile/capacity.py:126-135 | Blocks per request are rounded to a nearest whole number, of two to the even one. |
| VerdictLaws.FullGroupsAre | mods/memory-profile/capacity.py:106-144 | The groups of a model are the counts and block sizes of exactly the full-attention layouts, in order. |
| VerdictLaws.SlackIs | mods/memory-profile/capacity.py:106-144 | The slack is one block, and for each group its count times one more than the least blocks that hold the lookahead. |
| VerdictLaws.DemandIs | mods/memory-profile/capacity.py:147-165 | One request needs the residue, the slack and, for each full-attention group, its count times the least blocks that hold the context. |
| Capacity.SharedBudgetIsLeast | mods/memory-profile/capacity.py:168-172 | The shared budget is the least one byte value with which every rank holds the largest block demand in whole blocks. |
| Capacity.KvBytesGrow | mods/memory-profile/capacity.py:147-165 | A longer context never needs fewer cache bytes. |
| Utilization.SettingIsLeast | mods/memory-profile/capacity.py:191-208 | The rounded setting is the least number of thousandths whose share covers a budget on every rank. |
| Utilization.SettingServes | mods/memory-profile/capacity.py:168-208 | Under the setting for a context's shared budget, every rank's automatic cache serves that context on every rank. |
| CapacityCheck.CheckCluster | mods/memory-profile/capacity.py:379-460 | The three cluster verdicts are the worst of the hosts' own; a context outside some rank's bounds is unknown, and the check fails exactly if the smallest common context is outside them. |
| VerdictLaws.TargetIs | mods/memory-profile/capacity.py:423-429 | A target context is unjudged exactly if outside some rank's bounds; it fits a host exactly if the memory covers the reserve on top of each startup peak and of the growth, with the least cache that serves every rank and the least setting, at most 1000, that gives it. |
| VerdictLaws.AnyKvIs | mods/memory-profile/capacity.py:430-455 | The same for the smallest context that every rank takes; it is ruled out exactly if, besides, the memory is no more than the reserve on top of a start without any cache. |
| VerdictLaws.ProfiledIs | mods/memory-profile/capacity.py:394-426 | The profiled setting suits a host exactly if it has room for the cache made of the most blocks that every rank can hold, and that is no less than the cache profiled. |
| VerdictLaws.ClusterIs | mods/memory-profile/capacity.py:456-460 | A cluster verdict is ruled out exactly if some host's is, and fits exactly if all do. |
| CapacityCheck.KeepsProfiledCache | mods/memory-profile/capacity.py:402-421 | A rank gets its profiled cache back exactly if every rank's own blocks would be enough for it. |
| CapacityCheck.AutomaticKvWithinBudget | mods/memory-profile/capacity.py:394-414 | The blocks shared by all ranks fit in each rank's own budget. |
| CapacityCheck.TargetFitsMeansAnyFits | mods/memory-profile/capacity.py:427-455 | A host that fits the target context fits the smallest useful cache. |
| CapacityCheck.ClusterFitsMeansAnyFits | mods/memory-profile/capacity.py:427-460 | So does the cluster, and the check does not fail. |
| CapacityCheck.MoreMemoryNeverWorsens | mods/memory-profile/capacity.py:404-460 | More available memory on any hosts never worsens any of the three verdicts. |
| DecodeGrids.PlacedInOwnRow | patches/sparse_attn_indexer_kpool_sm121.py:105-134 | Every flat decode token gets a request and a place among that request's tokens that give its position back. |
| DecodeGrids.PlaceIsTaken | patches/sparse_attn_indexer_kpool_sm121.py:105-134 | Every place within a request's length is some token's: with the above, the indices are a bijection. |
| DecodeGrids.Scatter | patches/sparse_attn_indexer_kpool_sm121.py:137-161 | The indexed write fills each row with its request's tokens in order and the padding value after them. |
| DecodeGrids.UnpaddingReturns | patches/sparse_attn_indexer_kpool_sm121.py:137-161 | Reading each token's place back gives the tokens. |
| DecodeGrids.SequenceLengths | patches/sparse_attn_indexer_kpool_sm121.py:164-198 | In the padded grid a real row's length is one more than the position of its own token, and a padded row's is zero. |
| DecodeGrids.FlatExactlyWhenFull | patches/sparse_attn_indexer_kpool_sm121.py:164-198 | Taking the first flat positions instead is right exactly when every request before one with tokens fills its row. |
| DecodeGrids.UniformIsReshape | patches/sparse_attn_indexer_kpool_sm121.py:651-691 | On a uniform batch the rows end to end are the flat tokens, so the reshape and the scatter agree. |

## Left out

- ClusterSafety.EveryHistorySafe: calls are synchronous, so a call cut off does not go on later, and a reboot in the middle of one disk step leaves the old contents or the new.
- ClusterSetup.FailedSetupUndone: the rollback's own calls are taken to get through; what any other rollback leaves is `ClusterSetup.RollbackOutcome`.
- ClusterSafety.NoOrphanedJournal: a setup's identifier is never that of another head's transaction.
- NodeAgent.JournalAgent.Restore: live addresses, links, IPv6 settings, Docker membership and `netplan apply` are answers of the world, and directories created or removed, ownership of parents and symbolic-link checks are not on the modelled disk.
- NodeAgent.JournalAgent.DoctorReport: only the file part of a report; interface, route and Docker issues come in as one flag that blocks networking, and fingerprints as one that says whether they match.
- Doctor.RepairSettles: the Netplan document rebuilt for an old journal is a function of the entry, since YAML is not modelled; its hash is still checked.
- Journal.RestoreReachesOrigin: the digest is any function, so "as setup wrote it" means equal digests; two contents with one digest are not told apart, as in the program.
- RouteDump.RemapRouteDump: hosts are little-endian.
- EnvLaws.MergeReplaces: text is ASCII, and a links value is printable, as compact JSON always is; that it is JSON is not modelled.
- EnvLaws.MergedReadsBack: under the same reading of text.
- EnvInstall.SavingAgain: the checks outside the files pass both times; ownership of the directory and symbolic links are not modelled.
- Planner.MakePlan: subnets of a plan are a set, management interfaces have one address each, and the pool is a network given by numbers, not text; the MTU is taken as already in range.
- PlanRoundTrip.RoundTrip: targets are compared up to order.
- LaunchLinks.ClusterEnv: the InfiniBand device names and the text of the ring settings are not modelled; two flags stand for the settings.
- Primes.ExactBelow1681: that no composite passes at all below two to the 64th rests on a published computation and is not proved.
- NGramBatches.Forward: on the device a batch has at least one request.
- ConvRuns.StreamingEqualsOnePass: one channel over the integers, before the activation; data types, quantisation and the activation itself are not modelled.
- ConvCache.Cache.Dispatch: the three groups are given; how attention metadata splits a batch into them is not modelled.
- CapacityCheck.CheckCluster: every host has a calibrated cache and has passed the identity and hardware checks; shares are exact numbers, where the program uses floating point.
- Calibration.CacheModel: measurements are exact numbers; a fractional count of blocks is not one of its inputs.
- LaunchChecks.ValidateLaunch: sizes and settings have been read from the command line.
- DecodeGrids.SequenceLengths: positions are not narrowed to 32 bits.
- Choosing between topologies (setup-cluster.py lines 116-188) asks the user and the inventory, and would add only case distinctions.
- SSH keys and sessions, passwords, `sudo`, Docker groups, address and route replay, and everything else that runs a command.
- Parsing of YAML, JSON, IP addresses and command lines.
- The kernels that pool, compress and select (`expand_pools_and_append_tail`, `pack_seq_triton`, top-k) are not part of this model.
- Full-concurrency estimates, and hosts whose cache layout cannot be resized.
- Recipes, image builds, the model cache, reports, plots and benchmarks.
