# The edge manageability framework: a model of its core logic, with proofs

The framework is mostly deployment glue, but a few places in it hold real algorithms and small
protocols. This project models those in Dafny and proves what they promise, or, where they do not
keep a promise, exactly when they do. `dafny verify dfyconfig.toml` checks the whole project.

The modules, by the part of the repository they belong to:

- **Configuration merge** (`mage/config.go`, `mage/generate.go`). `Values` is a decoded YAML tree,
  `MergeValues` the right-biased recursive merge with its algebra, `MapHeap` nested maps on the heap
  and the in-place `deepMerge` that grafts submaps by reference, `ClusterConfig` the two loaders
  that fold a list of profiles.
- **Freezing resource limits** (`tools/resource-limit/manage-resource-limit.py`). `DottedKeys` and
  `Decimals` are the textual forms, `ResourceMapping` the data, `ResourceMetrics` the aggregation,
  `ResourceNesting` the nested dictionaries, `KeyRemoval` the recursive delete with pruning,
  `ResourceTree` and `FreezeUnfreeze` the round trip of the two commands.
- **RKE2 upgrade** (`on-prem-installers/mage/upgrade.go`, `on-prem-installers/mage/test.go`,
  `internal/retry/retry.go`). `Retry` is the retry loop, `TimeBudget` the `DEPLOYMENT_TIMEOUT`
  handed from wait to wait, `UpgradePath` the planner and `Downgrades` when it goes back.
  `UpgradeLog` says which logs of plans and observations are safe, `UpgradeRun` is the upgrade as a
  state machine over what the cluster does, `UpgradeBounds` its time and its end, `UpgradeOutcome`
  when it completes and fails, and `Upgrade` the program, which takes exactly the machine's steps.
- **Waiting for a deployment** (`mage/wait.go`): `Completion`.
- **Maintenance mode** (`e2e-tests/orchestrator/helpers/o11y_helpers.go`): `Maintenance`.
- **Manifest parser** (`mage/generate.go`): `AppConfig`.
- **Load-balancer addresses** (`mage/deploy.go`): `AddressPool`.
- **Watcher readiness** (`mage/tenant_utils.go`): `Watchers`.

`Wrappers`, `Sequences` and `Clock` hold what several of them share.

Go's and Python's maps are visited in no fixed order: the loops over them pick any key that is
left, so what is proved of them holds for every order. A program that waits is modelled against
a script of what the world does (how long each call takes, what it answers, whether the node moves
meanwhile). Scripts are finite but arbitrary; a run whose script ends early counts as still running,
so what is said of all runs is said of every prefix of every run.

Where the code does something other than one might expect:

- Regrouping a merge, `(a + b) + c` as `a + (b + c)`, is not sound in general. `RegroupExactly` says when it is.
- Unfreezing does not restore the values in general: a mapped key that was present is removed, and an
  empty dictionary or a falsy scalar on the way to a mapped key is pruned. `UnfreezeUndoesFreeze` has
  the exact condition.
- A container without any sample freezes to a request of 499999 and a limit of 200 or 256;
  `RequestWithinLimitExactly` says which samples keep requests within limits.
- The wait for `Ready` lets a node pass whose state is `Unknown` or empty: only `False` is rejected. A
  later plan may therefore go to a node never seen ready (`UnknownIsUpgraded`). It goes to ready nodes
  only exactly if no plan rests on an answer other than `True` and `False` (`OnReadyExactly`).
- The remainder stored after the wait for a version is negative exactly if the wait ended a second
  or more past its deadline; the one after the wait for a status is clamped at zero
  (`NegativeExactly`). In both cases the next wait makes no attempt (`NextWaitTriesExactly`).
- From a version that is not on the list the planner may go back to an older patch of the same minor
  release; `DowngradesExactly` says when.
- Taking a host out of maintenance mode detaches it and names it after its identifier, whatever
  site and name it had before. A resource that was created by a call whose answer did not name it
  stays behind, and a site left so loses its region.
- The watcher check compares counts, so an unregistered active watcher can stand in for a missing one.

## Model

| member | source | states |
|---|---|---|
| MergeValues.MergeValuesMap | mage/generate.go:382-407 | For every pair of trees and every order of visiting their keys the two loops build the one right-biased merge |
| MergeValues.MergeAtPath | mage/generate.go:382-407 | What the merge holds at any path, told from the inputs: the right value, or the merge of the two maps there, or the left value unless a non-map of the right hides it |
| Values.HidesMeansNonMapOnTheWay | tools/resource-limit/manage-resource-limit.py:171-174 | A path is hidden, so that nothing can be found or stored there, if and only if some proper prefix of it holds a non-map |
| Values.FalsyExactly | tools/resource-limit/manage-resource-limit.py:229-236 | Exactly six values count as empty or zero |
| MergeValues.MergeUnits | mage/generate.go:382-407 | The empty map is a unit on both sides |
| MergeValues.MergeIdempotent | mage/generate.go:382-407 | Merging a document with itself gives the document |
| MergeValues.MergeAbsorbs | mage/generate.go:382-407 | Merging the same document twice in a row is merging it once |
| MergeValues.MergeCongruence | mage/generate.go:382-407 | If a document cannot tell two bases apart, it still cannot after another one was merged into both |
| MergeValues.EarlierOccurrenceAbsorbed | mage/config.go:96-134 | In any fold, an occurrence of a document that occurs again later has no effect |
| MergeValues.CoveredExactly | mage/generate.go:382-407 | Merging c over a gives c if and only if every key of a, through nested maps, is also in c |
| MergeValues.RegroupExactly | mage/generate.go:382-407 | (a+b)+c = a+(b+c) if and only if at every path where a and c hold maps and b a non-map, c covers a |
| MapHeap.MapNode.Remove | mage/config.go:114 | Deleting a key in place removes that entry from the denoted tree and keeps the heap tree well formed |
| MapHeap.MergeSubmap | mage/config.go:68-69 | The recursive step merges the submap through its reference, writes only nodes under that key and leaves the new map as it was |
| MapHeap.DeepMerge | mage/config.go:62-79 | For disjoint heap trees and every order of keys: afterwards the base denotes the pure merge, only nodes of the old base were written, the new tree is unchanged, and its entries were taken over by reference exactly where not both sides had a submap |
| ClusterConfig.StripClusterValues | mage/config.go:131-133 | Deletes root.clusterValues in place: afterwards nothing is at or under it, what is above it is of the same kind, and every other path holds what it held |
| ClusterConfig.ParseClusterValues | mage/config.go:82-137 | The heap fold gives the pure left fold over the listed profiles followed by the stripped cluster file, although grafted submaps are changed by later merges; every non-map value of the cluster file but its list is in the result at its own path |
| ClusterConfig.LoadClusterConfig | mage/generate.go:449-492 | The loop gives the pure fold over those entries that are texts and load, skipping the others |
| ClusterConfig.ParseSucceedsExactly | mage/config.go:82-137 | Parsing succeeds if and only if the file, its list and every listed profile load, and then equals the merge of all of them with the stripped cluster file last |
| ClusterConfig.OwnErrors | mage/config.go:83-130 | Which error both loaders report over the cluster file itself: unreadable, malformed, no root map, no list in it |
| ClusterConfig.EntryErrors | mage/config.go:96-109 | The first loader fails over the first entry that is no text or does not load, and says so; the second one does not fail over entries |
| ClusterConfig.SkippedEntries | mage/generate.go:471-491 | The second loader merges the documents of those entries that are texts and load, in order, wherever the others stand |
| ClusterConfig.LoadedAppend | mage/generate.go:472-488 | An entry at the end of the list adds its document at the end, or nothing if it is no text or does not load |
| ClusterConfig.ParseExtendsLoad | mage/generate.go:471-491 | When everything loads and the file does not list itself, the first loader's result is the second one's merged with the stripped cluster file |
| ClusterConfig.SelfListingIrrelevant | mage/config.go:110-134 | Taking every mention of the cluster file off its own list changes neither result nor error |
| ClusterConfig.RepeatedProfile | mage/config.go:96-118 | Of a profile listed twice only the later mention counts, also where another entry fails to load |
| DottedKeys.JoinSplit | tools/resource-limit/manage-resource-limit.py:169 | Joining undoes splitting, so splitting is injective, and no part holds the separator |
| DottedKeys.SplitJoin | tools/resource-limit/manage-resource-limit.py:239 | Splitting undoes joining of parts without the separator |
| Decimals.DecimalRoundTrip | tools/resource-limit/manage-resource-limit.py:181-186 | A printed amount, negative ones included, reads back as the same number |
| ResourceMetrics.Extremes | tools/resource-limit/manage-resource-limit.py:50-56 | The loop computes twice the highest sample, or floor, and half the lowest, or starting value |
| ResourceMetrics.SampledExactly | tools/resource-limit/manage-resource-limit.py:50-56 | A container's request is at most its limit if and only if it has a sample |
| ResourceMetrics.UsageMeans | tools/resource-limit/manage-resource-limit.py:50-56 | A sampled container asks for half its lowest sample and is limited to twice its highest one, within 999999, 100 and 128 |
| ResourceMetrics.LastCpuReading | tools/resource-limit/manage-resource-limit.py:40-73 | A container's CPU samples are those of its last labelled and named reading |
| ResourceMetrics.LastMemoryReading | tools/resource-limit/manage-resource-limit.py:79-106 | A container's memory samples are those of its last labelled reading |
| ResourceMetrics.ReadingsOnly | tools/resource-limit/manage-resource-limit.py:40-106 | No container appears without a reading of its own |
| ResourceMetrics.GetMetrics | tools/resource-limit/manage-resource-limit.py:23-118 | A usage per container from the last reading of each kind; fails if and only if some container has only one kind of reading |
| ResourceMetrics.FindRule | tools/resource-limit/manage-resource-limit.py:135-141 | Finds the first prefix that fits the pod, if any does |
| ResourceMetrics.RuleForExactly | tools/resource-limit/manage-resource-limit.py:135-141 | The rule is the first one whose prefix begins the pod's name; there is none if no prefix does |
| ResourceMetrics.KeyForExactly | tools/resource-limit/manage-resource-limit.py:135-150 | A container has a key if and only if the first rule for its pod gives it that key |
| ResourceMetrics.FrozenKeysAreMapped | tools/resource-limit/manage-resource-limit.py:149-162 | Every key that is frozen is among the mapped keys that unfreezing removes |
| ResourceMapping.MappedKeysExactly | tools/resource-limit/manage-resource-limit.py:217-222 | A key is mapped if and only if some rule of some namespace gives it to some container |
| ResourceMetrics.GetResourceConfig | tools/resource-limit/manage-resource-limit.py:125-164 | The aggregate over all pods, nothing for an unmapped namespace |
| ResourceMetrics.AggregateIsMaximum | tools/resource-limit/manage-resource-limit.py:149-162 | A key is there if and only if some container maps to it, and each of its four fields is the maximum over all containers that do |
| ResourceMetrics.PodOrderIrrelevant | tools/resource-limit/manage-resource-limit.py:132-164 | Neither the order nor the repetition of pods changes the result |
| ResourceMetrics.LimitsCoverSamples | tools/resource-limit/manage-resource-limit.py:149-162 | Every limit is at least twice every sample of every container under the key, and at least 200m and 256Mi |
| ResourceMetrics.RequestWithinLimitExactly | tools/resource-limit/manage-resource-limit.py:40-106 | A request is at most its limit if and only if all containers under the key were sampled or one of them has a sample that doubled reaches half the starting value of the minimum |
| ResourceMetrics.UnsampledRequestExceedsLimit | tools/resource-limit/manage-resource-limit.py:50-56 | The failing case: one container without samples gives a request of 499999 and limits of 200 and 256 |
| ResourceNesting.StoreAt | tools/resource-limit/manage-resource-limit.py:171-188 | Walking down from a dictionary stores the leaf at the path and nothing else changes; it fails if and only if a non-dictionary is in the way |
| ResourceNesting.ConvertToNestedDict | tools/resource-limit/manage-resource-limit.py:166-189 | The dictionaries built on the heap denote the fold of storing the entries in order, or fail where that does |
| ResourceNesting.PrefixFreeNests | tools/resource-limit/manage-resource-limit.py:166-189 | With prefix-free keys the nesting never fails |
| ResourceNesting.FlattenUndoesNest | tools/resource-limit/manage-resource-limit.py:166-189 | For prefix-free keys, reading every resource out of the nested dictionaries gives back exactly the table, amounts parsed from their texts |
| ResourceNesting.NestOrderIrrelevant | tools/resource-limit/manage-resource-limit.py:166-189 | The nested dictionaries do not depend on the order of the table |
| ResourceTree.PutAtPath | tools/resource-limit/manage-resource-limit.py:171-188 | What a store leaves at every path: the leaf's part below it, dictionaries above it, and the old value apart from it |
| ResourceTree.PutCommute | tools/resource-limit/manage-resource-limit.py:171-188 | Stores at paths apart from each other commute |
| ResourceTree.OrderIrrelevant | tools/resource-limit/manage-resource-limit.py:166-189 | For prefix-free paths any permutation of the stores builds the same tree |
| ResourceTree.MergePut | tools/resource-limit/manage-resource-limit.py:319-330 | Overlaying a tree with one more entry is overlaying the tree and then storing the entry, where nothing is in the way |
| ResourceTree.RemoveUndoesPut | tools/resource-limit/manage-resource-limit.py:224-236 | Removing what was just stored restores the tree where nothing was in the way |
| KeyRemoval.RecursivelyDelete | tools/resource-limit/manage-resource-limit.py:224-236 | In place on the heap: the denoted value becomes the pruned removal, for any value and any path |
| KeyRemoval.ResourceKeys | tools/resource-limit/manage-resource-limit.py:216-222 | Collects exactly the keys of the mapping, in whatever order it is visited |
| KeyRemoval.RemoveResourceKeys | tools/resource-limit/manage-resource-limit.py:216-240 | The whole removal gives the removal of the mapped keys in any order one may list them |
| KeyRemoval.RemovedAtPath | tools/resource-limit/manage-resource-limit.py:224-236 | What a removal leaves at every path: nothing at or under the key, the pruned remains above it, everything else as it was |
| KeyRemoval.RemoveIdempotent | tools/resource-limit/manage-resource-limit.py:224-236 | Removing a key twice is removing it once |
| KeyRemoval.RemoveCommute | tools/resource-limit/manage-resource-limit.py:224-236 | Any two removals commute, on any value, for prefix-related paths and falsy scalars too |
| KeyRemoval.RemovalOrderIrrelevant | tools/resource-limit/manage-resource-limit.py:238-240 | Neither order nor repetition of the mapped keys matters |
| KeyRemoval.UnrelatedPathsKept | tools/resource-limit/manage-resource-limit.py:224-240 | Whatever is apart from all mapped keys is unchanged |
| KeyRemoval.RemovedKeysGone | tools/resource-limit/manage-resource-limit.py:224-240 | No mapped key is left |
| KeyRemoval.AncestorsPruned | tools/resource-limit/manage-resource-limit.py:233-236 | Nothing falsy is left on the way to a mapped key |
| FreezeUnfreeze.UnfreezeUndoesFreeze | tools/resource-limit/manage-resource-limit.py:303-330 | Overlaying and then removing all mapped keys restores the values if and only if no mapped key was present and whatever stood on the way to one was truthy and, where a frozen resource passes, a dictionary |
| ResourceNesting.UnfreezeUndoesFreezeCommand | tools/resource-limit/manage-resource-limit.py:303-330 | The same for the two commands as they are: any table of mapped dotted keys, nested, overlaid and removed |
| Retry.SucceedsOnlyAtTheEnd | internal/retry/retry.go:14-38 | Success if and only if the last attempt succeeded, and then no earlier one did; an expired run is past its deadline |
| Retry.AttemptsSpaced | internal/retry/retry.go:31-36 | The next attempt begins when the one before has taken its time and an interval has passed |
| Retry.AttemptMadeExactly | internal/retry/retry.go:14-38 | An attempt is made if and only if all before it failed and its time to begin comes before the deadline |
| Retry.AttemptsBounded | internal/retry/retry.go:14-38 | At most as many attempts as the timeout divided by the interval, rounded up |
| Retry.Ends | internal/retry/retry.go:14-38 | No run goes on for ever: once as many attempts were made as intervals fit into the time, the loop has ended |
| Retry.OverrunBounded | internal/retry/retry.go:14-38 | The deadline is overrun by no more than the last attempt took |
| Retry.OneMoreTry | internal/retry/retry.go:25-36 | One turn of the loop: how an attempt added to an unfinished run ends or continues it |
| TimeBudget.BudgetConserved | on-prem-installers/mage/test.go:79-83 | Over any sequence of waits that each end in time, the time inside waits plus the remaining budget never exceeds the initial budget and falls short of it by less than a second for each wait |
| TimeBudget.OverspendBounded | on-prem-installers/mage/test.go:158-162 | Over any sequence of waits the time inside them exceeds the initial budget by no more than the last attempt took |
| TimeBudget.NothingAfterOverrun | on-prem-installers/mage/upgrade.go:211-219 | Once the budget is used up, the next wait makes no attempt and fails at once |
| TimeBudget.WholeSecondsShrinks | on-prem-installers/mage/test.go:80 | The stored remainder is a whole number of seconds, less than one second from what is left and not farther from zero |
| TimeBudget.NegativeExactly | on-prem-installers/mage/upgrade.go:261-265 | The unclamped remainder is negative if and only if the wait ended a second or more past its deadline; the clamped one never is |
| TimeBudget.NextWaitTriesExactly | on-prem-installers/mage/upgrade.go:211-219 | The next wait makes an attempt if and only if at least a whole second was left |
| UpgradePath.FindStart | on-prem-installers/mage/upgrade.go:314-324 | The loop finds the listed position of the version, or else the first one of its minor release |
| UpgradePath.FindEnd | on-prem-installers/mage/upgrade.go:333-343 | The loop finds the listed position of the target, or else the last one of its minor release |
| UpgradePath.DetermineUpgradePath | on-prem-installers/mage/upgrade.go:291-357 | The path is the stretch between the two positions, with the fall-backs for versions that are not found |
| UpgradePath.PathExactly | on-prem-installers/mage/upgrade.go:291-357 | For any two versions, listed or not, the path is the stretch of the list after the place where the current version, or the first of its minor release, stands, up to that of the target, or the last of its minor release, or the end of the list |
| UpgradePath.MinorOfMeans | on-prem-installers/mage/upgrade.go:303-309 | The minor release of any text is what comes before its second dot, or all of it |
| UpgradePath.ReleasesStepwise | on-prem-installers/mage/upgrade.go:293-300 | The repository's list names no release twice and never goes up by more than one minor release |
| UpgradePath.SplitVersion | on-prem-installers/mage/upgrade.go:303-309 | Splitting a release's name gives back its minor release, whatever the number and patch text |
| UpgradePath.ContainsMinorExactly | on-prem-installers/mage/upgrade.go:321 | Searching for the text of a two-digit minor release finds the versions of that release and no others |
| UpgradePath.ListedPath | on-prem-installers/mage/upgrade.go:291-357 | Between listed versions i and j the path is exactly the slice (i, j], empty when i >= j |
| UpgradePath.UnlistedPath | on-prem-installers/mage/upgrade.go:314-331 | From an unlisted version of a listed minor release the path is the slice after that release's first version |
| UpgradePath.NoHopSkipsAMinorRelease | on-prem-installers/mage/upgrade.go:291-357 | From any version of a listed minor release to any listed target, the path ends at the target and no hop, the first one included, skips a minor release |
| Downgrades.ReleasesAscending | on-prem-installers/mage/upgrade.go:293-300 | The repository's list never goes from a newer release to an older one, patches and revisions compared as numbers |
| Downgrades.DowngradesExactly | on-prem-installers/mage/upgrade.go:314-354 | On an ascending list the path goes down if and only if the current version is not listed and newer than the release listed after the first one of its minor |
| Downgrades.GoesBackToOlderPatch | on-prem-installers/mage/upgrade.go:291-357 | The failing case: from v1.34.9+rke2r1 the path to the last release is that one, an older patch |
| UpgradeLog.AcceptedButNotReady | on-prem-installers/mage/upgrade.go:164-208 | What the wait for Ready lets through is a ready and schedulable node if and only if both answers are of the two expected texts |
| UpgradeLog.UnknownIsAccepted | on-prem-installers/mage/upgrade.go:202-206 | The failing case: an Unknown state, and an empty answer, are let through |
| UpgradeLog.ActionsMean | on-prem-installers/mage/upgrade.go:164-256 | Which answers satisfy the wait for a version, for NotReady and for Ready |
| UpgradeLog.KubeletMeans | on-prem-installers/mage/upgrade.go:117-119 | Every dash becomes a plus and nothing else changes |
| UpgradeLog.SafeHop | on-prem-installers/mage/upgrade.go:87-129 | The safety of the whole log is kept by every hop from a safe position |
| UpgradeLog.ClearedIsDone | on-prem-installers/mage/upgrade.go:117-124 | A hop that went well saw the node at its version and after that let it through, and saw it ready at all if and only if its last answer says so |
| UpgradeLog.AllOnReadyExactly | on-prem-installers/mage/upgrade.go:86-129 | In a safe log every later plan went to a node seen ready at the version before if and only if each rests on an answer of the expected texts |
| UpgradeRun.RetriedTurn | internal/retry/retry.go:25-36 | One turn of waiting on the cluster is one query, and then success, expiry or the same wait an interval later |
| UpgradeRun.WaitObserves | on-prem-installers/mage/upgrade.go:156-269 | A wait adds one observation for each query and nothing else, the node stays or moves once to the planned version, and success is the last observation and no earlier one |
| UpgradeRun.WaitSees | on-prem-installers/mage/upgrade.go:156-269 | What a wait saw is, observation by observation, what the cluster answered, and of the version the node had moved to by then |
| UpgradeRun.HopObserves | on-prem-installers/mage/upgrade.go:87-129 | A hop adds its plan and then observations; it completes only if the node was seen at its version and after that let through, at the first such observation |
| UpgradeRun.UpgradeIsSafe | on-prem-installers/mage/upgrade.go:86-129 | In every run plans are applied in path order, each later one only after the node was observed at the version before and then not un-ready or unschedulable; the node takes a prefix of the path; completion means this for the whole path |
| UpgradeRun.OnReadyExactly | on-prem-installers/mage/upgrade.go:23-151 | In every run all later plans went to nodes seen ready if and only if none rests on an unexpected answer; the same for the node at completion |
| UpgradeRun.PlainAnswersSuffice | on-prem-installers/mage/upgrade.go:23-151 | On a cluster that answers True, False or not at all, every later plan goes to a node seen ready at the version before, and so does completion |
| UpgradeRun.UnknownIsUpgraded | on-prem-installers/mage/upgrade.go:86-129 | The failing case, a whole run: after an Unknown state the second plan is applied to a node never seen ready |
| UpgradeOutcome.CompletesExactly | on-prem-installers/mage/upgrade.go:23-151 | The command succeeds if and only if the node was not at the target, there was a path, no call failed, clean-up included, the plans applied are exactly the path and the last hop is done; it finds nothing to do, or no way, if and only if there is none |
| UpgradeOutcome.SafePlans | on-prem-installers/mage/upgrade.go:86-129 | The plans in a safe log are the path, as far as the log goes |
| UpgradeOutcome.PromptUpgradeCompletes | on-prem-installers/mage/upgrade.go:23-151 | On a cluster that moves at once, is then ready, and is not slower than the budget allows, the upgrade completes and the node has taken the whole path |
| UpgradeOutcome.WaitStores | on-prem-installers/mage/upgrade.go:211-265 | A wait that succeeds stores what is left in whole seconds, or zero if it clamps and nothing is left; one that does not leaves the budget as it was |
| UpgradeOutcome.HopStores | on-prem-installers/mage/upgrade.go:117-124 | The wait for the version stores its remainder unclamped, and a completed hop leaves no negative budget |
| UpgradeOutcome.FailsOnlyLate | on-prem-installers/mage/upgrade.go:23-151 | If no other call fails, the upgrade fails only after the budget was used up, but for a second for each wait |
| UpgradeRun.PathIsFresh | on-prem-installers/mage/upgrade.go:291-357 | A path never holds the version the node already has nor one version twice in a row |
| UpgradeBounds.WaitBounds | on-prem-installers/mage/upgrade.go:156-269 | A wait overruns its budget by at most its last query, makes no query without a budget and at most as many as fit into it; after success time and remaining budget together have not grown |
| UpgradeBounds.UpgradeStaysInBudget | on-prem-installers/mage/upgrade.go:23-151 | In every run the time spent waiting exceeds the initial budget by no more than the last query of the script that was made took |
| UpgradeBounds.UpgradeEnds | on-prem-installers/mage/upgrade.go:23-151 | Every run ends, with at most two budgets' worth of queries for each version of the path |
| Upgrade.Cluster.RetryUntil | internal/retry/retry.go:14-38 | The loop leaves the cluster exactly where the retry specification, applied to what the cluster does, says, with that outcome, time, log and rest of the script |
| Upgrade.Cluster.WaitForNewVersion | on-prem-installers/mage/upgrade.go:227-269 | The wait is the machine's wait for a version under the stored budget, with the remainder stored unclamped on success |
| Upgrade.Cluster.WaitForNodeStatus | on-prem-installers/mage/upgrade.go:156-224 | The wait is the machine's wait for a status under the stored budget, with the remainder stored clamped on success |
| Upgrade.Cluster.ApplyAndWait | on-prem-installers/mage/upgrade.go:87-129 | One turn of the upgrade loop is the machine's hop, refused plans included |
| Upgrade.Cluster.UpgradeAlong | on-prem-installers/mage/upgrade.go:86-129 | The upgrade loop is the machine's run along the path |
| Upgrade.Cluster.Rke2Cluster | on-prem-installers/mage/upgrade.go:23-151 | The command is the machine's run: so from an untouched cluster its log is safe, it reports success, nothing to do, or no way exactly when that is so, its time stays within the budget but for the last query, and it is still running only if the script ended |
| Completion.CheckApps | mage/wait.go:127-172 | One scan returns the verdict specified for the snapshot |
| Completion.VerdictMeans | mage/wait.go:127-172 | The verdicts told from the fields: ready if and only if there are applications and every created one is Synced and Healthy; exceeded if and only if a created one that is not both has been so for longer than its limit, counted from its reconciliation unless that is unset or it is Degraded |
| Completion.LimitMeans | mage/wait.go:20-41 | The limit is the override for the name, or an hour |
| Completion.OrderIrrelevant | mage/wait.go:127-172 | The kind of verdict does not depend on the order of the applications |
| Completion.WaitUntilComplete | mage/wait.go:44-69 | The polling loop behaves as specified, failed polls and cancellation included |
| Completion.VerdictsDecide | mage/wait.go:44-69 | The loop ends with success or failure if and only if its last poll says so, and no earlier poll did |
| Completion.FailsExactlyWhenOverdue | mage/wait.go:44-69 | It fails if and only if some polled snapshot held a created, unfinished application past its own limit, and it names such a one |
| Completion.EndsExactly | mage/wait.go:44-69 | The loop ends at its first poll that is content, finds a late application, or is followed by cancellation, and at that time; until then it goes on |
| Completion.CheckedNext | mage/wait.go:62-67 | A poll is checked a period after the one before, and the time it takes |
| Completion.CompletesExactlyWhenFinished | mage/wait.go:44-69 | It succeeds if and only if its last poll found applications and every created one is Synced and Healthy |
| Completion.DegradedEndsInTime | mage/wait.go:143-160 | If some application stays degraded, the loop does not succeed and ends within that application's limit and one poll more |
| Completion.StuckIsGivenUp | mage/wait.go:44-69 | With some application degraded for good, enough polls always bring the loop to an end, by its limit or by cancellation |
| Maintenance.SetMaintenanceMode | e2e-tests/orchestrator/helpers/o11y_helpers.go:329-402 | The inventory and the recorded identifiers at each of the points where the sequence can stop, calls that take effect and are answered badly included |
| Maintenance.SetReports | e2e-tests/orchestrator/helpers/o11y_helpers.go:329-402 | Success is reported if and only if the identifier of the host is known, the three creations are answered with identifiers, and the host is found and configured |
| Maintenance.SetMakes | e2e-tests/orchestrator/helpers/o11y_helpers.go:329-402 | At every point where setting can stop, which region, site and schedule there are and where the host is |
| Maintenance.SetRecords | e2e-tests/orchestrator/helpers/o11y_helpers.go:344-399 | At every such point, which identifiers the context holds |
| Maintenance.SetAchieves | e2e-tests/orchestrator/helpers/o11y_helpers.go:329-402 | After success the host is in the new site of the new region and scheduled for maintenance, and nothing else has changed |
| Maintenance.UnsetMaintenanceMode | e2e-tests/orchestrator/helpers/o11y_helpers.go:404-454 | The inventory after the undoing calls up to the first one that fails, and success only without such a one |
| Maintenance.UndoingReports | e2e-tests/orchestrator/helpers/o11y_helpers.go:404-454 | Success is reported if and only if every undoing call that is needed was carried out |
| Maintenance.UndoingLeaves | e2e-tests/orchestrator/helpers/o11y_helpers.go:404-454 | What is left of each kind when undoing stops at the first call that fails |
| Maintenance.RecordedInOrder | e2e-tests/orchestrator/helpers/o11y_helpers.go:329-402 | A recorded schedule implies a recorded host, that a recorded site, and that a recorded region |
| Maintenance.NeverDangles | e2e-tests/orchestrator/helpers/o11y_helpers.go:404-454 | At any point of setting or undoing nothing refers to a resource that is gone, if and only if it is not the end of undoing after a site was created but not recorded |
| Maintenance.Compensation | e2e-tests/orchestrator/helpers/o11y_helpers.go:329-454 | Undone from any stopping point: exactly what was recorded is gone, the host, if one was found, is detached, and only a resource whose creation was not recorded remains |
| Maintenance.RestoredExactly | e2e-tests/orchestrator/helpers/o11y_helpers.go:329-454 | The inventory is as before if and only if nothing was created without being recorded, and no host was found or the one found had no site and its identifier for a name |
| AppConfig.SplitOnLastSlashMeans | mage/generate.go:93-99 | The text is taken apart at its last slash and nowhere else |
| AppConfig.ParseAppConfig | mage/generate.go:102-254 | The scanner loop, with its early end and its flush, computes the run of the line automaton |
| AppConfig.FrontMeans | mage/generate.go:129-145 | The common details are the values that the front matter gives last to appName, namespace and syncWave, and empty where it gives none; other names change nothing |
| AppConfig.FieldsMean | mage/generate.go:179-237 | Field by field, what the lines of a source describe is set by the last line that sets it, whatever their order; what a chart has before its last slash is added to the repository |
| AppConfig.TailRun | mage/generate.go:150-178 | Nested lines without a recognised field, dashed or not, neither lose, change nor add a component |
| AppConfig.GroupRun | mage/generate.go:156-240 | A source adds the one component it describes, or none if that has neither repository nor chart, whatever came before |
| AppConfig.ParseRoundTrip | mage/generate.go:113-254 | Any document of front matter, head, sources and closing parses to the components its sources describe, all that are not empty and in order, with the details defined last, whether it ends with the file or by a dedent; fields before the first source make a component of their own, without details |
| AppConfig.PrintRoundTrip | mage/generate.go:113-254 | A printed document, with any other front matter between, parses to the sources it was printed from, each with the common name, namespace and sync wave |
| AddressPool.ContainsRange | mage/deploy.go:763-769 | The containment test passes if and only if the address is among the 2^(32-p) ones from the network's own on |
| AddressPool.FinishIsLast | mage/deploy.go:752-755 | The bitwise computation gives base + 2^(32-p) - 1 |
| AddressPool.RoomForPool | mage/deploy.go:757-769 | A network has more than 20 addresses if and only if its prefix length is at most 27 |
| AddressPool.PoolIsTop | mage/deploy.go:751-769 | Both checks pass if and only if the prefix length is at most 27, wrap-around included, and the pool then is the 21 highest addresses |
| Watchers.CheckReady | mage/tenant_utils.go:656-672 | The check passes if and only if enough watchers are active and no known one is reported not idle |
| Watchers.NotReadyMeans | mage/tenant_utils.go:660-668 | Nobody is reported if and only if every active watcher that is registered is idle |
| Watchers.ReadyExactly | mage/tenant_utils.go:628-672 | With distinct names, all registered watchers are active and idle if and only if none is reported and the known active ones alone make up the count |
| Watchers.CheckSuffices | mage/tenant_utils.go:656-672 | If active watchers come from the registered ones, passing the check means all are active and idle |
| Watchers.CheckCanBeFooled | mage/tenant_utils.go:656-672 | Without that it does not: a concrete case with an unregistered watcher |

## Left out

- Upgrade.Cluster.Rke2Cluster: the steps before the first plan, the application of each plan and the clean-up after the last hop only succeed or fail; the time between waits (applying plans, sleeps) is not charged to the budget, as in the program; the node moves only to the version of the applied plan, at most once per plan.
- Upgrade.Cluster.RetryUntil: timers fire exactly on time, and where a context is done just when a timer fires the context wins.
- UpgradePath.DetermineUpgradePath: for current versions outside the listed minor releases nothing is claimed beyond the code's own rule, which starts over at the beginning of the list. Names of releases are built from their minor number and the rest.
- TimeBudget.BudgetConserved: DEPLOYMENT_TIMEOUT is a number of nanoseconds; the text form of durations and its parsing are not part of the model. What `pods` and `deployment` look for is the success of an attempt; only their budget hand-over is modelled.
- Completion.CheckApps: one clock reading serves a whole scan; printing is left out.
- Maintenance.SetMaintenanceMode: requests, host metadata and schedule times are left out; a service that refuses to delete what is still referred to is one of the failing answers.
- AppConfig.ParseAppConfig: a line is given by what the regular expressions find in it; template substitutions, trimming and the replaced registry URLs are taken as done. Component records are values, not shared pointers. Of a line inside the sources that begins with `spec:` nothing is claimed beyond the automaton itself.
- ResourceNesting.StoreAt: the cursor that moves down the dictionaries is written as a recursive call on the dictionary below.
- ResourceMetrics.GetMetrics: samples are the already rounded integers; the dictionary of dictionaries is keyed by pairs of pod and container; failed queries are empty lists of readings. The result is a map, whose items may be listed in any order.
- ResourceNesting.UnfreezeUndoesFreezeCommand: each key comes from one namespace, so the branch that joins keys of several namespaces, which reads fields the records do not have, is left out. Helm's overlay of the second values file is the same merge; its treatment of null values is left out.
- ClusterConfig.ParseClusterValues: reading and decoding a file is a look-up in a map from paths to documents that gives a fresh tree each time; lists and maps with other than text keys are leaves.
- AddressPool.PoolIsTop: takes an IPv4 network as parsed; the search for one among the subnets and the rendered template are left out. Words are sequences of 32 bits.
- Watchers.CheckReady: one round of the polling loop; the ticker, its time-out and the client calls are left out.
- Invocations of kubectl, helm, docker, terraform and git, HTTP and gRPC clients, credentials, labels, version tags, diagnostics, reports and printing: given inputs or absent.
- The override of presets by environment variables and the merging of Argo application values: straight-line code over the same merge.
