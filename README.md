# open-vsx.org deployment and reporting code, modelled in Dafny

This project models three parts of the open-vsx.org repository and proves properties about them.

- **The Redis cluster operator.** It has two parts:
  - `redis_cli.py` holds the `redis-cli` output parsers and the orchestration that creates a cluster, adds pods to it and removes pods from it.
  - `redis_cluster_operator.py` holds the kopf handlers: validation, scaling, and rolling restarts on a maxmemory change. It also resizes persistent volume claims and refuses storage-class migrations.
- **The reporting scripts.**
  - `get_open_vsx_data.py`: the monthly admin reports and "most active" lists of open-vsx.org.
  - `get_availability_data.py`: the Better Uptime availability windows.
  - `get_all_extensions.py`: the extension census, the grouping by license and the TSV export.
  - `get_vs_marketplace_data.py`: paging through VS Code Marketplace and the CSV comparison with Open VSX.
- **Three website components.** The members list, the adopters list and the static `Document` page.

Each source file has its own module:
- `redis_cli.dfy`, `redis_operator.dfy`;
- `open_vsx_data.dfy`, `availability_data.dfy`, `all_extensions.dfy`, `vs_marketplace.dfy`;
- `members_list.dfy`, `adopters_list.dfy`, `document.dfy`.

Shared helpers live in their own modules:
- `wrappers.dfy`: Option and Result.
- `text.dfy`: the Python string operations used, such as `splitlines`, `split`, `find`/`index`, slices, `int()`, `str()` and `sorted` on strings, on the inputs these programs read (the limits are under "## Left out").
- `seqs.dfy`: filtering and first occurrences.
- `civil.dfy`: Gregorian dates, `timedelta(days=…)` and `%Y-%m-%d` formatting and parsing.
- `web_fetch.dfy`: what a `fetch` promise settles to, and the rendered cards.

Everything the programs observe is an input to the model. This covers the output of `redis-cli` and Kubernetes, HTTP responses, the current date, and `pod_host`/`pod_name`. Everything they do is an output: the commands issued, the rows written and the state set.
- A loop that polls or pages until a condition holds is modelled over a finite sequence of observed replies. When that sequence runs out, the result says the loop is still waiting.
- The parsers are proved on their own. The orchestration functions take the parsers' results as inputs.
- Where a script mutates state step by step, the model is a method with a loop. That method is proved equal to a specification function, and lemmas state what that function means.
- The React components are classes whose fields are the component state. Their methods are the event handlers and effect callbacks.

## Model

| member | source | states |
|---|---|---|
| RedisCli.IsNewRedisNodeIff | docker/redis-cluster-operator/src/redis_cli.py:139-141 | a node is new exactly when the CLUSTER NODES text is one non-empty line that mentions " myself,master " |
| RedisCli.MasterIds | docker/redis-cluster-operator/src/redis_cli.py:145 | the master ids are at most one per line |
| RedisCli.MasterIdsComplete | docker/redis-cluster-operator/src/redis_cli.py:145 | every line that mentions "master " has a first word, and it is the next id after those of the earlier lines: all such lines contribute, in order |
| RedisCli.MasterIdsSound | docker/redis-cluster-operator/src/redis_cli.py:145 | every master id is the first word of some line that mentions "master " |
| RedisCli.ReplicaOf | docker/redis-cluster-operator/src/redis_cli.py:150-153 | a replica line yields the space-free text after its first "slave " up to the next space; a line without "slave " yields nothing; the ValueError of `index` is raised exactly when no space follows the first "slave " |
| RedisCli.ReplicaIdsFailure | docker/redis-cluster-operator/src/redis_cli.py:148-154 | the first parse failure among the lines is the failure of the whole scan |
| RedisCli.FirstUnreplicated | docker/redis-cluster-operator/src/redis_cli.py:145-157 | the answer is the first master that is neither this node nor replicated; there is none exactly when every master is one or the other |
| RedisCli.GetFirstMasterWithoutReplica | docker/redis-cluster-operator/src/redis_cli.py:143-159 | the loop computes the specification `FirstMasterWithoutReplica` of the CLUSTER NODES text |
| RedisCli.WarningMakesUnhealthy | docker/redis-cluster-operator/src/redis_cli.py:161-163 | any check-output line starting with "[WARNING]" makes the cluster unhealthy |
| RedisCli.TwoCleanChecksHealthy | docker/redis-cluster-operator/src/redis_cli.py:161-163 | when grep keeps exactly two lines and neither starts with "[WARNING]", the cluster is healthy |
| RedisCli.RedisClusterCheck | docker/redis-cluster-operator/src/redis_cli.py:176-188 | the polling returns the lines of the first valid check output, after one sleep per rejected poll; it returns nothing exactly when no poll is valid |
| RedisCli.CheckedLinesHaveNoWarning | docker/redis-cluster-operator/src/redis_cli.py:176-188 | no line of an accepted check output contains "[WARNING]" |
| RedisCli.LineIndex | docker/redis-cluster-operator/src/redis_cli.py:196-201 | gives the first index of a line equal to the search text, or nothing when there is no such line |
| RedisCli.GetRedisMasterNode | docker/redis-cluster-operator/src/redis_cli.py:190-211 | the search loop gives the slot count of the line after the master's own line: 0 when the master line is absent, IndexError when it is last |
| RedisCli.SlotsOnSlotsLine | docker/redis-cluster-operator/src/redis_cli.py:203-209 | reading a printed "slots:[ranges] (n slots) master" line gives back n, for one range or several such as "slots:[0-999],[5461-6460]" (any text before "] (" that holds no "] (" itself) |
| RedisCli.MasterNodeSlotsFound | docker/redis-cluster-operator/src/redis_cli.py:190-211 | a master followed by its slots line gets that line's count |
| RedisCli.MasterIdAt | docker/redis-cluster-operator/src/redis_cli.py:213-222 | the id comes from the first "M: <id> <host>:6379" line of the host; there is none exactly when no line names the host as a master |
| RedisCli.ReshardTarget | docker/redis-cluster-operator/src/redis_cli.py:213-222 | the target is the master id of the lowest pod index in [start, limit) that is listed as a master; there is none exactly when no such pod is listed |
| RedisCli.RebalanceRedisCluster | docker/redis-cluster-operator/src/redis_cli.py:165-174 | the retry loop issues exactly the steps of the specification `RebalanceSteps` |
| RedisCli.FirstClean | docker/redis-cluster-operator/src/redis_cli.py:165-174 | finds the first attempt, at most 3, whose output has no " ERR "; every earlier attempt's output has one |
| RedisCli.RebalanceShape | docker/redis-cluster-operator/src/redis_cli.py:165-174 | the loop makes one rebalance+fix round per consecutive failing attempt, then a final rebalance when an attempt is left |
| RedisCli.RebalanceStepsPods | docker/redis-cluster-operator/src/redis_cli.py:165-174 | a rebalance names its pod at least once, and no other kind of step |
| RedisCli.RedisClusterCreate | docker/redis-cluster-operator/src/redis_cli.py:132-137 | the accumulated command is `--cluster create` over "host_i:6379 " for every pod, with the replica option |
| RedisCli.HostListHasPod | docker/redis-cluster-operator/src/redis_cli.py:132-137 | every pod below the replica count appears in the create command's host list |
| RedisCli.CreateRedisCluster | docker/redis-cluster-operator/src/redis_cli.py:224-234 | waits until every pod is reachable, in order, then creates the cluster exactly when the last pod is still a new node |
| RedisCli.ReshardRemovedNodes | docker/redis-cluster-operator/src/redis_cli.py:240-251 | the first loop of the removal computes the specification `ReshardLoop` |
| RedisCli.ReshardLoopStops | docker/redis-cluster-operator/src/redis_cli.py:240-251 | once the reshard loop raises, later iterations change nothing |
| RedisCli.ReshardLoopIs | docker/redis-cluster-operator/src/redis_cli.py:240-251 | the reshard loop raises exactly when a slot count cannot be read; otherwise it reshards the pods that hold slots, from the top down, the j-th onto the target searched from index j |
| RedisCli.RebalanceAfterReshard | docker/redis-cluster-operator/src/redis_cli.py:253-264 | after a reshard every pod is awaited healthy, the cluster is rebalanced from pod 0, and every pod is awaited again, and nothing happens otherwise |
| RedisCli.DeleteRemovedNodes | docker/redis-cluster-operator/src/redis_cli.py:266-277 | the deletion loop computes the specification `DeleteLoop`: del-node, FLUSHDB and a wait per removed pod |
| RedisCli.DownIndex | docker/redis-cluster-operator/src/redis_cli.py:266-268 | the i-th pod the deletion loop visits is current-1-i: the pods descend one by one |
| RedisCli.RemoveRedisClusterNodes | docker/redis-cluster-operator/src/redis_cli.py:236-277 | the three phases run in order, and an exception in the first stops the removal |
| RedisCli.RemoveOrder | docker/redis-cluster-operator/src/redis_cli.py:236-277 | a removal that raises nothing deletes pods current-1 down to `wanted` and reshards exactly the pods holding slots, both in descending order; it rebalances exactly when something was resharded |
| RedisCli.AddRedisClusterNodes | docker/redis-cluster-operator/src/redis_cli.py:279-301 | the add loop computes the specification `AddLoop` over pods current..wanted-1 |
| RedisCli.NewPodsAscending | docker/redis-cluster-operator/src/redis_cli.py:281-290 | the pods added as nodes are new pods of the range, in ascending order |
| RedisCli.ReplicaPodsAscending | docker/redis-cluster-operator/src/redis_cli.py:281-299 | the pods made replicas are new pods of the range whose master lookup found a master, in ascending order |
| RedisCli.AddLoopStops | docker/redis-cluster-operator/src/redis_cli.py:279-301 | once the add loop raises, no later pod is visited |
| RedisCli.AddLoopRaises | docker/redis-cluster-operator/src/redis_cli.py:279-301 | the add loop raises exactly when a new pod's master lookup raises |
| RedisCli.AddLoopPods | docker/redis-cluster-operator/src/redis_cli.py:279-301 | without an exception the loop waits for every pod in ascending order, adds exactly the new nodes, and makes replicas of exactly those that found a master without a replica |
| RedisOperator.ValidateReplicas | docker/redis-cluster-operator/src/redis_cluster_operator.py:135-137 | rejects a replica count below 6, and only such a count, with a PermanentError naming the count |
| RedisOperator.ValidateHost | docker/redis-cluster-operator/src/redis_cluster_operator.py:139-143 | rejects a pod host name longer than 46 characters, and only such a name |
| RedisOperator.FirstMissing | docker/redis-cluster-operator/src/redis_cluster_operator.py:159-161 | finds the first required key missing from the secret, or nothing when none is missing |
| RedisOperator.ValidateSecret | docker/redis-cluster-operator/src/redis_cluster_operator.py:145-163 | the key loop yields the specification `SecretVerdict` |
| RedisOperator.SecretVerdictIff | docker/redis-cluster-operator/src/redis_cluster_operator.py:145-163 | the secret passes exactly when it is readable and has all eight keys; an unreadable one is a TemporaryError, and a missing key is a PermanentError naming the first key missing |
| RedisOperator.NamesDistinct | docker/redis-cluster-operator/src/redis_cluster_operator.py:214-221 | the config, data, service and acl names all extend "<name>-<env>-" and differ from one another; the secret depends only on the environment |
| RedisOperator.CreateFn | docker/redis-cluster-operator/src/redis_cluster_operator.py:210-244 | creation succeeds exactly when the replicas, the host and the secret all validate; a failure creates nothing, and a small replica count does nothing at all |
| RedisOperator.CreateFnStatus | docker/redis-cluster-operator/src/redis_cluster_operator.py:225-244 | a successful creation reads the secret, creates the ConfigMap, the Service and the StatefulSet, and records the five child names |
| RedisOperator.OnReplicasChange | docker/redis-cluster-operator/src/redis_cluster_operator.py:246-265 | the handler issues exactly the plan `ReplicasPlan` |
| RedisOperator.ReplicasValidated | docker/redis-cluster-operator/src/redis_cluster_operator.py:247-248 | a new count below 6, and only such a count, is refused with its message and no action |
| RedisOperator.ReplicasScale | docker/redis-cluster-operator/src/redis_cluster_operator.py:246-265 | pods are awaited ready only while the StatefulSet has them, and redis-cli runs only while it has the larger of the old and new counts (it scales up before adding and scales down after removing); it ends at the new count, or at the larger count when redis-cli raises |
| RedisOperator.OnMaxmemoryChange | docker/redis-cluster-operator/src/redis_cluster_operator.py:267-286 | the handler issues exactly the plan `MaxmemoryPlan` |
| RedisOperator.RestartsRolling | docker/redis-cluster-operator/src/redis_cluster_operator.py:282-286 | the restart loop deletes pods from the top down, with at most one pod down at any time and none at the end |
| RedisOperator.MaxmemoryRolling | docker/redis-cluster-operator/src/redis_cluster_operator.py:267-286 | there is no action on the first value; otherwise the env is patched first, then every pod is restarted from the top down, one at a time |
| RedisOperator.ContainerChange | docker/redis-cluster-operator/src/redis_cluster_operator.py:288-322 | image, pull-policy and resource changes patch one container key with the new value, except on the first value |
| RedisOperator.StorageClassRefusedOnce | docker/redis-cluster-operator/src/redis_cluster_operator.py:361-367 | a storage-class change is annotated and refused with a PermanentError; once annotated, the handler no longer fires |
| RedisOperator.OnStorageChange | docker/redis-cluster-operator/src/redis_cluster_operator.py:324-359 | the handler issues exactly the plan `StoragePlan` |
| RedisOperator.StorageShrinkRejected | docker/redis-cluster-operator/src/redis_cluster_operator.py:326-331 | a smaller size, and only that, is refused before any action with "New storage size must be greater than old storage size."; a larger size first reads the storage class |
| RedisOperator.PvcLoopStops | docker/redis-cluster-operator/src/redis_cluster_operator.py:348-355 | once a claim patch fails, the loop stops |
| RedisOperator.PvcLoopFails | docker/redis-cluster-operator/src/redis_cluster_operator.py:348-355 | the resize loop records an exception exactly when some claim's patch fails |
| RedisOperator.StorageRestored | docker/redis-cluster-operator/src/redis_cluster_operator.py:339-359 | an allowed expansion awaits pod deletions and patches claims only while the StatefulSet is scaled to 0, and always ends by scaling back to its replicas; it fails with the TemporaryError exactly when a claim fails |
| RedisOperator.PvcLoopClaims | docker/redis-cluster-operator/src/redis_cluster_operator.py:350-355 | the claims are patched in index order up to and including the first failure, and all of them are patched when none fails |
| RedisOperator.PvcNameInjective | docker/redis-cluster-operator/src/redis_cluster_operator.py:351 | different pod indices give different claim names |
| RedisOperator.StorageClaims | docker/redis-cluster-operator/src/redis_cluster_operator.py:339-359 | the handler patches claims in index order, one per replica when nothing fails |
| OpenVsxData.MonthsInRange | reports/get_open_vsx_data.py:48-51 | the months fetched are exactly the calendar months from the start month to the current month |
| OpenVsxData.MonthsAsWrittenAcrossYears | reports/get_open_vsx_data.py:50-51 | the predicate as written agrees with the range whenever the start year precedes the current year |
| OpenVsxData.VisitedAsWrittenSameYear | reports/get_open_vsx_data.py:50-51 | in the current year the predicate as written accepts every month m >= start or m <= current |
| OpenVsxData.VisitedAsWrittenOverreaches | reports/get_open_vsx_data.py:50-51 | from March to May 2024 the predicate as written also fetches October 2024 |
| OpenVsxData.MissingHeader | reports/get_open_vsx_data.py:57-58 | names the first column, in header order, that a report lacks (the KeyError raised) |
| OpenVsxData.FirstIncomplete | reports/get_open_vsx_data.py:54-58 | finds the first decoded report that lacks a column |
| OpenVsxData.TableColumns | reports/get_open_vsx_data.py:57-58 | each column holds that header's value from every decoded report, in month order |
| OpenVsxData.PublishingColumns | reports/get_open_vsx_data.py:42-67 | every column has one value per decoded 200 report; other months add nothing |
| OpenVsxData.PublishingFails | reports/get_open_vsx_data.py:54-58 | the first incomplete report ends the gathering with the KeyError for its first missing column |
| OpenVsxData.GetPublishingData | reports/get_open_vsx_data.py:42-67 | with the corrected month test of the Findings row, the nested loops compute the specification `Publishing` of the reports of the months in range |
| OpenVsxData.LabelMonth | reports/get_open_vsx_data.py:120 | two "month/yy" labels that are equal have the same month |
| OpenVsxData.DatesOfLabels | reports/get_open_vsx_data.py:120-121 | the i-th date is the "month/yy" label of the i-th active month |
| OpenVsxData.UniqueLists | reports/get_open_vsx_data.py:123-137 | each "unique" list has no duplicates, holds exactly the names listed, and keeps them in order of first appearance |
| OpenVsxData.AddUnique | reports/get_open_vsx_data.py:123-125 | appending the unseen names gives the first occurrences of the names seen so far |
| OpenVsxData.GatherMostActive | reports/get_open_vsx_data.py:91-142 | with the corrected month test, the loops build the specification `Expected`: dates of the months with some non-empty list, the lists by date, and the unique names |
| OpenVsxData.LastValue | reports/get_open_vsx_data.py:82-85 | a cell holds the value of the entry that last names it that month, or nothing |
| OpenVsxData.Column | reports/get_open_vsx_data.py:79-85 | a column has one cell per date, each the last value for its name |
| OpenVsxData.FillRow | reports/get_open_vsx_data.py:82-85 | filling row i sets only row i of every column |
| OpenVsxData.ProcessSlot | reports/get_open_vsx_data.py:77-88 | one top list becomes the frame `FrameOf` |
| OpenVsxData.ExpectedIndexed | reports/get_open_vsx_data.py:78-82 | every date of the gathered state has its list, so `process_data` never misses a key |
| OpenVsxData.ProcessData | reports/get_open_vsx_data.py:71-89 | gives the frames `FramesOf` of the gathered state |
| OpenVsxData.GetMostActiveData | reports/get_open_vsx_data.py:69-146 | with the corrected month test, gives the frames of the expected state of the months in range |
| AvailabilityData.CallSpec | reports/get_availability_data.py:18-38 | a call succeeds exactly when one of the six attempts answers 200, and yields the first such answer; otherwise it fails with "Failing call to … after multiple retries" |
| AvailabilityData.MakeApiCall | reports/get_availability_data.py:18-38 | the loop sleeps 5, 10, … seconds after each failed attempt, at most five times, and returns the specification `Call` |
| AvailabilityData.HostnameOf | reports/get_availability_data.py:47 | the host of "scheme://host/path" is the host |
| AvailabilityData.ListFromFiltersFetched | reports/get_availability_data.py:40-55 | the listing ends as the fetched pages do (same exception, or still paging), and when done it is exactly the monitors of all fetched pages that pass the test, in page order |
| AvailabilityData.AllOpenVsxMonitorsListed | reports/get_availability_data.py:40-55 | every open-vsx.org monitor on a fetched page is in the result |
| AvailabilityData.GetAllMonitors | reports/get_availability_data.py:40-55 | the paging loop computes the specification `ListFrom` from the monitors URL |
| AvailabilityData.AllMonitorsOnOpenVsx | reports/get_availability_data.py:40-55 | every monitor kept has host open-vsx.org, and the first page fetched is the monitors URL |
| AvailabilityData.WindowShape | reports/get_availability_data.py:68-77 | the sliding window gives one date and one value per day from the first end date to today, on consecutive days |
| AvailabilityData.GetMonitorData | reports/get_availability_data.py:57-79 | the window loop computes the specification `MonitorData` |
| AvailabilityData.IntervalEnd | reports/get_availability_data.py:103-104 | an interval ends on the last day of its month |
| AvailabilityData.NextInterval | reports/get_availability_data.py:113 | the next interval starts on the first day of the next month |
| AvailabilityData.MonthlyShape | reports/get_availability_data.py:102-113 | the monthly loop gives one entry per month from the creation month on, in consecutive months |
| AvailabilityData.GetMonthlyMonitorData | reports/get_availability_data.py:92-116 | the month loop computes the specification `MonthlyData` |
| AvailabilityData.AllReportsSpec | reports/get_availability_data.py:84-90 | the drivers give one series per monitor in order when every monitor's calls succeed; otherwise they raise the first failure |
| AvailabilityData.FailureStops | reports/get_availability_data.py:84-90 | the first failing monitor ends the report with its error |
| AvailabilityData.GetContinuousData | reports/get_availability_data.py:81-90 | reports every open-vsx.org monitor with a 30-day window, whatever `time_span` is |
| AvailabilityData.GetMonthlyData | reports/get_availability_data.py:118-127 | reports every open-vsx.org monitor month by month |
| AllExtensions.RetrieveSpec | reports/get_all_extensions.py:17-35 | the search pages gather the extensions of the pages read, with each offset equal to the count so far; the loop stops at the total size or at the first failure |
| AllExtensions.RetrieveExtensions | reports/get_all_extensions.py:17-35 | the loop computes `Retrieve`, and requests page k at offset k |
| AllExtensions.LookupSpec | reports/get_all_extensions.py:37-50 | a lookup finds the extension exactly when one of five tries succeeds, and gives the first success |
| AllExtensions.GetExtension | reports/get_all_extensions.py:37-50 | the loop sleeps 2 seconds after each failed try and gives up with nothing after five |
| AllExtensions.MilestonesSpec | reports/get_all_extensions.py:63-64 | progress is printed at counts 100, 200, …, n/100 times |
| AllExtensions.FoundSpec | reports/get_all_extensions.py:57-62 | the census holds exactly the extensions some lookup found |
| AllExtensions.LookUpAll | reports/get_all_extensions.py:57-65 | the loop yields the found extensions, the missed ones and the progress points |
| AllExtensions.GetAllExtensions | reports/get_all_extensions.py:52-68 | the census comes from the extensions found once the search has finished |
| AllExtensions.GroupedKeys | reports/get_all_extensions.py:70-84 | the licenses appear in strictly ascending order, as exactly the licenses present, each with a non-empty subsequence of the extensions |
| AllExtensions.GroupedPartition | reports/get_all_extensions.py:74-79 | every extension is in exactly the group of its license |
| AllExtensions.GroupBy | reports/get_all_extensions.py:74-84 | the grouping loop and the sort give the specification `Grouped` |
| AllExtensions.GetAllByLicense | reports/get_all_extensions.py:70-84 | groups by license, with "None" for a missing license |
| Text.OrNone | reports/get_all_extensions.py:100-102 | a missing field is written "None" |
| AllExtensions.RowCells | reports/get_all_extensions.py:99-102 | the four formatting stages write the 19 cells joined by tabs, ending in a newline |
| AllExtensions.ColumnsClean | reports/get_all_extensions.py:93-96 | the header has 19 columns without tabs or line breaks |
| AllExtensions.WriteTsvFile | reports/get_all_extensions.py:91-104 | the file is the header followed by one row per extension |
| AllExtensions.TsvTable | reports/get_all_extensions.py:91-104 | read back by lines and tabs, the file gives the header and each extension's 19 cells |
| VsMarketplace.FirstValueSpec | reports/get_vs_marketplace_data.py:19-27 | the repo and pricing come from the first property with the key, or None when no property has it |
| VsMarketplace.GetMsInfo | reports/get_vs_marketplace_data.py:12-29 | there is no info exactly when the extension has no versions; commas in the display name become spaces; version and date come from the first version |
| VsMarketplace.ConvertTimestamp | reports/get_vs_marketplace_data.py:31-35 | "YYYY-MM-DDT…" converts to the month/day/year form of that date |
| VsMarketplace.ConvertWithoutT | reports/get_vs_marketplace_data.py:32 | without a 'T', `find` gives -1 and the slice drops the last character |
| VsMarketplace.UsDateReadsBack | reports/get_vs_marketplace_data.py:34 | the converted date splits at '/' into month, day and year without leading zeros |
| VsMarketplace.CountVersions | reports/get_vs_marketplace_data.py:94-96 | the loop adds the number of versions of every extension of the page |
| VsMarketplace.AbsorbPage | reports/get_vs_marketplace_data.py:91-96 | a page appends its extensions and adds its versions |
| VsMarketplace.PagedTallies | reports/get_vs_marketplace_data.py:85-102 | `all_extensions` is the pages of every reply posted, in order, and `total_all_versions` counts their versions |
| VsMarketplace.PagedEnds | reports/get_vs_marketplace_data.py:85-102 | paging goes on while each 200 page leaves the count short, and stops at a non-200 status, at an exception, or when the total is reached |
| VsMarketplace.PagedLast | reports/get_vs_marketplace_data.py:93-100 | after a completed count the last page kept is that of the final reply |
| VsMarketplace.FetchPages | reports/get_vs_marketplace_data.py:85-102 | the loop computes `Paged`, posting page numbers 1, 2, … |
| VsMarketplace.HeaderReadsBack | reports/get_vs_marketplace_data.py:106 | the header splits into the 11 column names |
| VsMarketplace.FoundLineReadsBack | reports/get_vs_marketplace_data.py:114-126 | a 200 line splits back into its 11 fields |
| VsMarketplace.MissingLineReadsBack | reports/get_vs_marketplace_data.py:128-137 | a 404 line splits into 11 fields with the three Open VSX fields blank |
| VsMarketplace.StepFound | reports/get_vs_marketplace_data.py:112-126 | a 200 reply appends the found line and remembers its license |
| VsMarketplace.StepMissing | reports/get_vs_marketplace_data.py:127-137 | a 404 reply appends the missing line |
| VsMarketplace.CorrectedAppends | reports/get_vs_marketplace_data.py:107-142 | each step only appends to the file, or aborts it |
| VsMarketplace.ExportedGrows | reports/get_vs_marketplace_data.py:104-142 | the CSV starts with the header and grows line by line; after an abort it stays as it is |
| VsMarketplace.StaleLicenseOn404 | reports/get_vs_marketplace_data.py:127-137 | as written, a 404 line repeats the license of the previous 200 reply; corrected, it writes None |
| VsMarketplace.LastPageOnly | reports/get_vs_marketplace_data.py:107 | as written, only the last page's extensions are exported; corrected, all of them are |
| VsMarketplace.ExportCsv | reports/get_vs_marketplace_data.py:105-142 | the corrected export loop, which writes None as a 404 line's license, computes `Exported` |
| VsMarketplace.MarketplaceAsWritten | reports/get_vs_marketplace_data.py:83-142 | the script as written: it fails exactly when the corrected one does; after a completed count it exports only the final reply's page; with no page read, the NameError follows the header |
| VsMarketplace.GatherMarketplace | reports/get_vs_marketplace_data.py:83-142 | the corrected script: pages, then exports the CSV over all the extensions gathered, with page numbers 1, 2, … |
| Members.OfLevelSpec | website/src/components/members-list.tsx:53-57 | the filter keeps exactly the members with the level, with their multiplicity, in order |
| Members.NoneOfLevel | website/src/components/members-list.tsx:53-57 | when no member has the level, nothing is kept |
| WebFetch.Logged | website/src/components/members-list.tsx:48-62 | an error is logged unless the data arrived or the request was aborted; a non-ok response logs the Error the component throws ("Failed to fetch members" here, "Failed to fetch adopters" at adopters-list.tsx:43-55) |
| Members.MemberItem | website/src/components/members-list.tsx:128-163 | the heading is a link exactly when the url is non-empty; the picture is the logo exactly when one is given and non-empty, and otherwise the name |
| Members.MembersList.constructor | website/src/components/members-list.tsx:36-38 | starts not loaded, with no members |
| Members.MembersList.RunEffect | website/src/components/members-list.tsx:40-47 | a loaded list does nothing; otherwise one request with a fresh abort signal is made |
| Members.MembersList.Cleanup | website/src/components/members-list.tsx:65 | cleanup aborts the current request's signal |
| Members.MembersList.Settle | website/src/components/members-list.tsx:48-63 | delivered data sets the members of the level; errors are logged unless aborted; the list becomes loaded unless the request was aborted |
| Members.MembersList.Render | website/src/components/members-list.tsx:68-81 | a spinner exactly when there are no members, otherwise one card per member in order |
| Adopters.FindProject | website/src/components/adopters-list.tsx:47 | finds the first project with the id, or nothing when none has it |
| Adopters.LogoUrl | website/src/components/adopters-list.tsx:140-143 | the dark theme takes the white logo; a non-empty logo gets the image prefix, and an empty one stays empty |
| Adopters.AdopterItem | website/src/components/adopters-list.tsx:140-162 | the heading is a link exactly when the url is non-empty; the picture is the logo URL exactly when it is non-empty, and otherwise the name |
| Adopters.AdoptersList.constructor | website/src/components/adopters-list.tsx:32-34 | starts not loaded, with no adopters |
| Adopters.AdoptersList.RunEffect | website/src/components/adopters-list.tsx:36-42 | a loaded list does nothing; otherwise one request with a fresh abort signal is made |
| Adopters.AdoptersList.Cleanup | website/src/components/adopters-list.tsx:58 | cleanup aborts the current request's signal |
| Adopters.AdoptersList.Settle | website/src/components/adopters-list.tsx:43-56 | the adopters of project "ecd.openvsx" are set when it is delivered and found; errors are logged unless aborted; the list becomes loaded unless the request was aborted |
| Adopters.AdoptersList.Render | website/src/components/adopters-list.tsx:61-74 | a spinner exactly when there are no adopters, otherwise one card per adopter in order |
| DocumentPage.Document.constructor | website/src/document.tsx:22-29 | starts loading, not mounted, with no content |
| DocumentPage.Document.ComponentDidMount | website/src/document.tsx:31-34 | mounting requests the page's url |
| DocumentPage.Document.ContentArrived | website/src/document.tsx:34-38 | content that arrives while mounted is shown and ends loading; after unmount it changes nothing |
| DocumentPage.Document.ContentFailed | website/src/document.tsx:39-41 | a failure is handed to the error handler and ends loading |
| DocumentPage.Document.ComponentWillUnmount | website/src/document.tsx:45-47 | unmounting clears the mounted flag only |
| DocumentPage.Document.Render | website/src/document.tsx:49-60 | shows the loading indicator state, and the markdown exactly when the content is non-empty |
| Civil.ParseFormatIsoDate | reports/get_vs_marketplace_data.py:33 | parsing a formatted `%Y-%m-%d` date gives the date back |
| Civil.OrdinalAddDays | reports/get_availability_data.py:62 | adding n days moves the day number by n |
| Civil.MonthEnd | reports/get_availability_data.py:103-104 | adding the days left in the month reaches its last day, and the day after is the first of the next month |

## Left out

- Printing, logging, file handles, `json.dumps` of the JSON outputs and `traceback` are left out. The CSV and TSV contents are modelled as strings.
- Network, subprocess, Kubernetes and socket calls are inputs. The HTTP layer, kopf, the Kubernetes watch streams and asyncio scheduling are not part of this model.
- `pod_host` and `pod_name` come from a module that is not part of this model. They are uninterpreted functions.
- The `wait_until_*` helpers of `redis_cli.py` are recorded as wait steps. Their internal polling loops, and `redis_cli`/`redis_cli_cmd` themselves (lines 16-43), are not modelled.
- `create_config_data`, `create_service_data` and `create_statefulset_data` read YAML templates. They are recorded as create actions with their names; the template text is not modelled.
- `wait_until_pod_ready`, `wait_until_pod_deleted` and `wait_until_pvc_capacity_increased` are recorded as wait actions. Their event streams are left out.
- Loops that may poll or page forever are modelled over a finite sequence of observations. The result "still waiting" stands for a loop that has not ended yet, and the model cannot state that such a loop never ends.
- `datetime.now()` and `date.today()` are parameters.
- Clock time below a day is not modelled. Two comparisons are made date by date:
  - `end_date <= today` of `get_monitor_data`.
  - `interval_start_date < end_date` of `get_monthly_monitor_data`, with `end_date = datetime.now()` (get_availability_data.py:97,102), is `NotAfter(start, today)`. The start is at midnight, so the two differ only at midnight exactly.
- `strftime` years below 1000 are not modelled. `UsDate` writes the year without padding.
- Floating point is left out:
  - The `/60` of the total downtime: the raw value is kept.
  - The float comparison `int(count/100) == count/100`: it is stated as exact divisibility, which is what it computes for any count below 2^53.
- OpenVsxData.GetPublishingData, OpenVsxData.GatherMostActive and OpenVsxData.GetMostActiveData: the month loops run the corrected test `InRange`, not the `and`/`or` test of lines 50-51 and 111-112 as written. The two differ only when the start year is the current year; there the script also fetches the months after the current one (see "## Findings", where `VisitedAsWritten` and `MonthsAsWritten` model the test as written).
- RedisCli.HealthChecks: filters the lines of the check output as grep does, but does not model the `strip()` that `redis_cli` applies to grep's output (redis_cli.py:29) before `is_cluster_unhealthy` splits it (line 162). When the first kept line begins with whitespace before "[WARNING]", Python sees a line that starts with "[WARNING]" and the model does not.
- Text.SplitLines: splits at '\n' only. Python's `splitlines` also breaks at '\r', "\r\n", '\v', '\f', '\x1c' to '\x1e', '\x85', U+2028 and U+2029; command output and report text with such characters are not modelled.
- VsMarketplace.ExportCsv and VsMarketplace.GatherMarketplace: run the corrected CSV loop, not lines 107 and 135 as written. The loop covers every gathered page, and a 404 line shows None as its license. `MarketplaceAsWritten` and `ExportedAsWritten` model the lines as written (see "## Findings").
- OpenVsxData.GatherMostActive, OpenVsxData.ProcessData and OpenVsxData.GetMostActiveData: the KeyError paths of a decoded report are not modelled.
  - `Top` always holds the four lists and every `Entry` has its name, so a report lacking a top list (lines 118-137) or an item lacking `userLoginName`, `namespace` or `extensionIdentifier` cannot be expressed. In Python that KeyError is not caught by `except JSONDecodeError` (line 138) and ends the script.
  - `Entry(name, value)` takes the name field to be the first value of the entry (lines 83-84). An entry whose first value is not its key cannot be expressed. In Python it raises a KeyError at `data[item]`, or writes the value into another name's column.
- Text.IsSpace: ASCII whitespace only. Python's `split()` and `strip()` also treat Unicode whitespace as space.
- Text.ParseInt: accepts ASCII digits with an optional sign and surrounding whitespace. It rejects the underscores between digits and the non-ASCII decimal digits that `int()` accepts.
- AvailabilityData.BadDate: one fixed message stands for every `strptime` failure. Python's messages differ by cause: "time data '<s>' does not match format '%Y-%m-%d'", "unconverted data remains: …" and "day is out of range for month".
- AvailabilityData.Hostname: follows `urlparse(...).hostname` for ASCII URLs. It drops user info up to the last '@', takes a bracketed IPv6 host, cuts a ':port' suffix and lowercases the host.
  - It does not model the ValueError("Invalid IPv6 URL") that `urlsplit` raises when the netloc has '[' without ']' or ']' without '['. Line 47 of get_availability_data.py does not catch it, so the script aborts there. The model instead reads a host and keeps or drops the monitor: for "https://[open-vsx.org/" it reads "open-vsx.org".
  - It does not model the removal of tab, CR and LF characters, or of leading C0 control and space characters, that `urlsplit` performs first.
  - It lowercases a '%' zone suffix of an IPv6 host, which Python leaves as it is.
- JSON `null` fields of a response are modelled as missing. Type errors from unexpected JSON shapes are not modelled.
- `AvailabilityData.GetContinuousData`: the time span argument is accepted and ignored, as the source ignores it.
- `API_ENDPOINT` from the environment is a parameter. The KeyError when it is unset is not modelled.
- In the marketplace script, the value of `vsx_results` before any Open VSX reply is the Marketplace page's JSON, which has no `license` key. It is modelled as None.
- React rendering and scheduling are modelled as explicit events:
  - `RunEffect`: the effect run.
  - `Cleanup`: the cleanup.
  - `Settle`: the fetch settling.
  - The Document events: mount, content arrival, failure and unmount.

  Which event comes first is up to the caller. Re-running the members effect when `members` changes is one more `RunEffect` call.
- `members.tsx` renders `MembersList` without a level. Only the component with a level is modelled.
- The content service and `handleError` of the Document page are external. A request and a handled error are recorded as lists.
- A `Document` failure after unmount updates the state, as the source does.
- `DocumentPage.NoMarkdownWhileLoading` follows from `Render`'s contract. It is kept as a documented consequence and adds nothing new.

## Findings

| source | as written | input that shows it | evidently intended | confidence | as-written member | corrected member |
|---|---|---|---|---|---|---|
| reports/get_open_vsx_data.py:50-51 | when the start year is the current year, the `or` accepts every month with m >= start month or m <= current month | start March 2024 and current May 2024: October 2024 is fetched | fetch only the months from the start month to the current month | not executed | OpenVsxData.VisitedAsWrittenOverreaches | OpenVsxData.MonthsInRange |
| reports/get_vs_marketplace_data.py:107 | the CSV loop runs over `extensions`, the last page only, not `all_extensions` | two 200 pages whose sizes add up to the total | one CSV line per Marketplace extension from every page | not executed | VsMarketplace.LastPageOnly | VsMarketplace.GatherMarketplace |
| reports/get_vs_marketplace_data.py:135 | a 404 line writes `vsx_results.get('license')`, which is left over from the previous 200 reply | extension A answers 200 with license MIT, then extension B answers 404: B's line shows MIT | no Open VSX license for an extension missing from Open VSX | not executed | VsMarketplace.StaleLicenseOn404 | VsMarketplace.ExportCsv |
