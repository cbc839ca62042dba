# Verified models of the self-contained logic in this repository

Six programs of the repository hold logic of their own between the Dockerfiles: an LRU cache, a Git
branch-protection gate with its SSH front end, a Kafka metrics collector, a locale importer, a backup and
restore pair, and a CephFS volume provisioner. Each is modelled here in the form of its source (a class where
the source updates an object, a loop where it loops, functions where it computes), and the properties it
exists for are proved for all inputs and all runs. `dafny verify dfyconfig.toml` checks everything.

**LRU cache** (`OrderedDict`, `LruCache`, `LruItems`, `LruRuns`, `LruInclusion`, `LruCompetitive`).
The ordered dictionary is a doubly linked list on the heap with an index, the cache a class over it; their
methods are proved against functions on association lists. Over whole traces: the cache holds exactly the most
recently touched keys in order of last touch; a smaller cache is at every moment a subsequence of a larger
one; a hit is the value last set, and the cache is an unbounded dictionary exactly when everything fits; and
against any policy with h <= k slots that starts empty and holds each requested key after serving it,
(k-h+1) * misses <= k * loads + (k-h+1) * k. A `get` that misses does not move anything; a `set` on an
empty cache of capacity zero or less raises `KeyError`, as the source does.

**Branch protection** (`LineScanner`, `CommitGraph`, `PreReceive`, `ProtectedHistory`, `PushVerdicts`,
`Serv`, `AccessDecisions`, `GoStrings`).
Commits form an immutable graph; `rev-list old ^new` is a terminating search whose empty output means that
`old` is an ancestor of `new`. The early-exit loop accepts exactly the conjunction of its rules. The gate splits
a line at every white space, Git only at its own two spaces; white space that is not ASCII is allowed in a ref
name. So a branch is protected (never deleted, never losing a commit, never created, never moved by people who
may not push directly, over every run of pushes) if and only if its name has no white space in it, and a push
that deletes a protected branch with such a name is exhibited for every server. Update by update, what is
accepted, what is refused with which verdict, and what is carried out is spelled out. The front end's command
parsing undoes printing, and who is served a push or a fetch is stated in terms of the database.

**Kafka collector** (`KafkaMetrics`, `FanOut`, `CollectorRuns`, `CollectedMetrics`, `MetricIdentity`).
The sequential collector is a class; the concurrent one is an interleaving of main, topic, partition and
consumer goroutines under nested WaitGroups, with ZooKeeper's answers fixed. Every step keeps the WaitGroup
counters equal to the number of unfinished goroutines, never negative, and conserves what is sent and still to be sent; hence
every complete schedule ends, sends exactly the metrics that the answers and the filters spell out, and then
the error gauge, once, with the right value.

**Locale importer** (`LocaleImport`, on `LineScanner`). The overlapping in-place edit of a token inside the
scanner's own buffer is a method on an array. Importing undoes exporting exactly for the keys without `="` and
without `\"`, whatever the value, and leaves every other line of the file as it is. A line whose first `="` is
its end makes the importer panic, with the lines before it written.

**Backup and restore** (`FileTrees`, `Regions`, `BackupRestore`, `BackupArchive`, `RestoreInverts`, `RoundTrip`,
`RestoreTheorems`). The file system is a map from paths to entries. Restoring a backup gives back the custom,
data and repository trees and the database, keeps what it replaces as `.bak`, and touches nothing else. An old
`.bak` in the way stops the restore, after the import of the database and before its place is touched. The
command's description says that what the archive lacks is skipped; the code has no such skip for the custom
directory. `RestoreTheorems.SkipsWhatIsMissingIff` states exactly when the description holds, and
`RestoreTheorems.CustomIsNotSkipped` what happens when it does not.

**CephFS provisioner** (`CephParameters`, `ParameterMeaning`, `CephProvisioner`, `CephLifecycle`,
`ProvisionResults`). Volumes of all runs have
different shares, users and secrets; deleting removes exactly what the volume's own provisioning made. A secret
leaks only when the command's path has no slash, which crashes the provisioner (as does a command that prints
`null`); shares and users are left behind by exactly the creations that run the command and then make no secret.

`Wrappers` and `Sequences` hold what several modules share.

## Model

| member | source | states |
|---|---|---|
| `OrderedDicts.OrderedDict.Pop` | marathon/marathon-lb/lrucache.py:15-28 | `pop(key)` on the linked list: the value looked up in the old list, the list without that key in unchanged order; a missing key changes nothing |
| `OrderedDicts.OrderedDict.PopFirst` | marathon/marathon-lb/lrucache.py:28 | `popitem(last=False)`: the oldest entry goes; `None` for the `KeyError` of an empty dictionary |
| `OrderedDicts.OrderedDict.Assign` | marathon/marathon-lb/lrucache.py:29 | assignment: a present key keeps its place, a new key goes to the back |
| `OrderedDicts.OrderedDict.Length` | marathon/marathon-lb/lrucache.py:27 | the size of the index is the length of the list |
| `OrderedDicts.OrderedDict.Unlink` | marathon/marathon-lb/lrucache.py:13-28 | cutting one node out relinks its neighbours and removes exactly that position |
| `OrderedDicts.OrderedDict.constructor` | marathon/marathon-lb/lrucache.py:13 | a new dictionary is empty and well linked |
| `LruCaches.LruCache.constructor` | marathon/marathon-lb/lrucache.py:11-13 | a new cache is empty |
| `LruCaches.LruCache.Get` | marathon/marathon-lb/lrucache.py:15-21 | returns the cached value or the default; a hit moves to the back, a miss changes nothing |
| `LruCaches.LruCache.Set` | marathon/marathon-lb/lrucache.py:23-29 | a present key moves to the back with its new value, a new key evicts the front of a full cache; raises only on an empty cache without capacity |
| `LruCaches.LruCache.MakeRoom` | marathon/marathon-lb/lrucache.py:27-28 | the eviction step by itself, with its `KeyError` |
| `LruRuns.RunShape` | marathon/marathon-lb/lrucache.py:23-29 | over every trace keys never repeat and the capacity is never exceeded |
| `LruRuns.NoCapacity` | marathon/marathon-lb/lrucache.py:26-28 | with capacity <= 0 the cache stays empty and every `set` raises |
| `LruRuns.HistoryInvariant` | marathon/marathon-lb/lrucache.py:15-29 | the cache is always the end of the history of all keys in order of last touch |
| `LruRuns.RecencyOrderExists` | marathon/marathon-lb/lrucache.py:15-29 | every trace has an order of its touched keys by last touch |
| `LruRuns.RecencyOrderUnique` | marathon/marathon-lb/lrucache.py:15-29 | and only one |
| `LruRuns.RecencyCharacterisation` | marathon/marathon-lb/lrucache.py:15-29 | after any trace the keys in order are the last min(capacity, d) of the d touched keys in that order |
| `LruRuns.HitIsLatest` | marathon/marathon-lb/lrucache.py:15-21 | a hit returns the value last set for the key |
| `LruRuns.SizeIsMin` | marathon/marathon-lb/lrucache.py:23-29 | the size is min(capacity, number of distinct keys ever set) |
| `LruRuns.AgreesIffItFits` | marathon/marathon-lb/lrucache.py:15-29 | the cache answers as an unbounded dictionary if and only if at most capacity distinct keys were set |
| `LruRuns.SmallTracesSeeADictionary` | marathon/marathon-lb/lrucache.py:15-29 | such a trace gets from every `get` in it what a dictionary would answer |
| `LruInclusion.Inclusion` | marathon/marathon-lb/lrucache.py:15-29 | for 1 <= j <= k and any trace of gets and sets the j-cache is a subsequence of the k-cache: same order, same values |
| `LruInclusion.HitsCarryOver` | marathon/marathon-lb/lrucache.py:15-21 | a hit in the small cache is the same hit in the large one |
| `LruCompetitive.ResolveIp` | marathon/marathon-lb/utils.py:259-273 | the resolver serves a request as `get`, then `set` on a miss that could be resolved |
| `LruCompetitive.ServePays` | marathon/marathon-lb/lrucache.py:15-29 | a miss of the full k-cache lowers the weight of what the other policy does not hold by k-h+1 |
| `LruCompetitive.AccountCoversPotential` | marathon/marathon-lb/lrucache.py:15-29 | the amortised invariant of the competitive bound over every request sequence |
| `LruCompetitive.CompetitiveBound` | marathon/marathon-lb/lrucache.py:15-29 | (k-h+1) * misses <= k * loads + (k-h+1) * k against any policy with h <= k slots |
| `LruCompetitive.OnDemandLoadsAreMisses` | marathon/marathon-lb/lrucache.py:15-29 | for a policy that loads only on a miss, its loads are its misses |
| `LruCompetitive.AtMostKTimesOptimal` | marathon/marathon-lb/lrucache.py:15-29 | at most k times the misses of any on-demand policy with k slots, plus k |
| `LineScanners.LineScanner.Scan` | gogs/cmd/hook.go:77-78 | the scanner yields the next line of what is unread, without newline and one carriage return, and leaves the rest unread |
| `LineScanners.NewlineIsDropped` | gogs/cmd/hook.go:77-79 | a line is scanned without its newline |
| `LineScanners.CarriageReturnIsDropped` | gogs/cmd/hook.go:77-79 | and without one carriage return before it |
| `LineScanners.LastLineIsScanned` | gogs/cmd/hook.go:77-79 | the last line needs no newline |
| `LineScanners.UnlinesRescan` | gogs/cmd/hook.go:79-80 | lines written back with newlines rescan to themselves if and only if none ends in a carriage return |
| `LineScanners.UnlinesOfLines` | gogs/cmd/hook.go:79-80 | the buffer equals the input with a missing final newline added if and only if no line had a carriage return to drop |
| `CommitGraph.Ancestors` | gogs/cmd/hook.go:131-132 | the graph search terminates with exactly the commits that the start reaches |
| `CommitGraph.RevList` | gogs/cmd/hook.go:130-137 | fails exactly for an unknown commit; its output is empty exactly when the new tip reaches the old one |
| `CommitGraph.NothingNewIffAncestor` | gogs/cmd/hook.go:130-137 | nothing reachable from old but not from new, if and only if old is an ancestor of new |
| `CommitGraph.AncestorsAreFixed` | gogs/cmd/hook.go:130-137 | new commits never change the ancestry of known ones |
| `PreReceive.CheckLine` | gogs/cmd/hook.go:82-137 | one line: accepted exactly when the combined rule allows it, otherwise the message of the first failing check |
| `PreReceive.RunHookPreReceive` | gogs/cmd/hook.go:68-159 | the whole hook: the verdict of the first line that is not allowed, then of the custom hook, and the buffered input |
| `PreReceive.RunHookPostReceive` | gogs/cmd/hook.go:195-240 | buffers every line and asks for one push update per three-field line, none for a wiki |
| `PreReceive.VerdictIsConjunction` | gogs/cmd/hook.go:78-138 | the early exit accepts if and only if every line is allowed, and otherwise complains about the first that is not |
| `PreReceive.AcceptedIff` | gogs/cmd/hook.go:68-159 | the process succeeds if and only if the gate allows the push and no custom hook fails |
| `PreReceive.VerdictIgnoresOrder` | gogs/cmd/hook.go:78-138 | reordering the lines does not change the verdict |
| `PreReceive.CustomHookSeesInput` | gogs/cmd/hook.go:76-80 | the custom hook reads the pushed input, newline-terminated, if and only if it is free of carriage returns before line ends |
| `PreReceive.CustomHookSeesLines` | gogs/cmd/hook.go:76-80 | it reads the same lines if and only if none still ends in a carriage return |
| `ProtectedHistory.LineKeepsBranch` | gogs/cmd/hook.go:95-137 | an allowed line keeps a protected branch without white space in its name, with its old tip in its history, and does not create one |
| `ProtectedHistory.PushKeepsBranch` | gogs/cmd/hook.go:78-138 | so does every push, accepted or not, with Git applying whatever lines it wrote |
| `ProtectedHistory.ProtectedHistoryOnlyGrows` | gogs/cmd/hook.go:125-137 | over every run a branch without white space in its name that stays protected is never deleted and keeps everything its old tip reached |
| `ProtectedHistory.ProtectedBranchIsNeverCreated` | gogs/cmd/hook.go:130-134 | such a branch, protected and not there, cannot be pushed: the all-zero old tip makes `rev-list` fail |
| `ProtectedHistory.PullRequestOnlyIsFrozen` | gogs/cmd/hook.go:107-123 | without whitelisted pushers, or with pull requests required, no run moves such a branch at all |
| `ProtectedHistory.GateReadsUpdateIff` | gogs/cmd/hook.go:86-92 | the gate reads the three parts of the line Git wrote if and only if the ref has no white space |
| `ProtectedHistory.SpacedBranchIsDeleted` | gogs/cmd/hook.go:86-89 | on every server, a protected branch with white space in its name is deleted by one accepted push of somebody outside the whitelist |
| `ProtectedHistory.SpacedBranchIsCreated` | gogs/cmd/hook.go:86-89 | or created, at any commit |
| `ProtectedHistory.HistoryGuardedIff` | gogs/cmd/hook.go:86-137 | protection keeps the history of a branch over every run if and only if its name has no white space |
| `ProtectedHistory.CreationGuardedIff` | gogs/cmd/hook.go:86-137 | it keeps the branch from being created if and only if its name has no white space |
| `ProtectedHistory.DirectPushGuardedIff` | gogs/cmd/hook.go:86-123 | it holds the branch in place against people who may not push directly if and only if its name has no white space |
| `PushVerdicts.PushAcceptedIff` | gogs/cmd/hook.go:78-138 | a push as Git writes it is accepted if and only if every update has no rule, a rule that is switched off, or goes to a descendant by somebody who may push directly; and no custom hook fails |
| `PushVerdicts.RefusalSaysWhy` | gogs/cmd/hook.go:95-137 | the first update that is not permitted decides the verdict, by the first check it fails |
| `PushVerdicts.UncheckedPush` | gogs/cmd/hook.go:69-84 | pushes not over SSH and pushes to wikis are not checked |
| `PushVerdicts.PushMovesRefs` | gogs/cmd/hook.go:78-138 | a permitted push moves, creates and deletes its refs; any other leaves the repository as it was |
| `PushVerdicts.PostReceiveReportsUpdates` | gogs/cmd/hook.go:221-235 | one push update per update, with old commit, new commit and ref in their places |
| `Serv.CommandRoundTrip` | gogs/cmd/serv.go:92-98 | printing and parsing returns verb and lower-cased owner, and the lower-cased repository if and only if its name survives the stripping of suffixes |
| `Serv.StripResult` | gogs/cmd/serv.go:152-153 | for which names the two suffix trims give back the name, for each of the four suffixes |
| `Serv.RunServ` | gogs/cmd/serv.go:138-227 | the early exits grant exactly the requests that the access rule allows for user and deploy keys, mirrors and private repositories |
| `AccessDecisions.PushServedIff` | gogs/cmd/serv.go:118-217 | a push is served if and only if the repository is no mirror and the key may write: an attached deploy key with write mode, or the key of a user with write access |
| `AccessDecisions.FetchServedIff` | gogs/cmd/serv.go:118-227 | who is served a fetch of a public and of a private repository, by deploy keys and user keys |
| `AccessDecisions.OtherVerbsFail` | gogs/cmd/serv.go:172-175 | no other verb is served |
| `AccessDecisions.NoCommand` | gogs/cmd/serv.go:138-150 | no command gets no shell, a single word is no command |
| `GoStrings.SprintInjective` | kafka/kafka_zookeeper_exporter/metrics.go:25 | different integers print differently |
| `KafkaMetrics.Collector.constructor` | kafka/kafka_zookeeper_exporter/collector.go:35-42 | a new collector has its filters and no error |
| `KafkaMetrics.Collector.Collect` | kafka/kafka_zookeeper_exporter/collector.go:107-167 | run sequentially: all metrics in order, then the gauge with the flag; only the gauge when there is no connection |
| `KafkaMetrics.Collector.ClusterMetrics` | kafka/kafka_zookeeper_exporter/metrics.go:13-27 | one controller metric, or the error flag |
| `KafkaMetrics.Collector.TopicMetrics` | kafka/kafka_zookeeper_exporter/metrics.go:29-54 | the partition count and every partition's metrics, or the error flag |
| `KafkaMetrics.Collector.PartitionMetrics` | kafka/kafka_zookeeper_exporter/metrics.go:57-107 | replica count, leader and in-sync metrics; the flag if the leader or the in-sync fetch fails |
| `KafkaMetrics.Collector.ConsumerMetrics` | kafka/kafka_zookeeper_exporter/metrics.go:109-134 | one offset per partition of the selected topics, or the error flag |
| `KafkaMetrics.FetchFailedIff` | kafka/kafka_zookeeper_exporter/collector.go:123-162 | a fetch failed if and only if the controller, a list, the partitions, a leader or an in-sync set of a topic asked for, or the offsets of a consumer group asked for did; no filter asks for all |
| `KafkaMetrics.SequentialNoGauge` | kafka/kafka_zookeeper_exporter/metrics.go:13-134 | whatever ZooKeeper answers, the scrape-error gauge is not among the collected metrics |
| `FanOut.StepKeepsInv` | kafka/kafka_zookeeper_exporter/metrics.go:45-53 | every step of every goroutine keeps each WaitGroup counter equal to its number of unfinished goroutines, and additions ahead of starts |
| `FanOut.CountersAreNotNegative` | kafka/kafka_zookeeper_exporter/metrics.go:45-53 | no WaitGroup counter is ever negative, which would be a panic |
| `FanOut.StepConserves` | kafka/kafka_zookeeper_exporter/metrics.go:29-134 | a step takes only its own instruction off what all goroutines together have left to do |
| `FanOut.SomebodyCanStep` | kafka/kafka_zookeeper_exporter/collector.go:123-166 | no deadlock: unless all have finished, some goroutine can step |
| `FanOut.AfterWaitOnlyMain` | kafka/kafka_zookeeper_exporter/collector.go:164-166 | after the last `Wait` nobody else is alive |
| `CollectorRuns.CollectTotal` | kafka/kafka_zookeeper_exporter/collector.go:123-166 | the goroutines together send each metric as often as the sequential loops and flag each failed fetch |
| `CollectorRuns.StartInv` | kafka/kafka_zookeeper_exporter/collector.go:123-125 | the invariant holds when `Collect` starts |
| `CollectorRuns.EveryScheduleAgrees` | kafka/kafka_zookeeper_exporter/collector.go:123-166 | every complete schedule sends a permutation of the sequential metrics, no gauge among them, and then one gauge, which is 1 if and only if a fetch failed (for a fresh collector) |
| `CollectorRuns.EveryScheduleEnds` | kafka/kafka_zookeeper_exporter/collector.go:123-166 | every schedule can be completed, and all complete ones have the same length |
| `CollectorRuns.StuckMeansFinished` | kafka/kafka_zookeeper_exporter/collector.go:123-166 | a schedule is stuck if and only if all goroutines have finished |
| `CollectorRuns.GaugeComesLast` | kafka/kafka_zookeeper_exporter/collector.go:164-166 | at every moment of every run the counters are exact and not negative, and past the `Wait` only the gauge is left |
| `CollectedMetrics.SentIffCollected` | kafka/kafka_zookeeper_exporter/metrics.go:13-134 | a metric is sent if and only if the answers and the filters spell it out: controller, partition count, replica count, leader, preferred leader, in-sync replicas, offsets |
| `CollectedMetrics.EveryScheduleSends` | kafka/kafka_zookeeper_exporter/collector.go:123-166 | every complete interleaving of a fresh collector sends exactly those metrics, and then the gauge: 1 if some fetch failed, 0 if none |
| `MetricIdentity.IdentitiesAreUnique` | kafka/kafka_zookeeper_exporter/metrics.go:21-133 | with distinct names and ids in the answers, no two sends share a metric name and label values |
| `MetricIdentity.TraversalOrderDoesNotMatter` | kafka/kafka_zookeeper_exporter/metrics.go:118-133 | the order in which the offset maps are traversed does not change what is sent |
| `LocaleImport.AppendWithin` | gogs/cmd/import.go:97 | the overlapping `append` equals a move of the original characters |
| `LocaleImport.EditToken` | gogs/cmd/import.go:97 | the edited token is the concatenation of the two slices, and nothing outside it changes |
| `LocaleImport.RewriteToken` | gogs/cmd/import.go:93-99 | one line in the buffer: rewritten, kept or panicking; what is unread is intact |
| `LocaleImport.ImportFile` | gogs/cmd/import.go:91-102 | editing in the shared buffer gives the same as rewriting each line of the original text |
| `LocaleImport.RunImportLocale` | gogs/cmd/import.go:69-112 | the loop over the languages after the first: what is written, the partial file of a panic included, where it stops and why, and that nothing else is touched |
| `LocaleImport.PanicsIff` | gogs/cmd/import.go:94-97 | the slicing panics if and only if the first `="` is the end of the line |
| `LocaleImport.UnescapeQuote` | gogs/cmd/import.go:98 | unescaping undoes escaping for every value, backslashes before quotes included |
| `LocaleImport.UnquotingUndoesQuoting` | gogs/cmd/import.go:94-98 | an exported line is imported as `key=value` if and only if the key has neither `="` nor `\"` |
| `LocaleImport.VerbatimLineIsKept` | gogs/cmd/import.go:95-101 | a line without `="`, or not ending in a quote, is imported as itself |
| `LocaleImport.QuotedLineIsUnquoted` | gogs/cmd/import.go:94-98 | any other line loses the quote after its first `=` and its last one, and its escaped quotes become quotes |
| `LocaleImport.ImportUndoesExport` | gogs/cmd/import.go:91-102 | a file of exported entries and other lines is imported as the plain entries and the other lines as they were |
| `LocaleImport.ImportStopsAtPanic` | gogs/cmd/import.go:91-102 | a panic leaves exactly the lines before it written |
| `FileTrees.RenameMoves` | gogs/cmd/restore.go:93-97 | a rename to where no directory stands, nor a file if a directory is moved, moves the whole subtree and touches nothing else |
| `FileTrees.ExtractLookup` | gogs/cmd/restore.go:51 | extraction gives every archived path its entry and keeps every other path |
| `FileTrees.MkdirAllMakes` | gogs/cmd/restore.go:104 | the data directory exists afterwards if its existing ancestors are directories |
| `FileTrees.MkdirAllStopsAtFile` | gogs/cmd/restore.go:104 | nothing is made below a file |
| `BackupRestore.Installation.RunBackup` | gogs/cmd/backup.go:44-136 | the archive built entry by entry, or the fatal error, for every combination of flags |
| `BackupRestore.Installation.RunRestore` | gogs/cmd/restore.go:42-136 | the disk and the database after a restore, also when it ends in the middle |
| `BackupRestore.Installation.RunRestoreData` | gogs/cmd/restore.go:105-121 | the loop over the data directories |
| `BackupArchive.BackupIsFull` | gogs/cmd/backup.go:63-130 | a backup succeeds if and only if there is a custom directory and, unless excluded, a repository root; its archive then holds each tree in its place, and nothing outside its root directory |
| `BackupArchive.FilledOnce` | gogs/cmd/backup.go:79-126 | each part of the archive is filled by its own step and left alone by all others |
| `RestoreInverts.ReplaceWorks` | gogs/cmd/restore.go:92-99 | with no old `.bak` in the way, replacing moves the source in, keeps what was there as `.bak` and changes nothing else |
| `RestoreInverts.ReplaceBlocked` | gogs/cmd/restore.go:92-95 | with one in the way, or nowhere to stand, it fails and changes nothing |
| `RestoreInverts.ReplaceNeedsSource` | gogs/cmd/restore.go:92-99 | without the source it fails after what was there has been moved to `.bak` |
| `RestoreInverts.DataDirWorks` | gogs/cmd/restore.go:106-120 | a data directory in the archive is restored, one that is not is left alone |
| `RestoreInverts.UnpacksIffCompatible` | gogs/cmd/restore.go:126-129 | unpacking the repositories succeeds if and only if no file meets a directory |
| `RestoreInverts.UnpackOverlays` | gogs/cmd/restore.go:126-129 | unpacking gives every backed-up repository path back and keeps the others |
| `RoundTrip.OverlaidIsSameIff` | gogs/cmd/restore.go:126-129 | the repositories equal those backed up if and only if the target had no others |
| `RestoreTheorems.RestoreInvertsBackup` | gogs/cmd/restore.go:84-132 | restore inverts backup: database, custom and data directories and repositories, replaced trees as `.bak`, what the archive lacks unchanged, nothing else touched |
| `RestoreTheorems.RestoreSucceedsIff` | gogs/cmd/restore.go:84-132 | whatever is on the disk, a restore succeeds if and only if the custom directory has somewhere to stand, no old `.bak` is in the way of a tree to be replaced, and no file meets a directory among the repositories; where an old `.bak` stops it, the database is the imported one and that place, its `.bak` and all later places are as they were |
| `RestoreTheorems.SecondRestoreFails` | gogs/cmd/restore.go:92-95 | restoring over a custom directory with an old `.bak` fails, with both exactly as before |
| `RestoreTheorems.UnreadableIsRefused` | gogs/cmd/restore.go:45-60 | without the temporary directory nothing happens, and an archive without metadata changes neither the database nor the rest of the disk |
| `RestoreTheorems.TargetByLooking` | gogs/cmd/restore.go:90-130 | on a well-formed disk the conditions of these results can be checked path by path |
| `RestoreTheorems.DatabaseOnlyRestore` | gogs/cmd/restore.go:84-132 | with `--database-only`, restoring any accepted backup replaces the database and leaves every file exactly as it was |
| `RestoreTheorems.RefusedRestore` | gogs/cmd/restore.go:56-79 | an archive of a later version, or without a configuration where no flag gives one, changes neither the database nor the disk outside the temporary directory |
| `RestoreTheorems.CustomIsNotSkipped` | gogs/cmd/restore.go:90-100 | against the description: restoring a database-only archive without `--database-only` fails; with `--config` after the database has been replaced and the custom directory moved to `.bak`, without it before either |
| `RestoreTheorems.SkipsWhatIsMissingIff` | gogs/cmd/restore.go:29-30 | for every backup and all flags: what an accepted archive lacks is skipped if and only if only the database is asked for or the archive holds more than the database; and what happens to the database in each case |
| `CephParameters.ParseParameters` | ceph/centos7-cephfs-provisioner/cephfs-provisioner.go:257-298 | the loop over one enumeration of the parameters and the checks after it, in their order |
| `CephParameters.GivenIsOption` | ceph/centos7-cephfs-provisioner/cephfs-provisioner.go:268-286 | a parameter given once is the option, wherever it stands |
| `CephParameters.MissingIsDefault` | ceph/centos7-cephfs-provisioner/cephfs-provisioner.go:264-266 | a parameter not given keeps its default |
| `CephParameters.OrderIgnoredIff` | ceph/centos7-cephfs-provisioner/cephfs-provisioner.go:268-286 | the loop gives the same options in every order if and only if a parameter is invalid or any two for one option agree |
| `CephParameters.ParametersIgnoreOrder` | ceph/centos7-cephfs-provisioner/cephfs-provisioner.go:257-314 | with keys that differ in lower case and a one-entry admin secret, map order does not matter |
| `CephParameters.JoinUndoesSplit` | ceph/centos7-cephfs-provisioner/cephfs-provisioner.go:272-276 | the monitors handed to the command are the parameter as written |
| `ParameterMeaning.ParsedIsMeaning` | ceph/centos7-cephfs-provisioner/cephfs-provisioner.go:257-314 | by the texts of keys and defaults: which parameters are accepted, and what cluster, admin, secret and monitors they come to |
| `ParameterMeaning.SplitIsApart` | ceph/centos7-cephfs-provisioner/cephfs-provisioner.go:272-276 | no monitor has a comma in it |
| `CephProvisioner.SecretNameInjective` | ceph/centos7-cephfs-provisioner/cephfs-provisioner.go:75-77 | different users have different secret names |
| `CephProvisioner.CephFSProvisioner.Provision` | ceph/centos7-cephfs-provisioner/cephfs-provisioner.go:111-199 | both stores and the reply after each way through `Provision`, errors and the crash included |
| `CephProvisioner.CephFSProvisioner.Delete` | ceph/centos7-cephfs-provisioner/cephfs-provisioner.go:203-255 | both stores and the reply after each way through `Delete` |
| `CephLifecycle.EveryRun` | ceph/centos7-cephfs-provisioner/cephfs-provisioner.go:111-255 | over every run with fresh identifiers volumes have different shares, users and secrets, all present; every share, user and secret is accounted for; nothing initial changes |
| `CephLifecycle.LeavesBehindIff` | ceph/centos7-cephfs-provisioner/cephfs-provisioner.go:137-165 | a creation leaves its share (or user) without a volume if and only if the command made it and no secret was made |
| `CephLifecycle.OnlyLeftoversRemain` | ceph/centos7-cephfs-provisioner/cephfs-provisioner.go:111-255 | when all volumes are gone exactly the initial shares and users and those left behind remain |
| `CephLifecycle.NoSecretLeaks` | ceph/centos7-cephfs-provisioner/cephfs-provisioner.go:111-255 | when all volumes are gone exactly the initial secrets remain |
| `CephLifecycle.DeleteRemovesItsOwn` | ceph/centos7-cephfs-provisioner/cephfs-provisioner.go:203-255 | after every run a successful deletion removes exactly the share, user and secret its own provisioning made |
| `CephLifecycle.DeleteSucceedsIff` | ceph/centos7-cephfs-provisioner/cephfs-provisioner.go:203-255 | when everybody serves it, deletion succeeds if and only if the stored volume leads to its secret |
| `CephLifecycle.DeleteUndoesProvision` | ceph/centos7-cephfs-provisioner/cephfs-provisioner.go:111-255 | deleting a fresh volume gives both stores back as they were |
| `ProvisionResults.ReturnedVolume` | ceph/centos7-cephfs-provisioner/cephfs-provisioner.go:143-198 | a returned volume mounts the printed path from its first slash on, through the given monitors, and refers to a new secret with the printed key in the right namespace |
| `ProvisionResults.CommandRunsOnce` | ceph/centos7-cephfs-provisioner/cephfs-provisioner.go:112-137 | the command runs once, with this share and user and the class's parameters, or nothing happens |
| `ProvisionResults.DeletionIs` | ceph/centos7-cephfs-provisioner/cephfs-provisioner.go:203-255 | when a deletion succeeds, is ignored or crashes, the call it makes, and what it removes |
| `ProvisionResults.SecretOfIff` | ceph/centos7-cephfs-provisioner/cephfs-provisioner.go:89-108 | which secret a volume refers to |
| `CephLifecycle.CreationAdds` | ceph/centos7-cephfs-provisioner/cephfs-provisioner.go:111-199 | a fact behind `EveryRun`: provisioning adds only its own share, user and secret |
| `CephLifecycle.DeletionRemoves` | ceph/centos7-cephfs-provisioner/cephfs-provisioner.go:203-255 | a fact behind `EveryRun`: deletion removes only its volume's share and user and the secret it refers to; a foreign volume is ignored without effect |
| `CephLifecycle.ProvisionSucceedsIff` | ceph/centos7-cephfs-provisioner/cephfs-provisioner.go:137-199 | a fact behind `EveryRun`: when a volume is returned, and when the provisioner crashes, at the slice or on `null` |
| `CephLifecycle.StoredVolumeResolvesIff` | ceph/centos7-cephfs-provisioner/cephfs-provisioner.go:79-108 | a fact beside `DeleteSucceedsIff`: the stored volume leads to its secret if and only if the namespace was kept or the claim's namespace is where the secret was put |

## Left out

- Text of messages and errors, logging, exit codes, command-line parsing and settings files; errors are results without text. Where paths and settings come from a file (as after a restore's configuration is read), they are parameters.
- Strings are sequences of characters: bytes and their encoding are not distinguished, and `ToLower` changes ASCII letters only.
- The scanner's token limit: lines of any length are scanned.
- The cache's shared use by threads (the source has no lock) and its default capacity of 100.
- What Git does with accepted lines is an assumption of `ProtectedHistory`: each line in Git's own format moves the ref it names, everything after the second space, if the old value in it is still current. Of Git's rules for ref names only those on control characters and the space are used. Pushes over HTTP and to wikis are outside the history results, because the gate lets them through unchecked.
- Shallow repositories: a commit graph is assumed to hold the parents of all its commits.
- The HTTP trigger after a push update, and the update hook, which only delegates to a custom hook.
- Serv.RunServ: does not model the time stamps of keys, database faults other than missing entries, the verb rewriting on Windows, or the Git process.
- ZooKeeper's answers are fixed for one collection; metric values are integers instead of floating point. Go's rules on data races are assumed away: setting the error flag is one step.
- `Describe` and the HTTP handler of the exporter.
- LocaleImport.RunImportLocale: does not model modification times or the checks of the two directories.
- Zip and database formats: packing and extracting, dumping and importing are inverse by construction. A failing extraction is modelled without the part it had already written, and an archive that extracts is not cut short by a full disk.
- BackupRestore.Installation.RunBackup: does not model the temporary directory of the backup and its existence check, nor the place of the archive file.
- RestoreTheorems.RestoreInvertsBackup: asks that no earlier extraction is left in the temporary directory; the source overlays what it finds there.
- FileTrees.RenameMoves: does not model file-system boundaries; `os.Rename` fails where the two paths are on different devices.
- RestoreTheorems.RestoreInvertsBackup: for the same reason holds where the temporary directory is on the file system of the installation.
- Version comparison is a parameter: the set of pairs of which the first is lower.
- What the CephFS command and the Kubernetes API answer are parameters of each operation; a command that exits well is assumed to have made, or removed, both share and user. Volume name, capacity, access modes and reclaim policy are not kept.
- The copy of the provisioner for Ubuntu, which is the same program.
- The merge scripts, the small Ceph and HAProxy helper scripts, the web front end of Gogs, and everything that is configuration or documentation.
