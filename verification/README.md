# Verified model of solidlint's engine

solidlint is a linter for Go. Most of it walks syntax trees and type information; underneath lie a
number of self-contained algorithms with hard correctness claims. This project models those
algorithms in Dafny, in the form the program has them (a mutable field is a class field, a loop is a
loop, a recursion over a table is a recursion), and proves what each of them promises.

| file | component |
|---|---|
| `WorkerPool.dfy` | feeder, workers and collector that run package checks over two channels, as a state machine |
| `ResultCache.dfy`, `CacheKey.dfy`, `CacheLaws.dfy` | the on-disk result cache, the byte stream its keys are hashed from, and what a caller can say of entries, look-ups and reports |
| `CachedPool.dfy`, `WarmCache.dfy` | the pool and the cache together: workers that share one directory with each other and with other runs; what one call leaves for the next |
| `Report.dfy` | from a cached run with program checks to the disambiguated report |
| `Paths.dfy` | portable file names and the names that go into fingerprints |
| `Identity.dfy`, `EvidenceLaws.dfy` | subjects and identities of findings, their disambiguation, and the final uniqueness check; what they are on the text of the evidence |
| `FieldFlows.dfy` | the memoised search for injected fields that are never consumed |
| `SnapshotRebuild.dfy` | which packages are type-checked again after exclusion, the memoised rebuild, and its rollback |
| `UnionFind.dfy`, `Components.dfy` | union-find with path compression, and reading components off a forest |
| `TypeCohesion.dfy`, `DispatchFamilies.dfy` | the four clients: LCOM4 and TCC, import clusters, dispatch and discriminator families |
| `TypeWalk.dfy` | the walk that collects foreign named types from self-referential declarations |
| `LineIntervals.dfy` | counting the lines a type covers by merging intervals |
| `ParameterClumps.dfy` | the pairwise scan for data clumps and the pruning of subsumed ones |
| `EditDistance.dfy` | two-row edit distance and the nearest known configuration field |
| `GlobMatch.dfy` | exclusion patterns with `**` |
| `Baseline.dfy`, `BaselineLaws.dfy`, `EntryLaws.dfy`, `ExpiryDates.dfy` | accepted-findings documents: validation, diff, update, filter, expiry |
| `Ordering.dfy`, `Text.dfy`, `Options.dfy` | sorting and string operations of Go's standard library, optional values |

How Go's features appear:

* Ranging over a map has no fixed order. Such a loop picks any remaining key (`:|`), so a contract that
  does not mention an order holds for all of them.
* `sort.Slice` leaves the order of equal elements open; `Ordering.SortSlice` promises a sorted
  permutation and no more.
* SHA-256 in hexadecimal is a function parameter assumed to have no collisions on texts of any length.
  `filepath.Match` on one segment, the type checker, the runners of checks, path normalisation,
  receiver lookup and lower-casing are function parameters without assumptions, or with those stated in
  the `Valid` predicate of the environment that carries them.
* Strings are sequences of bytes.

## Results that differ from what the comments say

* The cache is meant to be invisible. It is not when one cache directory serves two analysis roots:
  the hash covers file names relative to the root, the stored findings keep absolute file names, and a
  run in a second clone of the same sources gets findings that point into the first
  (`ResultCache.TwoClonesVisible`). `ResultCache.TransparentForEveryCheck` proves the exact condition:
  whatever the checks report, the directory is invisible over every history if and only if packages
  with the same hashed material lie under the same root. `ResultCache.TransparentIffRootBlind` gives
  the condition for one given set of checks.
* The disambiguation step leaves exact duplicates to be rejected. Exactly which pairs those are is
  proved: the same check, path, subject, derived identity, receiver and offset
  (`Identity.VerdictOnReports`); the receiver is redundant where the portable path determines the file
  (`Identity.DistinctWithoutReceiver`).
* The textual shortcut for patterns ending in a slash and `**` is wider than the matcher for some
  patterns. It accepts nothing that the matcher rejects if and only if the matcher accepts the directory
  named before that ending, or none is named (`GlobMatch.ShortcutSubsumedIff`). Where the pattern names a
  directory without `**` parts, that is the case if and only if its text does not end in a slash and every
  part of it matches its own text (`GlobMatch.ShortcutExact`). Two failing patterns are `gen///**`
  (`GlobMatch.ShortcutWider`) and `[x]/**`, whose class does not match the text `[x]`
  (`GlobMatch.BracketsVisible`).
* An explicit update is documented to migrate version 4 baselines and to keep stale entries unless asked
  to prune. It refuses a version 4 document with a stale entry, because the entry kept is not valid: it
  names no check, no path, no subject and no reason (`BaselineLaws.StaleLegacyRefused`).
  `BaselineLaws.LegacySucceedsIff` and `BaselineLaws.SucceedsIff` are the exact conditions for a successful
  update, on every report.
* The final check compares portable paths, fingerprints hold another path. An accepted report has as many
  fingerprints as findings if and only if no two findings share everything else in the fingerprint and
  differ in the portable path (`Baseline.IdentifiedDistinct`); two that do are refused by every update of
  a document that has no entry for them (`BaselineLaws.ClashRefused`). Without drive letters two file names
  are confused if and only if one lies in its root under a name made of the other one's digest
  (`Paths.ConfusedIff`, `Baseline.ExternalClash`). The names of Go source files are never confused
  (`Paths.GoFilesTold`), so this takes a position from a line directive or from another producer of
  findings. Names with drive letters are confused when they differ only before cleaning
  (`Paths.DrivesConfused`).
* Four placeholders are refused as reasons. Three of them are shorter than the twelve characters demanded
  anyway; only spellings of "accepted for now" are refused for what they say (`EntryLaws.ReasonMeans`).
* A package that the rebuild meets while it is being visited is marked as part of an import cycle. The mark
  is overwritten by the package's own check and never reported (`SnapshotRebuild.CycleUnreported`), while
  around every cycle some package is checked against a loaded package (`SnapshotRebuild.CycleMixes`). Go
  forbids import cycles, and without them the rebuilt graph is the coherent one
  (`SnapshotRebuild.GroundedIsCoherent`).

## Model

| member | source | states |
|---|---|---|
| `WorkerPool.PoolSize` | internal/analyzer/run.go:284-290 | the processor count where that lies between one and the number of jobs, otherwise the nearer of these two |
| `WorkerPool.StepKeepsInvariant` | internal/analyzer/run.go:291-334 | any single action of any goroutine keeps every job in exactly one place, markers, message order and counters consistent, and uses up exactly one unit of a measure |
| `WorkerPool.RecordedOne` | internal/analyzer/stats.go:71-91 | one recorded execution moves exactly one job of its group from pending to accounted, with misses equal to executions under a cache; which counter it moves is said by `StepCounts` |
| `WorkerPool.StepCounts` | internal/analyzer/stats.go:71-91 | one step, one group: recording a hit adds one to the hits and nothing else, recording a run of the check adds one execution and, under a cache, one miss; every other step and group counts nothing |
| `WorkerPool.RunCounts` | internal/analyzer/stats.go:71-91 | over any run the hits of a group grow by the hits recorded for its jobs, the executions by the check runs recorded, and the misses by the same under a cache and not at all without one |
| `WorkerPool.Progress` | internal/analyzer/run.go:296-334 | no reachable state deadlocks before the collector has seen every done marker |
| `WorkerPool.CompleteAtTermination` | internal/analyzer/run.go:326-336 | when the collector stops, all workers have exited, no message is left, each job was collected exactly once, and executions plus hits equal the jobs of each group |
| `WorkerPool.EveryRun` | internal/analyzer/run.go:280-336 | every run of every interleaving keeps the invariant; runs are finite, of length exactly 4 per job, 3 per worker and 1, and can stop only in the complete state; hits, executions and misses of each group are the numbers of steps that recorded them |
| `WorkerPool.ArrivalOrderIrrelevant` | internal/analyzer/run.go:326-335 | the multiset of findings does not depend on the order in which results arrive |
| `WorkerPool.ExecutePackageJobs` | internal/analyzer/run.go:280-336 | whatever the scheduler picks, the call returns exactly the findings of all jobs, and statistics in which each group counts the hits and the check runs of the run that was taken |
| `CacheKey.StreamUnique` | internal/analyzer/cache.go:216-222 | components followed by NUL bytes are recovered from the stream |
| `CacheKey.SplitUnique` | internal/analyzer/cache.go:223-227 | the border between kept and removed files is recovered, even if a file is named like the mark between them |
| `CacheKey.HashDeterminesMaterial` | internal/analyzer/cache.go:209-258 | packages with the same hash agree on path, module, dependency digest and both lists of files with names, flags and contents |
| `CacheKey.HashTellsPackages` | internal/analyzer/cache.go:209-258 | two packages have the same hash if and only if they agree in path, module and dependency digest and their kept and their removed files, each in the byte order of their names, agree one by one in the name below the root, the generated flag and the contents or read error |
| `CacheKey.HashTellsFile` | internal/analyzer/cache.go:225-258 | every file of a package, kept or removed, has its like, kept or removed as well, in a package with the same hash |
| `CacheKey.WriteSourceDigests` | internal/analyzer/cache.go:233-258 | appends name, flag and digest of each file in name order, in whatever order the files come |
| `CacheKey.ComputePackageHash` | internal/analyzer/cache.go:209-231 | the written bytes hash to the package hash of which `HashDeterminesMaterial` and `HashTellsPackages` speak |
| `ResultCache.EntryPathUnique` | internal/analyzer/cache.go:153-159 | entry files of different policies or groups differ; of one policy and group only packages with the same flattened name share a file |
| `CacheLaws.SharedFile` | internal/analyzer/cache.go:153-159 | two package entries share a file if and only if policy and group are the same and the import paths, or the directories where there is none, differ at most in which of slash, backslash and underscore they use |
| `ResultCache.PathsApart` | internal/analyzer/cache.go:153-159 | a package entry never is a program entry |
| `ResultCache.ProgramPathUnique` | internal/analyzer/cache.go:194-196 | program entries of different policies or groups are different files |
| `ResultCache.ProgramHashDeterminesMaterials` | internal/analyzer/cache.go:198-207 | programs with the same hash consist of packages with the same material |
| `ResultCache.ComputeProgramHash` | internal/analyzer/cache.go:198-207 | the bytes written hash to the program hash of which `PermutedProgram` and `ProgramHashDeterminesMaterials` speak |
| `ResultCache.PermutedProgram` | internal/analyzer/cache.go:198-207 | neither the hash nor what the runner is shown depends on the order in which packages are given |
| `CacheLaws.ViewsInOrder` | internal/analyzer/cache.go:198-207 | the packages of a program are hashed and shown in the byte order of their import paths |
| `ResultCache.HistorySound` | internal/analyzer/cache.go:65-196 | after any history of writes by any runs, torn or foreign files and deletions, an entry that would be accepted holds what the runner would report |
| `CacheLaws.PackageFinds` | internal/analyzer/cache.go:65-147 | after any history a package finds what its file was last stored with, if that was stored under the same hash, and nothing otherwise |
| `CacheLaws.ProgramFinds` | internal/analyzer/cache.go:161-207 | the same for programs |
| `CacheLaws.GoneIsGone` | internal/analyzer/cache.go:74-90 | when a file was last deleted, torn or written by another version, nothing is found there |
| `CacheLaws.LookupFinds` | internal/analyzer/cache.go:83-92 | a look-up finds exactly the issues of an entry of version solidlint-cache-v12 with the sought hash |
| `ResultCache.TransparentIffRootBlind` | internal/analyzer/cache.go:65-196 | over all histories a cached run reports what an uncached one would, if and only if packages the hash cannot tell apart are reported alike |
| `ResultCache.OneRootTransparent` | internal/analyzer/cache.go:65-196 | a directory used for one analysis root is invisible, also when two packages share an entry file |
| `ResultCache.TransparentForEveryCheck` | internal/analyzer/cache.go:65-196 | whatever the checks report, the directory is invisible if and only if equal material implies equal roots |
| `ResultCache.TwoRootsVisible` | internal/analyzer/cache.go:137-147 | two confusable packages under different roots whose findings name absolute files make the cache visible |
| `ResultCache.TwoClonesVisible` | internal/analyzer/cache.go:137-147 | a concrete history with two clones of one module, and a check that reports their main.go, for which the cached run differs |
| `ResultCache.PackageCache.ReadEntry` | internal/analyzer/cache.go:74-92 | an entry counts only with the right version and hash; each look-up is one hit or one miss, a miss on an existing file corrupt or stale |
| `ResultCache.PackageCache.Load` | internal/analyzer/cache.go:65-100 | a found report comes back stamped with the package's root |
| `ResultCache.PackageCache.Store` | internal/analyzer/cache.go:115-147 | replaces exactly one entry, whatever the findings, with the root left out |
| `ResultCache.PackageCache.RunPackage` | internal/analyzer/run.go:299-313 | on any directory a job reports what an acceptable entry holds and else runs the checks and stores; on a trusted one it reports the runner's findings, found or not, and leaves the directory trusted |
| `CacheLaws.PackageReport` | internal/analyzer/run.go:299-313 | the report of a package holds the findings of its check one by one, each under the root of the package |
| `ResultCache.PackageCache.RunProgram` | internal/analyzer/run.go:338-372 | the same for a program-scoped group and the run's canonical root |
| `CacheLaws.ProgramReport` | internal/analyzer/run.go:338-372 | the report of a program holds the findings of its check one by one; those without a root get the first non-empty root in load order |
| `CacheLaws.NoRoot` | internal/analyzer/workspace.go:298-305 | the canonical root is empty exactly when no package has a root |
| `CachedPool.LookUpFits` | internal/analyzer/cache.go:65-100 | at any moment of a run, a look-up in a trusted directory finds the job's own findings or nothing |
| `CachedPool.StepKeepsInvariant` | internal/analyzer/run.go:291-334 | every look-up, check, write, recording or pool step of any worker, and every write of another run in between, keeps each worker and message with the findings its job has without a cache, and uses up a unit of a measure unless it is foreign |
| `CachedPool.Progress` | internal/analyzer/run.go:291-334 | until the collector is done the call can take a step of its own |
| `CachedPool.EveryCachedRun` | internal/analyzer/run.go:280-336 | after any history of the directory and under every interleaving, failed writes and other runs included, the call takes at most 7 steps per job, 3 per worker and 1, and ends with exactly the findings of a call without a cache; at any moment the hits of a group are its jobs recorded as found, its executions those recorded after a check |
| `CachedPool.JobReport` | internal/analyzer/run.go:299-313 | what a job contributes are the findings of its group's check on its package, one by one, under the root of the package |
| `CachedPool.RunCounts` | internal/analyzer/stats.go:71-91 | over any run of the cached pool, hits grow by the jobs recorded as found in the cache and executions by those recorded after their check |
| `WarmCache.OnlyOwnFiles` | internal/analyzer/cache.go:115-147 | a call changes no file but those of its own jobs, and without a cache none at all |
| `WarmCache.WarmRun` | internal/analyzer/run.go:299-313 | when every job has an acceptable entry and nobody else touches those files, no run of the call records an execution |
| `WarmCache.SecondCallHits` | internal/analyzer/run.go:280-336 | two calls in a row on the same packages, in any interleavings, the first one with all its writes succeeding: the second runs no check and counts every job of every group as a hit |
| `Report.ProgramsUncached` | internal/analyzer/run.go:338-358 | group by group, with writes of other runs in between and failed writes, program groups report what they report without a cache |
| `Report.GroupCached` | internal/analyzer/run.go:348-355 | a program group that was found, or whose write succeeded, is found by its next look-up; every other look-up finds what it found before |
| `Report.SelectedNext` | internal/analyzer/run.go:93-121 | one more finding adds to what is reported itself, with completed root, subject and identity, if it is kept, and nothing otherwise |
| `Report.SameReports` | internal/analyzer/run.go:93-121 | reports over the same findings, in any order of arrival and of ties in sorting, are accepted alike, and without exact duplicates hold the same findings with the same identities |
| `Report.ReportOfEveryRun` | internal/analyzer/run.go:93-121 | after any history of the directory and under every interleaving, the final check decides as without a cache, and an accepted report holds the same findings with the same identities |
| `Identity.DeriveIssueIdentity` | internal/analyzer/types.go:222-246 | subject and identity are the ones read from the evidence; the subject is never empty |
| `EvidenceLaws.SubjectRead` | internal/analyzer/types.go:222-235 | for evidence written as `prefix:k1=v1;..;kn=vn`: the subject ends in the last value of the first listed key that has one, after the package path unless that already starts with it |
| `EvidenceLaws.SubjectFromPrefix` | internal/analyzer/types.go:222-235 | when no listed key has a value the prefix takes its place |
| `EvidenceLaws.IdentityShows` | internal/analyzer/types.go:236-243 | the identity shows `;key=value` for exactly the listed keys whose last value is neither blank nor numeric |
| `EvidenceLaws.UnlistedHidden` | internal/analyzer/types.go:236-243 | other fields do not show |
| `EvidenceLaws.IdentityTells` | internal/analyzer/types.go:222-277 | two pieces of evidence have the same identity if and only if they have the same prefix and show the same value for every listed key |
| `EvidenceLaws.TwoFields` | internal/analyzer/types.go:236-243 | the whole text of an identity that shows two fields: in the order of the list, not of the evidence |
| `EvidenceLaws.PaddedRead` | internal/analyzer/types.go:255-260 | white space around keys and values does not change what is read |
| `EvidenceLaws.NoColon` | internal/analyzer/types.go:248-254 | evidence without a colon in its first part is its own prefix, and that part may still hold a field |
| `EvidenceLaws.LargeType` | internal/analyzer/types.go:222-277 | `large-type:type=Store` in package `app` gets the subject `app.Store` and the identity `large-type;type=Store` |
| `Identity.DerivedUnqualified` | internal/analyzer/types.go:222-262 | an identity derived from evidence never contains a receiver or occurrence qualifier |
| `Identity.QualifiedUnique` | internal/analyzer/run.go:150-167 | a qualified identity has one reading: identity, receiver and occurrence are recovered |
| `Identity.KeyParts` | internal/analyzer/run.go:173-175 | keys agree exactly when check, path, subject and identity do |
| `Identity.DistinctIffNoTwins` | internal/analyzer/run.go:129-171 | after disambiguation all keys differ if and only if no two findings agreed on check, path, subject, identity, receiver and offset |
| `Identity.DistinctWithoutReceiver` | internal/analyzer/run.go:129-171 | where the portable path determines the file, all keys differ if and only if no two findings agreed on check, path, subject, identity and offset |
| `Identity.OrderIndependent` | internal/analyzer/run.go:124-171 | without such pairs every permutation of the report gives each finding the same identity, and a finding with a key of its own keeps it |
| `Identity.FinalText` | internal/analyzer/run.go:124-171 | what every identity reads after disambiguation: its own while its key is its own; otherwise with the receiver, and with `;occurrence=k` when k - 1 findings of the same key and receiver come before it, for k > 1; nothing else changes |
| `Identity.SourceOrder` | internal/analyzer/run.go:144-149 | of findings with one key and receiver, one at a later offset of the same file, or in a file later in byte order, has more before it |
| `Identity.PermutedReport` | internal/analyzer/run.go:124-171 | a permuted report is accepted exactly when the report is, and is then disambiguated to a permutation |
| `Identity.DisambiguateIdentities` | internal/analyzer/run.go:129-171 | rewrites the slice in place to the identities the other lemmas speak of |
| `Identity.FinalizeIssues` | internal/analyzer/types.go:201-220 | completes missing identities in place; accepts if and only if all findings are identified and all keys differ; a rejection names the first finding without identity or with an earlier key, and what lies behind it is untouched |
| `EvidenceLaws.KeptOrDerived` | internal/analyzer/types.go:204-208 | a finding with a subject and an identity is left alone; any other gets both from its evidence |
| `Identity.VerdictOnReports` | internal/analyzer/run.go:108-121 | from raw reports to the verdict: accepted if and only if no two findings are exact duplicates, and the final check then changes nothing |
| `FieldFlows.Source.LiveOneStep` | internal/analyzer/isp_consumer.go:496-529 | the meaning of "consumed" satisfies the recursive equation that the search unfolds |
| `FieldFlows.ConsumedMeans` | internal/analyzer/isp_consumer.go:496-529 | in terms of selectors alone: a field is consumed if and only if its values are copied from field to field, along some path, until a selector uses one other than by copying, a carrier escapes, or the path meets itself |
| `FieldFlows.DependencyFieldFlows.Index` | internal/analyzer/isp_consumer.go:461-488 | afterwards each field maps to its selectors in walk order |
| `FieldFlows.DependencyFieldFlows.Consumed` | internal/analyzer/isp_consumer.go:496-529 | on every graph and after any earlier queries the answer is exact: a flow path leads to a direct use or a cycle; every memo entry is exact although written while other fields were visited |
| `FieldFlows.DependencyFieldFlows.FollowFlows` | internal/analyzer/isp_consumer.go:518-525 | exact for every order in which the deferred destinations are ranged over |
| `FieldFlows.DependencyFieldFlows.Unused` | internal/analyzer/isp_consumer.go:389-401 | with one shared memo, reports exactly the dead candidates in order |
| `FieldFlows.DeadMembers` | internal/analyzer/isp_consumer.go:398-401 | a reported field reaches neither a direct use nor a cycle, and every such candidate is reported |
| `FieldFlows.DeadInOrder` | internal/analyzer/isp_consumer.go:496-529 | the unused fields come in the order of the candidates, each as often as it is a candidate |
| `SnapshotRebuild.TypeRebuildTargets` | internal/analyzer/workspace.go:487-514 | the least set that holds the changed packages and is closed under "imports a member", in load order; the growth ends |
| `SnapshotRebuild.TargetsMean` | internal/analyzer/workspace.go:485-514 | a package is a target if and only if a chain of resolved imports leads from it to a changed package |
| `SnapshotRebuild.InOrderKeepsOrder` | internal/analyzer/workspace.go:507-513 | any two targets stand in load order |
| `SnapshotRebuild.CoherentUnique` | internal/analyzer/workspace.go:538-594 | without import cycles there is only one coherent type graph over the targets |
| `SnapshotRebuild.GroundedIsCoherent` | internal/analyzer/workspace.go:538-594 | without import cycles the rebuilt graph is the coherent one, in whatever order targets were finished |
| `SnapshotRebuild.CycleMixes` | internal/analyzer/workspace.go:545-549 | around every import cycle of usable targets some package is checked against the loaded package of its import |
| `SnapshotRebuild.CycleUnreported` | internal/analyzer/workspace.go:545-592 | the mark set on a package met while being visited does not last: if its check finds nothing wrong it ends complete and without a reason |
| `SnapshotRebuild.SnapshotBuilder.Rebuild` | internal/analyzer/workspace.go:538-594 | ends on every import graph with the target dropped, finished or being visited; what was finished stays, each finished target being the check of its files against the new packages of imports finished earlier and the loaded ones of imports that lead back |
| `SnapshotRebuild.SnapshotBuilder.ResolveImports` | internal/analyzer/workspace.go:558-565 | target imports resolve to rebuilt packages, or to loaded ones if they are being visited, all others to loaded ones |
| `SnapshotRebuild.SnapshotBuilder.RebuildAll` | internal/analyzer/workspace.go:454-457 | rebuilding the targets in any order, cycles or not, grounds every target and touches nothing else |
| `SnapshotRebuild.CheckedOnce` | internal/analyzer/workspace.go:542-557 | each usable target is checked exactly once, each unusable one not at all |
| `SnapshotRebuild.NameFailure` | internal/analyzer/workspace.go:458-473 | a failure is reported exactly when some target lost completeness: the first changed package that did, and only if none did, the first target in load order |
| `SnapshotRebuild.RebuildExcludedTypeSnapshots` | internal/analyzer/workspace.go:440-483 | all or nothing: the rebuilt graph, coherent if there are no import cycles, or every target with its loaded info, package and completeness |
| `SnapshotRebuild.CarriesItsCheck` | internal/analyzer/workspace.go:575-592 | a usable target carries the info, the package and the first error of its check, and is complete if and only if the check reported no error and yielded a package |
| `SnapshotRebuild.GivenImport` | internal/analyzer/workspace.go:561-568 | what that check was given for an import: outside the targets what the loader found, inside the new package, and only for an import that leads back possibly the loaded one |
| `SnapshotRebuild.NamedFirst` | internal/analyzer/workspace.go:460-472 | the target named is the first changed one that was complete and whose check failed, or, when all changed ones checked clean, the first such target in load order |
| `SnapshotRebuild.OneReason` | internal/analyzer/workspace.go:474-482 | after a rollback exactly one target carries a reason and all loaded snapshots are back |
| `UnionFind.Forest.Find` | internal/analyzer/srp_profile.go:340-346 | recursive path compression ends, returns the root, and changes no element's root |
| `UnionFind.Forest.Union` | internal/analyzer/srp_profile.go:347-352 | adds exactly one link to the relation that the forest represents |
| `UnionFind.RootsAreComponents` | internal/analyzer/srp_profile.go:336-369 | two elements have the same root if and only if links connect them |
| `Components.CanonicalUnique` | internal/analyzer/srp_profile.go:365-374 | the canonical list of components is determined by the links alone, so map order is irrelevant |
| `Components.SortedComponents` | internal/analyzer/srp_profile.go:880-897 | grouping by root, dropping small groups and sorting yields the canonical list of components |
| `TypeCohesion.ComponentsOf` | internal/analyzer/srp_profile.go:331-374 | LCOM4 is the canonical partition of the methods under "share a field or call", though only a star of links per field is joined |
| `TypeCohesion.ComponentsMean` | internal/analyzer/srp_profile.go:331-374 | two methods are in one component if and only if a chain of methods leads from one to the other in which each uses a field of the next, calls it or is called by it |
| `TypeCohesion.ComponentsListed` | internal/analyzer/srp_profile.go:365-374 | each component ascends strictly, and so do the components by their first methods |
| `TypeCohesion.CollectSharedPairs` | internal/analyzer/srp_profile.go:375-390 | exactly the ordered pairs of methods that share a field, in any map order |
| `TypeCohesion.TccRange` | internal/analyzer/srp_profile.go:391-398 | the clamp never fires, and TCC is 100 exactly when every pair of methods shares a field |
| `TypeCohesion.TccMeans` | internal/analyzer/srp_profile.go:375-398 | the percentage times n(n-1) is 200 times the number of pairs of methods that use a common field |
| `TypeCohesion.DisconnectedBoundsTcc` | internal/analyzer/srp_profile.go:365-398 | with two or more components TCC is at most 100(n-2)/n |
| `TypeCohesion.SrpTypeProfile.ComputeCohesion` | internal/analyzer/srp_profile.go:331-399 | adds the canonical components to whatever the profile holds, and with two methods or more sets the percentage of pairs that share a field; without methods nothing happens |
| `TypeCohesion.ImportClusterComponents` | internal/analyzer/srp_profile.go:851-898 | the components, under overlapping imports, of the methods that import anything, with at least the minimum number of methods |
| `TypeCohesion.ClustersMean` | internal/analyzer/srp_profile.go:851-898 | two importing methods share a cluster if and only if a chain of methods with common imports leads from one to the other and at least the minimum number of importing methods are linked to them so |
| `TypeCohesion.ClustersDisjoint` | internal/analyzer/srp_profile.go:851-910 | methods of different clusters import nothing in common |
| `DispatchFamilies.UniqueSorted` | internal/analyzer/ocp_util.go:646-659 | the different non-empty values, each once, in order |
| `DispatchFamilies.Intersection` | internal/analyzer/ocp_util.go:633-645 | the different non-empty common values, in order |
| `DispatchFamilies.OverlapPercent` | internal/analyzer/ocp_util.go:549-556 | the truncated share of common variants among all variants |
| `DispatchFamilies.OverlapRange` | internal/analyzer/ocp_util.go:549-556 | symmetric, at most 100, and 100 exactly for equal non-empty variant sets |
| `DispatchFamilies.DispatchComponents` | internal/analyzer/ocp_util.go:506-547 | a partition of the sites into the components of the link test, each in position order |
| `DispatchFamilies.LinkMeans` | internal/analyzer/ocp_util.go:506-556 | sites are linked exactly when both are standalone type assertions, or their common variants are many enough and, without truncation, at least the given percentage of all their variants |
| `Components.FamiliesMean` | internal/analyzer/ocp_util.go:506-590 | two sites are in one family if and only if a chain of linked sites leads from one to the other; every site is listed once |
| `DispatchFamilies.DiscriminatorComponents` | internal/analyzer/ocp_util.go:558-590 | the same for discriminator sites that share enough values |
| `TypeWalk.Walk.WalkType` | internal/analyzer/srp_profile.go:581-587 | ends on self-referential declarations; all the type mentions is then seen and walked to the end |
| `TypeWalk.CollectExternalNamedTypes` | internal/analyzer/srp_profile.go:570-630 | adds exactly the foreign named types reachable through named, pointer, slice, array, map, channel and signature edges |
| `TypeWalk.ReachableMeans` | internal/analyzer/srp_profile.go:570-630 | a name is among those if and only if a path leads to its type, step by step into types and from named types to their declarations, and it is declared in another package |
| `LineIntervals.MergedLength` | internal/analyzer/srp_profile.go:416-430 | sorted intervals, merged while they overlap or touch, count each line once |
| `LineIntervals.ProfileTypeLines` | internal/analyzer/srp_profile.go:401-432 | exactly the number of distinct (file, line) pairs covered, for any intervals in any order over any files |
| `LineIntervals.CoveredMeans` | internal/analyzer/srp_profile.go:401-416 | a line of a file is covered if and only if a declaration that starts and ends in that file, on a positive line, spans it |
| `ParameterClumps.SignatureUnique` | internal/analyzer/srp.go:159-164 | two groups of parameters have the same signature exactly when they hold the same parameters |
| `ParameterClumps.SharedParameters` | internal/analyzer/srp.go:367-375 | the right-hand function's parameters that the left-hand one has too, in order |
| `ParameterClumps.QualifiesMeans` | internal/analyzer/srp.go:135-158 | two functions make a clump if and only if neither is reported and more than the limit of the later one's parameters, each as often as declared, are parameters of the earlier one |
| `ParameterClumps.SearchInts` | internal/analyzer/srp.go:151 | the first position whose value is at least the one sought |
| `ParameterClumps.ClumpTable.BuildRow` | internal/analyzer/srp.go:147-180 | one function against the candidates after it gives what it gives against all functions after it |
| `ParameterClumps.ClumpTable.BuildParameterClumps` | internal/analyzer/srp.go:135-182 | the scan over candidates yields the clump map of the plain scan over all pairs, members in the same order |
| `ParameterClumps.ClumpsOfPairs` | internal/analyzer/srp.go:135-182 | a clump for exactly the signatures of qualifying pairs; its members are exactly the functions in those pairs, each once and at least two |
| `ParameterClumps.ClumpParameters` | internal/analyzer/srp.go:159-169 | every pair of a clump shares the parameters the clump lists |
| `ParameterClumps.ClumpTable.PruneSubsumedClumps` | internal/analyzer/srp.go:184-196 | deleting while ranging, in any order, leaves exactly the clumps without a strictly larger superset |
| `ParameterClumps.CoversMeans` | internal/analyzer/srp.go:184-196 | a clump covers another exactly when it lists strictly more parameters, all of the other's among them |
| `ParameterClumps.DeletionsDoNotMatter` | internal/analyzer/srp.go:184-196 | whether a clump is covered is the same in the full map and in any map that still holds the maximal ones |
| `ParameterClumps.KeptRepresents` | internal/analyzer/srp.go:184-196 | every clump found is contained in one that stays |
| `ParameterClumps.PruneTwice` | internal/analyzer/srp.go:184-196 | pruning again changes nothing |
| `ParameterClumps.ParameterDataClumps` | internal/analyzer/srp.go:124-128 | the clumps reported are the maximal ones of the plain scan |
| `EditDistance.NoShorterScript` | internal/analyzer/control_yaml.go:371-398 | no script of insertions, deletions and substitutions is shorter than the distance |
| `EditDistance.ShortestScript` | internal/analyzer/control_yaml.go:371-398 | some script has exactly that length |
| `EditDistance.Metric` | internal/analyzer/control_yaml.go:371-398 | zero exactly for equal texts, symmetric, triangle inequality |
| `EditDistance.FillRow` | internal/analyzer/control_yaml.go:386-394 | one pass of the inner loop turns a row of distances into the next |
| `EditDistance.Compute` | internal/analyzer/control_yaml.go:371-398 | the two-row algorithm computes the distance |
| `EditDistance.NearestKnownField` | internal/analyzer/control_yaml.go:353-369 | the first name at the least normalised distance; nothing exactly when the input is blank or no name is within two edits |
| `GlobMatch.Match` | internal/analyzer/control.go:317-343 | backtracking ends and accepts exactly when the segments can be cut into one chunk per part, any run for `**` and one matching segment otherwise |
| `GlobMatch.DoublestarMatch` | internal/analyzer/control.go:309-355 | the trimmed texts are equal, or the pattern matches from some segment of the value to its end |
| `GlobMatch.Excluded` | internal/analyzer/control.go:261-276 | some non-blank pattern accepts the path by the shortcut or by the matcher |
| `GlobMatch.ShortcutMeans` | internal/analyzer/control.go:356-369 | whatever slashes surround the directory of the pattern, the shortcut accepts the directory, what lies below it, and whatever holds it between slashes |
| `GlobMatch.ShortcutSubsumed` | internal/analyzer/control.go:268-273 | for a directory without a slash at its end whose parts match their own text, `**` among them or not, the shortcut accepts nothing that the matcher rejects |
| `GlobMatch.ShortcutSubsumedIff` | internal/analyzer/control.go:261-276 | for every pattern, the shortcut accepts nothing that the matcher rejects if and only if it names no directory or the matcher accepts that directory |
| `GlobMatch.ShortcutWider` | internal/analyzer/control.go:268-273 | for a directory without `**` but with a slash at its end, only the shortcut accepts the directory itself |
| `GlobMatch.ShortcutExact` | internal/analyzer/control.go:268-273 | for a directory without `**`: subsumed for all paths if and only if its text does not end in a slash and each part matches its own text |
| `GlobMatch.BracketsVisible` | internal/analyzer/control.go:261-305 | the pattern `[x]/**`, which validation accepts, excludes the path `[x]` by the shortcut alone |
| `ExpiryDates.DateOrder` | internal/baseline/baseline.go:189 | comparing dates written YYYY-MM-DD as strings compares the days |
| `ExpiryDates.ParseIffFormat` | internal/baseline/baseline.go:145-149 | exactly the written forms of calendar dates parse, each to its date |
| `ExpiryDates.MonthsMakeTheYear` | internal/baseline/baseline.go:145-149 | the days of the months add up to the Gregorian year |
| `Baseline.FingerprintUnique` | internal/analyzer/types.go:194-197 | fingerprints agree exactly when check, fingerprint path, subject and identity do; with equal portable paths so do the keys |
| `Baseline.IdentifiedDistinct` | internal/analyzer/types.go:194-220 | a report that passes the final check has as many fingerprints as findings if and only if fingerprint paths tell its findings apart as portable paths do |
| `Baseline.ExternalClash` | internal/analyzer/paths.go:138-148 | two findings that pass the final check and share a fingerprint: one outside the root, one in a file named like the digest of the other's path |
| `Baseline.GoFilesPathsTold` | internal/analyzer/paths.go:18-148 | under the program's own path policy, findings without drive letters whose files inside the root are Go files are told apart |
| `Paths.ConfusedIff` | internal/analyzer/paths.go:18-148 | without drive letters, two files agree in the fingerprint path and differ in the portable one if and only if one is inside its root under the digest name of the other, outside one |
| `Paths.Located` | internal/analyzer/paths.go:18-72 | without drive letters: relative names and those below the root are relative to it, the root is a dot, all others keep their cleaned name and are outside |
| `Paths.LocatedOnDrive` | internal/analyzer/paths.go:118-136 | with drive letters the root is compared without regard to case and to the kind and number of its closing separators |
| `Paths.GoFilesTold` | internal/analyzer/paths.go:18-148 | that never happens to files inside the root whose names end in .go |
| `Paths.DrivesConfused` | internal/analyzer/paths.go:118-148 | two spellings of one external file with a drive letter agree in the fingerprint path only |
| `Baseline.ValidateDocument` | internal/baseline/baseline.go:127-152 | accepts exactly the valid, duplicate-free documents, and otherwise names the first entry that spoils them |
| `EntryLaws.ReasonMeans` | internal/baseline/baseline.go:153-163 | a reason is accepted if and only if, trimmed, it has twelve characters and is not a spelling of the only placeholder of that length |
| `EntryLaws.EntryMeans` | internal/baseline/baseline.go:127-152 | what makes an entry valid, on its texts: fingerprint, check, non-blank path and subject, reason, and an expiry that is empty or names a calendar day |
| `Baseline.Load` | internal/baseline/baseline.go:69-108 | version 5 documents must be valid, version 4 ones become well-formed entries without a reason, both sorted; other versions are refused |
| `EntryLaws.EntriesInByteOrder` | internal/baseline/baseline.go:352-354 | sorted documents are those whose fingerprints ascend byte by byte |
| `Baseline.ActiveThroughExpiry` | internal/baseline/baseline.go:176-195 | an entry is active through its expiry date and expired from the next day on |
| `Baseline.ReadAt` | internal/baseline/baseline.go:179-195 | the accepted set holds the fingerprints of the entries that have not expired; the expired list is the one of `EntryLaws.ExpiredInOrder` |
| `EntryLaws.ExpiredInOrder` | internal/baseline/baseline.go:179-195 | the expired entries are those with an expiry before the day, each as often as it is listed and in the order of the document |
| `Baseline.Diff` | internal/baseline/baseline.go:212-235 | live, stale and added are exactly the entries with a finding, those without, and the findings without an entry, each sorted |
| `EntryLaws.DiffMeans` | internal/baseline/baseline.go:212-235 | live entries are those of the document with a finding, stale ones those without, and new findings those without an entry |
| `Baseline.Update` | internal/baseline/baseline.go:237-275 | the exact condition for each outcome: collision, missing reason, success with the determined document |
| `EntryLaws.UpdatedInByteOrder` | internal/baseline/baseline.go:260-275 | a successful update writes version 5 with fingerprints strictly ascending byte by byte |
| `EntryLaws.LastFindingCounts` | internal/baseline/baseline.go:250-253 | of several findings with one fingerprint the last one describes the entry |
| `Baseline.Filter` | internal/baseline/baseline.go:313-321 | the front of the same slice holds exactly the findings that are not accepted, in order |
| `EntryLaws.MissingInOrder` | internal/baseline/baseline.go:313-321 | the findings kept come in the order of the report, each as often as it occurs |
| `Baseline.Stale` | internal/baseline/baseline.go:323-337 | the accepted fingerprints without a finding, each once and sorted |
| `BaselineLaws.EntriesExplained` | internal/baseline/baseline.go:251-265 | every updated entry is a refreshed live entry, the annotated entry of a new finding, or a stale entry kept |
| `BaselineLaws.AnnotationsSurvive` | internal/baseline/baseline.go:251-265 | a live entry keeps its reason, owner and expiry; a stale one is kept unchanged exactly without pruning |
| `BaselineLaws.UpdatedFingerprints` | internal/baseline/baseline.go:237-275 | a valid, sorted, duplicate-free document with exactly the current fingerprints, and without pruning the previous ones too |
| `BaselineLaws.UpdateTwice` | internal/baseline/baseline.go:237-279 | repeating the update with an empty annotation succeeds and changes nothing |
| `BaselineLaws.FilterAfterUpdate` | internal/baseline/baseline.go:179-195 | filtering by an updated document leaves exactly the findings whose entry has expired |
| `BaselineLaws.NothingLeft` | internal/baseline/baseline.go:212-275 | after an update nothing is new, and after pruning nothing is stale |
| `BaselineLaws.SucceedsIff` | internal/baseline/baseline.go:237-275 | on a valid document and any report an update succeeds exactly when there is no collision, new findings have different fingerprints, every finding that gets an entry is acceptable, and the annotation is or nothing is new |
| `BaselineLaws.SucceedsWhenTold` | internal/baseline/baseline.go:237-275 | where fingerprint paths tell findings apart as portable ones do: no collision, every finding acceptable, and the annotation is or nothing is new |
| `BaselineLaws.ClashRefused` | internal/baseline/baseline.go:260-272 | two findings with one fingerprint that has no entry yet are never entered together, on any document, in any report, whatever the annotation |
| `BaselineLaws.LegacySucceedsIff` | internal/baseline/baseline.go:237-275 | on a version 4 document and any report it succeeds exactly when, besides, the annotation is acceptable or there are no findings, no live fingerprint is listed twice, and no entry is stale or all are pruned |
| `BaselineLaws.LegacySucceedsWhenTold` | internal/baseline/baseline.go:237-275 | the same where fingerprint paths tell findings apart: every finding must be acceptable |
| `BaselineLaws.StaleLegacyRefused` | internal/baseline/baseline.go:262-270 | a version 4 document with one stale entry: no annotation makes the update succeed, pruning does |

## Left out

- Syntax trees, type queries, package loading, YAML, JSON and SARIF encoding, the command line, the plugin bridge and message texts: their results are inputs of the model.
- File system failures and timings: a failed write is an event that does not happen, a torn file decodes to nothing.
- The dependency digest, the policy digest and the tool version: single components of the hashed material and of the path, with the policy digest (truncated in the code) taken as free of collisions.
- `ResultCache.TransparentIffRootBlind`: assumes that what a runner reports depends on the hashed material and the analysis roots only, and shows a program runner its packages in path order.
- `CacheKey.ComputePackageHash`: the in-memory memo of package hashes is not modelled; sources do not change while a run lasts.
- Fixed-length digests: with collisions excluded the digest is modelled as a text of unspecified length, and the 64-digit pattern of fingerprints as a predicate that all digests satisfy.
- `EvidenceLaws.IdentityTells`: stated for evidence of the form `prefix:k1=v1;..;kn=vn` with trimmed parts; `EvidenceLaws.PaddedRead` and `EvidenceLaws.NoColon` say how other texts are read.
- `Text.TrimSpace`: ASCII white space only; lengths are in bytes.
- `Paths.ConfusedIff`: Unix separators; cleaning of names is a parameter that keeps rooted names rooted, and names with drive letters are compared without case for ASCII letters only.
- `Report.ReportOfEveryRun`: which findings the analysis mode and the suppressions leave is a predicate on findings; the order of the report is not described beyond being some order of its findings.
- `SnapshotRebuild.RebuildExcludedTypeSnapshots`: package paths are distinct and non-empty, and the package views are replaced as values; sharing of type objects between packages is not captured.
- `TypeCohesion.TccRange`: the percentage is a real number; rounding of floating point is not modelled.
- `DispatchFamilies.DispatchComponents`: the order of families whose first sites have the same file and line, and the order of discriminator families, are left open as in the code.
- `EditDistance.Compute`: the lengths fit Go's int; overflow is not modelled.
- `CachedPool.EveryCachedRun`: a look-up reads and a write replaces one entry in a single step, as the atomic renaming of files provides.
- The order of data-clump findings with equal lines, constructor alias inference, recursive helpers in contract checks, node-count banding, suppressions and check registries.
