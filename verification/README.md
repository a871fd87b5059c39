# Release, job and chart-repository core of the dashboard backend, in Dafny

This project models four small sequential parts of the dashboard backend. The
network calls, goroutines and file I/O around them are abstracted away.

- **Release list builders** (`release/releaselist.go`, `release/deploymentlist.go`).
  `CreateReleaseList` turns release names into release records.
  The channel reader drains the release, pod and event channels in that order.
  It stops at the first error, and it degrades a `NotFound` status error on
  the release kind to an empty list.
- **Job list builder** (`job/joblist_test.go`). The implementation is not part
  of this model, so the builder is a specification function that the test's
  cases satisfy. It drains the job, pod and event channels and applies the
  same error policy. For each job it reports:
  - current = the job's active count;
  - desired = its completions, or 0 when unset;
  - failed = the number of Failed pods it owns;
  - the warning events about pods it owns.
  A job owns a pod when the pod is in the job's namespace and its labels
  contain the job's selector.
- **Chart home layout** (`chart/chartcommon.go`). The fixed paths under `/.helm`
  are the repository directory, the cache and local directories, the
  per-repository cache index files, the repositories file, and the directory
  list the home set-up creates.
- **Chart repository registry** (`chart/chartrepo.go`). The repositories file is
  a map from repository name to URL, and the cache files are a map from path
  to contents. The registry operations are insert, remove, cache removal,
  add (download, then insert), listing the names, and listing a repository's
  charts.

Modules: `Common` (option, nil-or-slice, the `Generic | Status` error, metadata),
`Channels` (cluster objects, the per-kind `(list, error)` slot, the channel
bundle, the drain both builders share, and `FirstError`, which gives the first
error in drain order),
`Releases`, `ReleaseDrain`, `Jobs`, `JobScenarios`, `ChartHome`, `ChartRepo`.

Abstractions:
- A channel pair becomes one already-delivered `Slot(list, err)`.
- A channel that was never created becomes `None`. Reading such a channel
  blocks forever, so each builder requires exactly the channels it reads on
  the path it takes (`Channels.Drainable`).
- Go's nil slice and empty slice are kept apart (`Slice.Nil` versus
  `Elems([])`), because the views distinguish them.
- Downloads, file writes and file removals become parameters that give their
  outcome (`Download`, `IoFaults`).
- Facts the model takes from the code and the job test:
  - A job's current count is its active count (`joblist_test.go:95-97,145`).
    It is not a count of running pods.
  - A NotFound status on the builder's own kind is the only error that
    degrades to an empty list (`deploymentlist.go:72-80`,
    `joblist_test.go:73-81`).
  - No per-item degradation of a malformed selector appears in the code, and
    the model has none.
  - The release builder drains pods and events after its own kind
    (`deploymentlist.go:85-93`), and the job builder is modelled the same way.
    The job test fills the node and service channels too
    (`joblist_test.go:171-207`), but their contents cannot change its outcome.
- Both builders share one drain (`Channels.Drain`): their own kind's channel,
  then pods, then events, stopping at the first error.
- Paths are joined as `filepath.Join` joins them: the elements are glued with
  separators and the result is lexically cleaned. Empty and `.` components
  drop out, and `..` removes the component before it, never climbing above
  the root. Repository names are not checked, so a name holding `/` or `..`
  is resolved like any other path.
- Two declarations in `deploymentlist.go` do not compile: its own
  `CreateReleaseList`, and the unused `releases`, `pods` and `events`
  variables. The package also declares `ReleaseList` and
  `GetReleaseListFromChannels` twice. The two files are therefore separate
  modules. The success path of the draining builder uses the
  `CreateReleaseList` of `releaselist.go`.

## Model

| member | source | states |
|---|---|---|
| Channels.FirstError | src/app/backend/resource/release/deploymentlist.go:71-93 | the first error met when draining in order: none exactly when every slot is nil, otherwise a delivered error preceded only by nil ones |
| Channels.Drain | src/app/backend/resource/release/deploymentlist.go:71-93 | NotFound on the builder's own kind is set apart; any other error of its kind stops the drain with that error; after a good read of its kind a pod error stops it, then an event error; everything is read exactly when all three errors are nil, and then the drained pods and events are handed on |
| Channels.DrainStopsAtFirstError | src/app/backend/resource/release/deploymentlist.go:71-93 | apart from NotFound, the drain stops at the first non-nil error in read order and reads everything exactly when there is none |
| Releases.AppendReleases | src/app/backend/resource/release/releaselist.go:66-74 | one release per name, in input order, each named after its input, in namespace "default", with empty status and unset time |
| Releases.CreateReleaseList | src/app/backend/resource/release/releaselist.go:60-78 | total items equals the number of names; the releases are a non-nil slice of the same length holding, at each index, the record for that name; the metrics list is empty and non-nil |
| Releases.NamesOfCreated | src/app/backend/resource/release/releaselist.go:66-70 | reading the names back from the built list gives exactly the input (no name lost, duplicated or reordered) |
| Releases.GetReleaseListFromChannels | src/app/backend/resource/release/releaselist.go:52-56 | always a nil error and a one-element list holding the "happy-panda" release with total 1 and empty, non-nil cumulative metrics: the list built for that one name |
| Releases.ReaderIgnoresChannels | src/app/backend/resource/release/releaselist.go:52-56 | the reader's answer does not depend on the channels |
| ReleaseDrain.EmptyReleaseList | src/app/backend/resource/release/deploymentlist.go:77-79 | the degraded answer has an empty non-nil release slice, total 0 and nil metrics |
| ReleaseDrain.GetReleaseListFromChannels | src/app/backend/resource/release/deploymentlist.go:68-96 | a list and an error are never both present; NotFound on the release kind gives the empty list and no error; any other release error (generic, empty or other reason) is returned unchanged with no list; a pod error after a good release read is returned unchanged; after good release and pod reads the error is the event error, and a nil one gives the "happy-panda" list |
| ReleaseDrain.ErrorIsFirstDrained | src/app/backend/resource/release/deploymentlist.go:71-93 | apart from NotFound degradation, the returned error is the first error in the drain order release, pod, event |
| ReleaseDrain.PrimaryErrorShortCircuits | src/app/backend/resource/release/deploymentlist.go:71-83 | once the release kind reports an error, whether the pod and event channels exist and what they hold does not change the answer |
| ReleaseDrain.PodErrorBeforeEventError | src/app/backend/resource/release/deploymentlist.go:85-93 | after a good release read, a pod error decides the answer whatever the event channel holds |
| Jobs.OwnedCount | src/test/backend/resource/job/joblist_test.go:116-133 | the number of pods a job owns never exceeds the number of pods |
| Jobs.Owns | src/test/backend/resource/job/joblist_test.go:116-133 | a job owns a pod exactly when the pod is in the job's namespace and every selector pair is among the pod's labels |
| Jobs.FailedCount | src/test/backend/resource/job/joblist_test.go:116-133 | the failed count is at most the number of owned pods, and is zero exactly when no pod is both owned by the job and in phase Failed |
| Jobs.FailedCountAppend | src/test/backend/resource/job/joblist_test.go:116-133 | the failed count of concatenated pod lists is the sum of their failed counts |
| Jobs.FailedCountAddPod | src/test/backend/resource/job/joblist_test.go:116-133 | adding one pod raises the failed count by one exactly when the job owns it and it failed |
| Jobs.OtherNamespacesIgnored | src/test/backend/resource/job/joblist_test.go:116-133 | pods from other namespaces never change a job's failed count |
| Jobs.SelectorIsExact | src/test/backend/resource/job/joblist_test.go:126-131 | a pod whose value for a selector key differs (e.g. foo=baz against foo=bar) is never owned |
| Jobs.WarningsFor | src/test/backend/resource/job/joblist_test.go:148-148 | the warnings are exactly the Warning events, from the given events, about a pod the job owns; no more of them than events |
| Jobs.WarningsForAppend | src/test/backend/resource/job/joblist_test.go:148-148 | the warnings of concatenated event lists are the concatenated warnings, so event order and multiplicity are kept |
| Jobs.WarningsForOne | src/test/backend/resource/job/joblist_test.go:148-148 | a single event yields itself once when it is a Warning about an owned pod, and nothing otherwise |
| Jobs.Desired | src/test/backend/resource/job/joblist_test.go:91-107 | desired is the completions when set and 0 when absent |
| Jobs.ToJob | src/test/backend/resource/job/joblist_test.go:136-164 | a job's view keeps its metadata, has kind job, current = active, desired = completions or 0, a failed count at most the owned pods and zero exactly when no owned pod failed, and a non-nil warning list holding exactly the warnings about owned pods; the failed count is FailedCount's exact number and the warnings are WarningsFor's list in event order (`ViewOf`) |
| Jobs.ToJobs | src/test/backend/resource/job/joblist_test.go:134-164 | one view per job, in order, each with the job's metadata, kind job, current = active, desired, failed count and warnings |
| Jobs.CreateJobList | src/test/backend/resource/job/joblist_test.go:134-165 | total items equals the number of jobs; the jobs are a non-nil slice of the same length whose i-th entry is the view of the i-th job |
| Jobs.EmptyJobList | src/test/backend/resource/job/joblist_test.go:77-79 | the degraded answer has an empty non-nil job slice and total 0 |
| Jobs.GetJobListFromChannels | src/test/backend/resource/job/joblist_test.go:38-81 | a list and an error are never both present; NotFound on the job kind degrades to the empty list; any other job error or a later pod error is returned unchanged with no list; after good job and pod reads the error is the event error, and a nil one gives every job its correlated view with the job count as total |
| Jobs.JobErrorIsFirstDrained | src/test/backend/resource/job/joblist_test.go:38-81 | apart from NotFound degradation, the returned error is the first error in the drain order job, pod, event |
| Jobs.CurrentIgnoresPods | src/test/backend/resource/job/joblist_test.go:95-97 | the current and desired counts of a job do not depend on the pods or events seen |
| Jobs.NoEventsNoWarnings | src/test/backend/resource/job/joblist_test.go:206-206 | with no events every job's warnings are an empty, non-nil list |
| JobScenarios.TestChannels | src/test/backend/resource/job/joblist_test.go:171-207 | the test's channel set-up is drainable: every channel the job builder may read was created |
| JobScenarios.EmptyJobsNoError | src/test/backend/resource/job/joblist_test.go:38-44 | no jobs and no error give an empty job list with total 0 and no error |
| JobScenarios.GenericErrorVerbatim | src/test/backend/resource/job/joblist_test.go:45-51 | a generic error is returned verbatim with no list |
| JobScenarios.EmptyStatusVerbatim | src/test/backend/resource/job/joblist_test.go:52-65 | a status error without a reason is returned verbatim with no list |
| JobScenarios.ForeignReasonVerbatim | src/test/backend/resource/job/joblist_test.go:66-72 | a status error with reason "foo-bar" is returned verbatim with no list |
| JobScenarios.NotFoundDegrades | src/test/backend/resource/job/joblist_test.go:73-81 | a NotFound status error gives an empty job list and no error |
| JobScenarios.TwoJobsCorrelated | src/test/backend/resource/job/joblist_test.go:82-167 | the two-job case yields total 2, both jobs with current 7 and failed 1 (only the foo=bar pod counted), desired 21 and 0, and empty warnings |
| ChartHome.HomePath | src/app/backend/resource/chart/chartcommon.go:19-21 | the home path is absolute and has no trailing separator |
| ChartHome.Join | src/app/backend/resource/chart/chartcommon.go:27-30 | joining onto a rooted path gives a rooted path |
| ChartHome.JoinResolves | src/app/backend/resource/chart/chartcommon.go:27-30 | below a path of clean components, the joined path is the resolution of the parts' components onto the base's: empty and `.` dropped, `..` removing the previous one, never above the root |
| ChartHome.JoinBelow | src/app/backend/resource/chart/chartcommon.go:27-30 | below a path of clean components, joining parts that are empty or clean components is plain concatenation with separators |
| ChartHome.JoinCleanParts | src/app/backend/resource/chart/chartcommon.go:27-30 | below the repository directory, joining clean parts is plain concatenation |
| ChartHome.RepositoryDirectory | src/app/backend/resource/chart/chartcommon.go:23-25 | the repository directory is the home path followed by "/repository" (plain concatenation, no cleaning) |
| ChartHome.RepositoryDirectoryValue | src/app/backend/resource/chart/chartcommon.go:19-25 | the repository directory is "/.helm/repository" |
| ChartHome.CacheDirectory | src/app/backend/resource/chart/chartcommon.go:27-30 | every cache path is rooted; with parts that are empty or clean components it is "/.helm/repository/cache" followed by the non-empty parts |
| ChartHome.CacheDirectoryResolves | src/app/backend/resource/chart/chartcommon.go:27-30 | a path named below the cache directory is the resolution of its components onto the cache directory's |
| ChartHome.LocalRepoDirectory | src/app/backend/resource/chart/chartcommon.go:36-39 | every local repository path is rooted; with parts that are empty or clean components it is "/.helm/repository/local" followed by the non-empty parts |
| ChartHome.CacheIndexFile | src/app/backend/resource/chart/chartcommon.go:32-34 | every index file path is rooted and ends in "-index.yaml"; for a name without separators it is "/.helm/repository/cache/" + name + "-index.yaml" |
| ChartHome.CacheIndexFileResolves | src/app/backend/resource/chart/chartcommon.go:32-34 | the index file of any name is the cache directory's components with the name's resolved onto them, and its last component is the name's last component followed by "-index.yaml" |
| ChartHome.CacheIndexFileSeparatorFree | src/app/backend/resource/chart/chartcommon.go:32-34 | for a name without separators the index file lies directly in the cache directory |
| ChartHome.CacheIndexFileSuffix | src/app/backend/resource/chart/chartcommon.go:32-34 | whatever the name, the index file path ends in "-index.yaml" |
| ChartHome.RepositoriesFile | src/app/backend/resource/chart/chartcommon.go:41-43 | the repositories file is "/.helm/repository/repositories.yaml" |
| ChartHome.ConfigDirectories | src/app/backend/resource/chart/chartcommon.go:56-56 | the directories set up are home, repository, cache and local, in that order, all under the home path |
| ChartHome.CacheIndexFileInjective | src/app/backend/resource/chart/chartcommon.go:32-34 | for separator-free names, equal cache index paths mean equal repository names |
| ChartHome.CacheIndexFileClimbsOut | src/app/backend/resource/chart/chartcommon.go:27-34 | a name "../x" puts the index file beside the cache directory, at "/.helm/repository/x-index.yaml" |
| ChartHome.CacheIndexFileEscapesHome | src/app/backend/resource/chart/chartcommon.go:27-34 | a name "../../../x" climbs out of all three directories and puts the index file at the root, "/x-index.yaml", outside the chart home |
| ChartHome.CacheIndexFileCollides | src/app/backend/resource/chart/chartcommon.go:27-34 | the names "a/../b" and "b" share one index file |
| ChartHome.CacheAndLocalAreSiblings | src/app/backend/resource/chart/chartcommon.go:27-39 | the cache and local directories are distinct clean children of the repository directory |
| ChartHome.RepositoriesFileIsNoCacheFile | src/app/backend/resource/chart/chartcommon.go:32-43 | no repository's cache index file is the repositories file |
| ChartRepo.InsertRepoLine | src/app/backend/resource/chart/chartrepo.go:146-164 | a load error or an existing name is reported with nothing changed; a write error is returned as it is, with nothing changed; otherwise the registry (a nil one read as empty) gains exactly name -> url and keeps every other entry; cache files are untouched |
| ChartRepo.RemoveRepoCache | src/app/backend/resource/chart/chartrepo.go:136-144 | a missing cache file is no error and changes nothing; a successful call leaves no cache file for the name; a failing removal of an existing file returns that error and changes nothing; it succeeds exactly when there is no file or the removal works; the registry and every other file are untouched |
| ChartRepo.RemoveRepoCacheIdempotent | src/app/backend/resource/chart/chartrepo.go:136-144 | clearing a repository's cache twice is the same as clearing it once, whether or not the removal fails |
| ChartRepo.RemoveRepoLine | src/app/backend/resource/chart/chartrepo.go:109-134 | a load error or an absent name ("does not exist") is reported with nothing changed; a write error is reported with nothing changed; otherwise exactly that key is deleted and then the cache cleared, and a failing removal is reported with the registry already written and the files unchanged; success exactly when the name was present and no write or needed removal failed; no file other than the name's index file is ever touched, and none is on error |
| ChartRepo.AddRepo | src/app/backend/resource/chart/chartrepo.go:101-107 | a failed download changes nothing and reports an error starting with "Looks like " + url; a successful one writes the cache index even when the insert then fails, and returns the insert's error as it is; any error leaves the registry as it was; success gives the registry exactly one more key, name -> url, with every other entry kept |
| ChartRepo.InsertThenRemoveRestores | src/app/backend/resource/chart/chartrepo.go:109-164 | inserting an absent name and removing it restores the registry, and leaves only the name's cache file gone |
| ChartRepo.AddThenRemoveRestores | src/app/backend/resource/chart/chartrepo.go:101-134 | adding a new repository and removing it restores both the registry and the cache files |
| ChartRepo.RemovalThroughSharedCache | src/app/backend/resource/chart/chartrepo.go:109-144 | removing the repository "a/../b" also deletes the cached index of a still registered "b" |
| ChartRepo.ToSpec | src/app/backend/resource/chart/chartrepo.go:77-87 | a chart's view copies the name, version and description of its chart file and the entry's URL; its icon is the chart file's when non-empty and the default helm logo otherwise |
| ChartRepo.Charts | src/app/backend/resource/chart/chartrepo.go:73-89 | at most one chart per entry, exactly one each when every entry has a chart file, none when none has; every chart has a non-empty icon |
| ChartRepo.InsertIgnoresFiles | src/app/backend/resource/chart/chartrepo.go:146-164 | recording a name gives the same error and the same registry whatever the cache files are |
| ChartRepo.ChartsExact | src/app/backend/resource/chart/chartrepo.go:73-89 | a chart is listed exactly when it is the view of an entry with a chart file |
| ChartRepo.ChartsAppend | src/app/backend/resource/chart/chartrepo.go:73-89 | listing concatenated entries concatenates the listings, so entry order is kept |
| ChartRepo.GetRepositoryCharts | src/app/backend/resource/chart/chartrepo.go:65-91 | a missing or unreadable cache index gives an empty list together with the error; otherwise no error and the charts of the index |
| ChartRepo.AddThenBrowse | src/app/backend/resource/chart/chartrepo.go:65-107 | after a successful add, listing the repository's charts gives the charts of the downloaded index |
| ChartRepo.GetRepositoryList | src/app/backend/resource/chart/chartrepo.go:49-62 | a load error gives an empty list and that error; otherwise no error and the names are exactly the registry's keys, each once, in no fixed order |

## Left out

- Channel creation, the goroutines that fill the channels, and buffered broadcast to several readers. These are concurrency. Each kind is one delivered `(list, error)` pair.
- File and YAML I/O: loading and writing the repositories file, loading index files, `os.Stat`/`os.Remove`, downloading indexes, and `index`. These are library calls. They are abstracted as map state plus an outcome parameter. The on-disk format of the repositories file is not modelled.
- ChartRepo.InsertRepoLine: treats marshalling a string map as infallible. A failed write is modelled as leaving the old file, without partial writes.
- ChartRepo.RemoveRepoLine: the same write model as InsertRepoLine.
- ChartRepo.RemoveRepoCache: a failing `os.Stat` is read as "no such file". Stat errors for other reasons are not modelled.
- ChartRepo.GetRepositoryList: the `ensureHome` call at its start (chartrepo.go:50) is left out, and its error is discarded there. On a home without a repositories file, `ensureHome` creates that file holding the stable repository and then adds the custom repository through `addRepo` (chartcommon.go:69-89). The source then lists those names, where the model returns the load error.
- ChartRepo.Charts: index entries come in the order the map iteration visits them, and that order is not fixed.
- `ensureHome`'s directory creation, bootstrapping of the stable and custom repositories, and format upgrade (`chartcommon.go:57-101`). These are filesystem and network effects. Only the directory list is modelled.
- ChartHome.Join: modelled only for a rooted first element, the only kind the package passes. Joining relative paths is not modelled.
- ChartHome.CacheIndexFileInjective: stated only for names without separators, because other names collide (`CacheIndexFileCollides`).
- `AddRepository`, a one-line pass-through to `addRepo`, is not modelled.
- `chart/chartdeploy.go` is not modelled. It is a wrapper over the release installer client.
- `release/deploymentdetail.go` and the `CreateReleaseList` of `deploymentlist.go` are not modelled. Neither compiles.
- The heapster client and the data-select query are not modelled. The builders pass them through, and `NoDataSelect` is the identity.
- `time.Time` is an opaque `Time` value.
- Jobs.GetJobListFromChannels: uses only the selector's match labels. A nil selector and match expressions are not modelled.
- Jobs.GetJobListFromChannels: the pod summary has only the current, desired, failed and warnings fields. The other counters are not modelled.
- Jobs.WarningsFor: the job implementation is not part of this model. The warnings are the Warning events whose involved object is a pod the job owns, in the pod's namespace. The test fixes only the no-event case (`joblist_test.go:148`).
- Status errors carry only their reason. Their message text is not modelled.
- The frontend JavaScript is not modelled. It is UI state and routing.
