/** The job list builder, stated as the specification its tests pin down:
    drain the job, pod and event channels in order, degrade a NotFound on the
    job kind to an empty list, and otherwise correlate every job with the
    pods its selector owns. */
module Jobs {
  import opened Common
  import opened Channels

  /** The kind every job view carries. */
  const KindJob: string := "job"

  datatype TypeMeta = TypeMeta(kind: string)

  /** Per-job pod summary: active count, target count, failed owned pods and
      the warnings about owned pods. */
  datatype PodInfo = PodInfo(current: int, desired: int, failed: int, warnings: Slice<Event>)

  datatype Job = Job(meta: ObjectMeta, typeMeta: TypeMeta, pods: PodInfo)

  datatype JobList = JobList(listMeta: ListMeta, jobs: Slice<Job>)

  /** Exact subset match: every key of the selector is present in the labels
      with the same value. */
  predicate MatchesSelector(labels: Labels, selector: Labels) {
    forall k :: k in selector ==> k in labels && labels[k] == selector[k]
  }

  /** A pod belongs to a job when it lives in the job's namespace and its
      labels match the job's selector. */
  function Owns(job: BatchJob, pod: Pod): (b: bool)
    ensures b <==> pod.meta.namespace == job.meta.namespace && job.selector.Items <= pod.meta.labels.Items
  {
    assert MatchesSelector(pod.meta.labels, job.selector) <==> job.selector.Items <= pod.meta.labels.Items by {
      if job.selector.Items <= pod.meta.labels.Items {
        forall k | k in job.selector
          ensures k in pod.meta.labels && pod.meta.labels[k] == job.selector[k]
        {
          assert (k, job.selector[k]) in job.selector.Items;
        }
      }
    }
    pod.meta.namespace == job.meta.namespace && MatchesSelector(pod.meta.labels, job.selector)
  }

  predicate FailedOwned(job: BatchJob, pod: Pod) {
    Owns(job, pod) && pod.phase == Failed
  }

  /** The number of pods the job owns. */
  function OwnedCount(job: BatchJob, pods: seq<Pod>): (n: nat)
    ensures n <= |pods|
    decreases |pods|
  {
    if pods == [] then 0
    else (if Owns(job, pods[0]) then 1 else 0) + OwnedCount(job, pods[1..])
  }

  /** The number of failed pods the job owns; zero exactly when no pod is
      both owned and failed. */
  function FailedCount(job: BatchJob, pods: seq<Pod>): (n: nat)
    ensures n <= OwnedCount(job, pods)
    ensures n == 0 <==> forall i :: 0 <= i < |pods| ==> !FailedOwned(job, pods[i])
    decreases |pods|
  {
    if pods == [] then 0
    else
      var rest := FailedCount(job, pods[1..]);
      assert forall i :: 1 <= i < |pods| ==> pods[i] == pods[1..][i - 1];
      (if FailedOwned(job, pods[0]) then 1 else 0) + rest
  }

  /** Counting distributes over concatenation of pod lists. */
  lemma {:induction false} FailedCountAppend(job: BatchJob, a: seq<Pod>, b: seq<Pod>)
    ensures FailedCount(job, a + b) == FailedCount(job, a) + FailedCount(job, b)
    decreases |a|
  {
    if a != [] {
      assert (a + b)[1..] == a[1..] + b;
      FailedCountAppend(job, a[1..], b);
    } else {
      assert a + b == b;
    }
  }

  /** Adding a pod the job does not own, or one that has not failed, leaves
      the failed count alone; adding an owned failed pod raises it by one. */
  lemma FailedCountAddPod(job: BatchJob, pods: seq<Pod>, p: Pod)
    ensures FailedCount(job, pods + [p]) == FailedCount(job, pods) + (if FailedOwned(job, p) then 1 else 0)
  {
    FailedCountAppend(job, pods, [p]);
    assert [p][1..] == [];
  }

  /** A warning event about a pod the job owns. */
  predicate WarnsAbout(job: BatchJob, pods: seq<Pod>, e: Event) {
    && e.eventType == Warning
    && exists p :: p in pods && Owns(job, p) && p.meta.name == e.involvedName && p.meta.namespace == e.namespace
  }

  /** The warning events about owned pods, in event order. */
  function WarningsFor(job: BatchJob, pods: seq<Pod>, events: seq<Event>): (w: seq<Event>)
    ensures |w| <= |events|
    ensures forall e :: e in w <==> e in events && WarnsAbout(job, pods, e)
    decreases |events|
  {
    if events == [] then []
    else
      var rest := WarningsFor(job, pods, events[1..]);
      assert forall e :: e in events <==> e == events[0] || e in events[1..];
      if WarnsAbout(job, pods, events[0]) then [events[0]] + rest else rest
  }

  /** Warnings of concatenated event lists are the concatenated warnings:
      order and multiplicity are those of the events. */
  lemma {:induction false} WarningsForAppend(job: BatchJob, pods: seq<Pod>, a: seq<Event>, b: seq<Event>)
    ensures WarningsFor(job, pods, a + b) == WarningsFor(job, pods, a) + WarningsFor(job, pods, b)
    decreases |a|
  {
    if a == [] {
      assert a + b == b;
    } else {
      assert (a + b)[0] == a[0];
      assert (a + b)[1..] == a[1..] + b;
      WarningsForAppend(job, pods, a[1..], b);
    }
  }

  /** A single event is kept, once, exactly when it warns about an owned
      pod. */
  lemma WarningsForOne(job: BatchJob, pods: seq<Pod>, e: Event)
    ensures WarningsFor(job, pods, [e]) == if WarnsAbout(job, pods, e) then [e] else []
  {
    assert [e][1..] == [];
  }

  /** The target count: the job's completions when set, zero otherwise. */
  function Desired(job: BatchJob): (d: int)
    ensures job.completions.None? ==> d == 0
    ensures job.completions.Some? ==> d == job.completions.value
  {
    match job.completions
    case Some(c) => c
    case None => 0
  }

  /** The view of one job: its metadata, the job kind, the active count as
      the current count, the target count, the failed owned pods and the
      warnings about owned pods, always a non-nil list. */
  function ToJob(job: BatchJob, pods: seq<Pod>, events: seq<Event>): (v: Job)
    ensures v.meta == job.meta && v.typeMeta.kind == KindJob
    ensures v.pods.current == job.active && v.pods.desired == Desired(job)
    ensures v.pods.failed <= OwnedCount(job, pods)
    ensures v.pods.failed == 0 <==> forall i :: 0 <= i < |pods| ==> !FailedOwned(job, pods[i])
    ensures v.pods.warnings.Elems?
    ensures forall e :: e in v.pods.warnings.items <==> e in events && WarnsAbout(job, pods, e)
    ensures ViewOf(v, job, pods, events)
  {
    Job(job.meta, TypeMeta(KindJob),
        PodInfo(job.active, Desired(job), FailedCount(job, pods), Elems(WarningsFor(job, pods, events))))
  }

  /** True when `v` is the view the builder gives `job`. */
  predicate ViewOf(v: Job, job: BatchJob, pods: seq<Pod>, events: seq<Event>) {
    && v.meta == job.meta
    && v.typeMeta.kind == KindJob
    && v.pods.current == job.active
    && v.pods.desired == Desired(job)
    && v.pods.failed == FailedCount(job, pods)
    && v.pods.warnings == Elems(WarningsFor(job, pods, events))
  }

  /** One view per job, appended in job order. */
  function ToJobs(jobs: seq<BatchJob>, pods: seq<Pod>, events: seq<Event>): (vs: seq<Job>)
    ensures |vs| == |jobs|
    ensures forall i :: 0 <= i < |jobs| ==> ViewOf(vs[i], jobs[i], pods, events)
    decreases |jobs|
  {
    if jobs == [] then []
    else ToJobs(jobs[..|jobs| - 1], pods, events) + [ToJob(jobs[|jobs| - 1], pods, events)]
  }

  /** The job list: the total is the number of jobs and every job gets its
      view, in order, in a non-nil slice. */
  function CreateJobList(jobs: seq<BatchJob>, pods: seq<Pod>, events: seq<Event>): (l: JobList)
    ensures l.listMeta.totalItems == |jobs|
    ensures l.jobs.Elems? && |l.jobs.items| == |jobs|
    ensures forall i :: 0 <= i < |jobs| ==> ViewOf(l.jobs.items[i], jobs[i], pods, events)
  {
    JobList(ListMeta(|jobs|), Elems(ToJobs(jobs, pods, events)))
  }

  /** The list answered when the server does not know the job kind. */
  function EmptyJobList(): (l: JobList)
    ensures l.jobs == Elems([]) && l.listMeta.totalItems == 0
  {
    JobList(ListMeta(0), Elems([]))
  }

  /** The builder. A list and an error are never both present; NotFound on
      the job kind yields the empty list; any other error in drain order is
      returned unchanged; otherwise every job is correlated with the drained
      pods and events. */
  function GetJobListFromChannels(ch: ResourceChannels): (r: Reply<JobList>)
    requires Drainable(ch.jobList, ch)
    ensures r.value.Some? <==> r.err.None?
    ensures ch.jobList.value.err.Some? && IsNotFound(ch.jobList.value.err.value) ==>
              r == Reply(Some(EmptyJobList()), None)
    ensures ch.jobList.value.err.Some? && !IsNotFound(ch.jobList.value.err.value) ==>
              r == Reply(None, ch.jobList.value.err)
    ensures ch.jobList.value.err.None? && ch.podList.value.err.Some? ==>
              r == Reply(None, ch.podList.value.err)
    ensures ch.jobList.value.err.None? && ch.podList.value.err.None? ==>
              r.err == ch.eventList.value.err
    ensures r.value.Some? && ch.jobList.value.err.None? ==>
              r.value.value.listMeta.totalItems == |ch.jobList.value.list| &&
              r.value.value.jobs.Elems? &&
              |r.value.value.jobs.items| == |ch.jobList.value.list| &&
              forall i :: 0 <= i < |ch.jobList.value.list| ==>
                ViewOf(r.value.value.jobs.items[i], ch.jobList.value.list[i], ch.podList.value.list, ch.eventList.value.list)
  {
    match Drain(ch.jobList, ch)
    case KindNotFound => Reply(Some(EmptyJobList()), None)
    case StoppedAt(e) => Reply(None, Some(e))
    case AllRead(pods, events) => Reply(Some(CreateJobList(ch.jobList.value.list, pods, events)), None)
  }

  /** Apart from the NotFound degradation, the builder's error is the first
      error in drain order, and it builds a list exactly when there is none. */
  lemma JobErrorIsFirstDrained(ch: ResourceChannels)
    requires Drainable(ch.jobList, ch)
    requires !(ch.jobList.value.err.Some? && IsNotFound(ch.jobList.value.err.value))
    ensures GetJobListFromChannels(ch).err == FirstError(DrainedErrors(ch.jobList, ch))
  {
    DrainStopsAtFirstError(ch.jobList, ch);
  }

  /** Correlation is deterministic and the active count does not depend on
      the pods: two builds over the same jobs agree on every current and
      desired count whatever pods they see. */
  lemma CurrentIgnoresPods(jobs: seq<BatchJob>, p1: seq<Pod>, p2: seq<Pod>, e1: seq<Event>, e2: seq<Event>, i: int)
    requires 0 <= i < |jobs|
    ensures CreateJobList(jobs, p1, e1).jobs.items[i].pods.current == CreateJobList(jobs, p2, e2).jobs.items[i].pods.current
    ensures CreateJobList(jobs, p1, e1).jobs.items[i].pods.desired == CreateJobList(jobs, p2, e2).jobs.items[i].pods.desired
  {
  }

  /** Selector matching is exact: a pod whose value for a selector key
      differs is never owned, whatever its namespace. */
  lemma SelectorIsExact(job: BatchJob, pod: Pod, k: string)
    requires k in job.selector && k in pod.meta.labels && pod.meta.labels[k] != job.selector[k]
    ensures !Owns(job, pod)
  {
  }

  /** Only same-namespace pods count: pods elsewhere can be added freely. */
  lemma {:induction false} OtherNamespacesIgnored(job: BatchJob, pods: seq<Pod>, others: seq<Pod>)
    requires forall i :: 0 <= i < |others| ==> others[i].meta.namespace != job.meta.namespace
    ensures FailedCount(job, pods + others) == FailedCount(job, pods)
  {
    FailedCountAppend(job, pods, others);
    assert FailedCount(job, others) == 0;
  }

  /** With no events, every job's warnings are an empty, non-nil list. */
  lemma NoEventsNoWarnings(jobs: seq<BatchJob>, pods: seq<Pod>, i: int)
    requires 0 <= i < |jobs|
    ensures CreateJobList(jobs, pods, []).jobs.items[i].pods.warnings == Elems([])
  {
  }
}
