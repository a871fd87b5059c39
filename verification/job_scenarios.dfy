/** The table-driven cases of the job list test, one lemma each. Every case
    fills the job channel with its jobs and error, the pod channel with its
    pods, and the node, service and event channels with empty lists and nil
    errors; the release channel is never created. */
module JobScenarios {
  import opened Common
  import opened Channels
  import opened Jobs

  function TestChannels(jobs: seq<BatchJob>, jobErr: Option<Error>, pods: seq<Pod>): (ch: ResourceChannels)
    ensures Drainable(ch.jobList, ch)
  {
    ResourceChannels(
      None,
      Some(Slot(jobs, jobErr)),
      Some(Slot([], None)),
      Some(Slot([], None)),
      Some(Slot(pods, None)),
      Some(Slot([], None)))
  }

  /** No jobs, no error: an empty, non-nil job list with zero total. */
  lemma EmptyJobsNoError()
    ensures GetJobListFromChannels(TestChannels([], None, [])) == Reply(Some(JobList(ListMeta(0), Elems([]))), None)
  {
  }

  /** A generic error is returned verbatim with no list. */
  lemma GenericErrorVerbatim()
    ensures GetJobListFromChannels(TestChannels([], Some(Generic("MyCustomError")), []))
            == Reply(None, Some(Generic("MyCustomError")))
  {
  }

  /** A status error with an empty reason is returned verbatim. */
  lemma EmptyStatusVerbatim()
    ensures GetJobListFromChannels(TestChannels([], Some(Status("")), [])) == Reply(None, Some(Status("")))
  {
  }

  /** A status error with a reason other than NotFound is returned verbatim. */
  lemma ForeignReasonVerbatim()
    ensures GetJobListFromChannels(TestChannels([], Some(Status("foo-bar")), []))
            == Reply(None, Some(Status("foo-bar")))
  {
  }

  /** A NotFound status error degrades to an empty job list and no error. */
  lemma NotFoundDegrades()
    ensures GetJobListFromChannels(TestChannels([], Some(Status("NotFound")), []))
            == Reply(Some(JobList(ListMeta(0), Elems([]))), None)
  {
  }

  const TestMeta: ObjectMeta := ObjectMeta("rs-name", "rs-namespace", map["key" := "value"], Unix(111, 222))

  const WithCompletions: BatchJob := BatchJob(TestMeta, map["foo" := "bar"], Some(21), 7)

  const WithoutCompletions: BatchJob := BatchJob(TestMeta, map["foo" := "bar"], None, 7)

  const MatchingFailedPod: Pod := Pod(ObjectMeta("", "rs-namespace", map["foo" := "bar"], ZeroTime), Failed)

  const ForeignFailedPod: Pod := Pod(ObjectMeta("", "rs-namespace", map["foo" := "baz"], ZeroTime), Failed)

  /** Two jobs sharing the selector {foo: bar}, one with 21 completions and
      one without, both with 7 active; two failed pods in their namespace, of
      which only the one labelled {foo: bar} is theirs. Each job reports
      current 7, failed 1, no warnings, and desired 21 or 0. */
  lemma TwoJobsCorrelated()
    ensures GetJobListFromChannels(TestChannels([WithCompletions, WithoutCompletions], None,
                                                [MatchingFailedPod, ForeignFailedPod]))
            == Reply(Some(JobList(ListMeta(2), Elems([
                 Job(TestMeta, TypeMeta(KindJob), PodInfo(7, 21, 1, Elems([]))),
                 Job(TestMeta, TypeMeta(KindJob), PodInfo(7, 0, 1, Elems([])))]))), None)
  {
    var pods := [MatchingFailedPod, ForeignFailedPod];
    assert FailedOwned(WithCompletions, MatchingFailedPod);
    SelectorIsExact(WithCompletions, ForeignFailedPod, "foo");
    SelectorIsExact(WithoutCompletions, ForeignFailedPod, "foo");
    assert pods[1..] == [ForeignFailedPod];
    assert FailedCount(WithCompletions, pods) == 1;
    assert FailedCount(WithoutCompletions, pods) == 1;
    var l := CreateJobList([WithCompletions, WithoutCompletions], pods, []);
    assert l.jobs.items[0] == Job(TestMeta, TypeMeta(KindJob), PodInfo(7, 21, 1, Elems([])));
    assert l.jobs.items[1] == Job(TestMeta, TypeMeta(KindJob), PodInfo(7, 0, 1, Elems([])));
    assert l.jobs.items == [Job(TestMeta, TypeMeta(KindJob), PodInfo(7, 21, 1, Elems([]))),
                            Job(TestMeta, TypeMeta(KindJob), PodInfo(7, 0, 1, Elems([])))];
  }
}
