/** The channel-draining release builder of `deploymentlist.go`: it reads
    the release, pod and event channels in that order, stops at the first
    error, and degrades a NotFound on the release kind to an empty list. */
module ReleaseDrain {
  import opened Common
  import opened Channels
  import Releases

  /** The list answered when the server does not know the release kind:
      an empty, non-nil release list, zero total and nil metrics. */
  function EmptyReleaseList(): (l: Releases.ReleaseList)
    ensures l.releases == Elems([]) && l.listMeta.totalItems == 0
    ensures l.cumulativeMetrics.Nil?
  {
    Releases.ReleaseList(ListMeta(0), Elems([]), Nil)
  }

  /** The builder. A result and an error are never both present; a NotFound
      on the release kind yields the empty list; any other error met in drain
      order is returned unchanged with no list; otherwise the list holds the
      placeholder release. */
  function GetReleaseListFromChannels(ch: ResourceChannels): (r: Reply<Releases.ReleaseList>)
    requires Drainable(ch.releaseList, ch)
    ensures r.value.Some? <==> r.err.None?
    ensures ch.releaseList.value.err.Some? && IsNotFound(ch.releaseList.value.err.value) ==>
              r == Reply(Some(EmptyReleaseList()), None)
    ensures ch.releaseList.value.err.Some? && !IsNotFound(ch.releaseList.value.err.value) ==>
              r == Reply(None, ch.releaseList.value.err)
    ensures ch.releaseList.value.err.None? && ch.podList.value.err.Some? ==>
              r == Reply(None, ch.podList.value.err)
    ensures ch.releaseList.value.err.None? && ch.podList.value.err.None? ==>
              r.err == ch.eventList.value.err
    ensures r.value.Some? && ch.releaseList.value.err.None? ==>
              r.value.value == Releases.CreateReleaseList([Releases.PlaceholderName])
  {
    match Drain(ch.releaseList, ch)
    case KindNotFound => Reply(Some(EmptyReleaseList()), None)
    case StoppedAt(e) => Reply(None, Some(e))
    case AllRead(_, _) => Reply(Some(Releases.CreateReleaseList([Releases.PlaceholderName])), None)
  }

  /** Apart from the NotFound degradation, the builder's error is the first
      error in drain order, and it builds a list exactly when there is none. */
  lemma ErrorIsFirstDrained(ch: ResourceChannels)
    requires Drainable(ch.releaseList, ch)
    requires !(ch.releaseList.value.err.Some? && IsNotFound(ch.releaseList.value.err.value))
    ensures GetReleaseListFromChannels(ch).err == FirstError(DrainedErrors(ch.releaseList, ch))
  {
    DrainStopsAtFirstError(ch.releaseList, ch);
  }

  /** An error on the release kind settles the answer: the pod and event
      channels (whether created, and what they hold) do not matter. */
  lemma PrimaryErrorShortCircuits(a: ResourceChannels, b: ResourceChannels)
    requires Drainable(a.releaseList, a) && Drainable(b.releaseList, b)
    requires a.releaseList == b.releaseList && a.releaseList.value.err.Some?
    ensures GetReleaseListFromChannels(a) == GetReleaseListFromChannels(b)
  {
  }

  /** Once the release kind succeeded, a pod error wins over any event
      outcome. */
  lemma PodErrorBeforeEventError(a: ResourceChannels, b: ResourceChannels)
    requires Drainable(a.releaseList, a) && Drainable(b.releaseList, b)
    requires a.releaseList.value.err.None? && b.releaseList.value.err.None?
    requires a.podList == b.podList && a.podList.value.err.Some?
    ensures GetReleaseListFromChannels(a) == GetReleaseListFromChannels(b)
  {
  }
}
