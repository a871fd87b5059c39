/** The release list of `releaselist.go`: a list of plain release records
    built from release names, and a channel reader that, for now, always
    answers with one placeholder release. */
module Releases {
  import opened Common
  import opened Channels

  /** A release record: name, time, namespace and status. */
  datatype Release = Release(name: string, time: Time, namespace: string, status: string)

  /** A cumulative metric; its contents play no part here. */
  datatype Metric = Metric(metricName: string)

  datatype ReleaseList = ReleaseList(listMeta: ListMeta, releases: Slice<Release>, cumulativeMetrics: Slice<Metric>)

  /** Every built release is placed in this namespace. */
  const DefaultNamespace: string := "default"

  /** The name the channel reader answers with. */
  const PlaceholderName: string := "happy-panda"

  /** True when `r` is the record built for `name`: namespace "default",
      empty status and unset time. */
  predicate BuiltFrom(r: Release, name: string) {
    r.name == name && r.namespace == DefaultNamespace && r.status == "" && r.time == ZeroTime
  }

  /** The releases appended one by one, in input order. */
  function AppendReleases(names: seq<string>): (rs: seq<Release>)
    ensures |rs| == |names|
    ensures forall i :: 0 <= i < |names| ==> BuiltFrom(rs[i], names[i])
    decreases |names|
  {
    if names == [] then []
    else AppendReleases(names[..|names| - 1]) + [Release(names[|names| - 1], ZeroTime, DefaultNamespace, "")]
  }

  /** The list for the given names: total count, one record per name in
      order, and an empty (not nil) metrics list. */
  function CreateReleaseList(names: seq<string>): (l: ReleaseList)
    ensures l.listMeta.totalItems == |names|
    ensures l.releases.Elems? && |l.releases.items| == |names|
    ensures forall i :: 0 <= i < |names| ==> BuiltFrom(l.releases.items[i], names[i])
    ensures l.cumulativeMetrics == Elems([])
  {
    ReleaseList(ListMeta(|names|), Elems(AppendReleases(names)), Elems([]))
  }

  /** The names carried by a sequence of releases. */
  function Names(rs: seq<Release>): (ns: seq<string>)
    ensures |ns| == |rs|
  {
    if rs == [] then [] else [rs[0].name] + Names(rs[1..])
  }

  /** Names recovers the input of CreateReleaseList: nothing is lost,
      duplicated or reordered. */
  lemma {:induction false} NamesOfCreated(names: seq<string>)
    ensures Names(CreateReleaseList(names).releases.items) == names
  {
    NamesOfBuilt(CreateReleaseList(names).releases.items, names);
  }

  lemma {:induction false} NamesOfBuilt(rs: seq<Release>, names: seq<string>)
    requires |rs| == |names|
    requires forall i :: 0 <= i < |rs| ==> rs[i].name == names[i]
    ensures Names(rs) == names
    decreases |rs|
  {
    if rs != [] {
      NamesOfBuilt(rs[1..], names[1..]);
    }
  }

  /** The release list reader: whatever the channels hold, it answers with
      the single placeholder release and no error. */
  function GetReleaseListFromChannels(channels: ResourceChannels): (r: Reply<ReleaseList>)
    ensures r.err == None && r.value.Some?
    ensures r.value.value.listMeta.totalItems == 1
    ensures r.value.value.releases.Elems? && |r.value.value.releases.items| == 1
    ensures BuiltFrom(r.value.value.releases.items[0], PlaceholderName)
    ensures r.value.value.cumulativeMetrics == Elems([])
    ensures r.value.value == CreateReleaseList([PlaceholderName])
  {
    Reply(Some(CreateReleaseList([PlaceholderName])), None)
  }

  /** The reader does not look at its channels. */
  lemma ReaderIgnoresChannels(a: ResourceChannels, b: ResourceChannels)
    ensures GetReleaseListFromChannels(a) == GetReleaseListFromChannels(b)
  {
  }
}
