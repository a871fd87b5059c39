/** The chart repository registry: the repositories file as a map from
    repository name to URL, the cached index files under the cache
    directory, and the operations that add, remove and browse repositories.
    File reads, writes, downloads and removals are abstracted: the files are
    a map from path to contents, and the outcome of each write, removal and
    download is a parameter. */
module ChartRepo {
  import opened Common
  import opened ChartHome

  /** The icon given to charts whose chart file names none. */
  const DefaultIcon: string := "https://deis.com/assets/images/svg/helm-logo.svg"

  /** The chart file of an index entry. */
  datatype Metadata = Metadata(name: string, version: string, description: string, icon: string)

  /** An index entry: where the chart lives and, possibly, its chart file. */
  datatype ChartRef = ChartRef(url: string, chartfile: Option<Metadata>)

  /** The view of one chart. */
  datatype ChartSpec = ChartSpec(name: string, version: string, fullURL: string, description: string, icon: string)

  /** A cached index file: readable entries, or a load error. */
  datatype CacheFile = IndexFile(entries: seq<ChartRef>) | Unreadable(err: Error)

  /** The repositories file: a loaded map (`None` is a nil map), or a load
      error. */
  datatype RepoFile = Loaded(repositories: Option<map<string, string>>) | Unloadable(err: Error)

  /** The chart home: the repositories file and the cache files by path. */
  datatype HelmHome = HelmHome(repoFile: RepoFile, files: map<string, CacheFile>)

  /** Outcomes of the file writes and removals an operation performs. */
  datatype IoFaults = IoFaults(write: Option<Error>, remove: Option<Error>)

  /** Outcome of downloading a repository's index. */
  datatype Download = Fetched(entries: seq<ChartRef>) | DownloadFailed(cause: string)

  /** The home after an operation, and the error it returned. */
  datatype Outcome = Outcome(home: HelmHome, err: Option<Error>)

  datatype RepositoryListSpec = RepositoryListSpec(repoNames: seq<string>)

  datatype RepositoryChartListSpec = RepositoryChartListSpec(charts: seq<ChartSpec>)

  /** The pair a chart listing returns; unlike the list builders, the list
      is present even alongside an error. */
  datatype ChartListReply = ChartListReply(list: RepositoryChartListSpec, err: Option<Error>)

  /** The registry a loaded repositories file holds; a nil map reads as
      empty. */
  function Repos(h: HelmHome): map<string, string>
    requires h.repoFile.Loaded?
  {
    if h.repoFile.repositories.None? then map[] else h.repoFile.repositories.value
  }

  function AlreadyExists(name: string): Error {
    Generic("The repository name you provided (" + name + ") already exists. Please specify a different name.")
  }

  function DoesNotExist(name: string): Error {
    Generic("The repository, " + name + ", does not exist in your repositories list")
  }

  function Unreachable(url: string, cause: string): Error {
    Generic("Looks like " + url + " is not a valid chart repository or cannot be reached: " + cause)
  }

  function NoSuchFile(path: string): Error {
    Generic("open " + path + ": no such file or directory")
  }

  /** Adds `name -> url` to the registry. A load error or an existing name is
      reported and nothing changes; a write error is reported and the file
      keeps its old contents; otherwise the registry gains exactly that entry
      (a nil map first becoming an empty one). Cache files are never
      touched. */
  function InsertRepoLine(h: HelmHome, name: string, url: string, faults: IoFaults): (o: Outcome)
    ensures o.home.files == h.files
    ensures o.err.Some? ==> o.home == h
    ensures o.err.None? <==> h.repoFile.Loaded? && name !in Repos(h) && faults.write.None?
    ensures h.repoFile.Unloadable? ==> o.err == Some(h.repoFile.err)
    ensures h.repoFile.Loaded? && name in Repos(h) ==> o.err == Some(AlreadyExists(name))
    ensures h.repoFile.Loaded? && name !in Repos(h) && faults.write.Some? ==> o == Outcome(h, faults.write)
    ensures o.err.None? ==>
              && o.home.repoFile.Loaded? && o.home.repoFile.repositories.Some?
              && Repos(o.home).Keys == Repos(h).Keys + {name}
              && Repos(o.home)[name] == url
              && forall k :: k in Repos(h) ==> Repos(o.home)[k] == Repos(h)[k]
  {
    if h.repoFile.Unloadable? then Outcome(h, Some(h.repoFile.err))
    else if name in Repos(h) then Outcome(h, Some(AlreadyExists(name)))
    else if faults.write.Some? then Outcome(h, faults.write)
    else Outcome(h.(repoFile := Loaded(Some(Repos(h)[name := url]))), None)
  }

  /** Deletes the cached index file of `name` if there is one. A missing
      file is no error; a failed removal is reported and nothing changes. The
      repositories file and every other file are left alone. */
  function RemoveRepoCache(h: HelmHome, name: string, faults: IoFaults): (o: Outcome)
    ensures o.home.repoFile == h.repoFile
    ensures CacheIndexFile(name) !in h.files ==> o == Outcome(h, None)
    ensures o.err.None? ==> CacheIndexFile(name) !in o.home.files
    ensures o.err.Some? ==> o.home == h && o.err == faults.remove
    ensures CacheIndexFile(name) in h.files && faults.remove.Some? ==> o == Outcome(h, faults.remove)
    ensures o.err.None? <==> (CacheIndexFile(name) in h.files ==> faults.remove.None?)
    ensures forall p :: p != CacheIndexFile(name) ==>
              (p in o.home.files <==> p in h.files) && (p in h.files ==> o.home.files[p] == h.files[p])
  {
    var path := CacheIndexFile(name);
    if path !in h.files then Outcome(h, None)
    else if faults.remove.Some? then Outcome(h, faults.remove)
    else Outcome(h.(files := h.files - {path}), None)
  }

  /** Clearing a cache twice is clearing it once. */
  lemma RemoveRepoCacheIdempotent(h: HelmHome, name: string, faults: IoFaults)
    ensures RemoveRepoCache(RemoveRepoCache(h, name, faults).home, name, faults) == RemoveRepoCache(h, name, faults)
  {
  }

  /** Removes `name` from the registry, then its cached index. An absent
      name is reported and nothing changes; a write error is reported and
      nothing changes; otherwise exactly that key is deleted, and a failing
      cache removal is reported after the registry was already written. */
  function RemoveRepoLine(h: HelmHome, name: string, faults: IoFaults): (o: Outcome)
    ensures h.repoFile.Unloadable? ==> o == Outcome(h, Some(h.repoFile.err))
    ensures h.repoFile.Loaded? && name !in Repos(h) ==> o == Outcome(h, Some(DoesNotExist(name)))
    ensures h.repoFile.Loaded? && name in Repos(h) && faults.write.Some? ==> o == Outcome(h, faults.write)
    ensures h.repoFile.Loaded? && name in Repos(h) && faults.write.None? ==>
              o.home.repoFile == Loaded(Some(Repos(h) - {name}))
    ensures o.err.None? <==>
              h.repoFile.Loaded? && name in Repos(h) && faults.write.None?
              && (CacheIndexFile(name) in h.files ==> faults.remove.None?)
    ensures (h.repoFile.Loaded? && name in Repos(h) && faults.write.None? && CacheIndexFile(name) in h.files
             && faults.remove.Some?) ==> o.err == faults.remove && o.home.files == h.files
    ensures o.err.None? ==> CacheIndexFile(name) !in o.home.files
    ensures o.err.Some? ==> o.home.files == h.files
    ensures forall p :: p != CacheIndexFile(name) ==>
              (p in o.home.files <==> p in h.files) && (p in h.files ==> o.home.files[p] == h.files[p])
  {
    if h.repoFile.Unloadable? then Outcome(h, Some(h.repoFile.err))
    else if name in Repos(h) then
      if faults.write.Some? then Outcome(h, faults.write)
      else RemoveRepoCache(h.(repoFile := Loaded(Some(Repos(h) - {name}))), name, faults)
    else Outcome(h, Some(DoesNotExist(name)))
  }

  /** Adds a repository: downloads its index into the cache, then records it
      in the registry. A failed download changes nothing and reports an error
      naming the URL; a successful one overwrites the cached index even when
      recording the name then fails. */
  function AddRepo(h: HelmHome, name: string, url: string, download: Download, faults: IoFaults): (o: Outcome)
    ensures download.DownloadFailed? ==>
              && o.home == h && o.err.Some? && o.err.value.Generic?
              && IsPrefix("Looks like " + url, o.err.value.msg)
    ensures download.Fetched? ==>
              o.home.files == h.files[CacheIndexFile(name) := IndexFile(download.entries)]
    ensures download.Fetched? ==> (o.err.None? <==> h.repoFile.Loaded? && name !in Repos(h) && faults.write.None?)
    ensures download.Fetched? ==> o.err == InsertRepoLine(h, name, url, faults).err
    ensures o.err.None? ==> o.home.repoFile.Loaded? && name in Repos(o.home) && Repos(o.home)[name] == url
    ensures o.err.None? ==>
              && Repos(o.home).Keys == Repos(h).Keys + {name}
              && forall k :: k in Repos(h) ==> Repos(o.home)[k] == Repos(h)[k]
    ensures o.err.Some? ==> o.home.repoFile == h.repoFile
  {
    match download
    case DownloadFailed(cause) =>
      var e := Unreachable(url, cause);
      assert e.msg == ("Looks like " + url) + (" is not a valid chart repository or cannot be reached: " + cause);
      Outcome(h, Some(e))
    case Fetched(entries) =>
      var files := h.files[CacheIndexFile(name) := IndexFile(entries)];
      InsertIgnoresFiles(h, files, name, url, faults);
      InsertRepoLine(h.(files := files), name, url, faults)
  }

  /** Recording a name reads and writes only the repositories file: with
      other cache files, the error and the registry written are the same. */
  lemma InsertIgnoresFiles(h: HelmHome, files: map<string, CacheFile>, name: string, url: string, faults: IoFaults)
    ensures var o := InsertRepoLine(h, name, url, faults);
            InsertRepoLine(h.(files := files), name, url, faults) == Outcome(o.home.(files := files), o.err)
  {
  }

  /** Inserting an absent name and removing it again restores the registry;
      the only other trace is that the name's cached index is gone. */
  lemma InsertThenRemoveRestores(h: HelmHome, name: string, url: string, faults: IoFaults)
    requires h.repoFile.Loaded? && name !in Repos(h)
    requires faults == IoFaults(None, None)
    ensures var o := RemoveRepoLine(InsertRepoLine(h, name, url, faults).home, name, faults);
            o.err.None? && Repos(o.home) == Repos(h) && o.home.files == h.files - {CacheIndexFile(name)}
  {
    var o1 := InsertRepoLine(h, name, url, faults);
    assert Repos(o1.home) - {name} == Repos(h);
  }

  /** Adding a repository whose name and cache are new and then removing it
      leaves the registry and the cache exactly as they were. */
  lemma AddThenRemoveRestores(h: HelmHome, name: string, url: string, entries: seq<ChartRef>, faults: IoFaults)
    requires h.repoFile.Loaded? && name !in Repos(h) && CacheIndexFile(name) !in h.files
    requires faults == IoFaults(None, None)
    ensures var o := RemoveRepoLine(AddRepo(h, name, url, Fetched(entries), faults).home, name, faults);
            o.err.None? && Repos(o.home) == Repos(h) && o.home.files == h.files
  {
    var path := CacheIndexFile(name);
    var o1 := AddRepo(h, name, url, Fetched(entries), faults);
    assert Repos(o1.home) - {name} == Repos(h);
    assert h.files[path := IndexFile(entries)] - {path} == h.files;
  }

  /** Names are resolved as paths, so removing the repository "a/../b"
      deletes the cached index of "b" as well, while "b" stays registered. */
  lemma RemovalThroughSharedCache(h: HelmHome, a: string, b: string, faults: IoFaults)
    requires CleanComponent(a) && NoSeparator(b)
    requires h.repoFile.Loaded? && a + "/../" + b in Repos(h) && b in Repos(h) && a + "/../" + b != b
    requires CacheIndexFile(b) in h.files
    requires faults == IoFaults(None, None)
    ensures var o := RemoveRepoLine(h, a + "/../" + b, faults);
            o.err.None? && b in Repos(o.home) && CacheIndexFile(b) !in o.home.files
  {
    CacheIndexFileCollides(a, b);
  }

  /** The view of an entry that has a chart file; a missing icon becomes the
      default one. */
  function ToSpec(c: ChartRef): (s: ChartSpec)
    requires c.chartfile.Some?
    ensures s.name == c.chartfile.value.name && s.version == c.chartfile.value.version
    ensures s.fullURL == c.url && s.description == c.chartfile.value.description
    ensures s.icon != ""
    ensures c.chartfile.value.icon != "" ==> s.icon == c.chartfile.value.icon
    ensures c.chartfile.value.icon == "" ==> s.icon == DefaultIcon
  {
    var md := c.chartfile.value;
    ChartSpec(md.name, md.version, c.url, md.description, if md.icon == "" then DefaultIcon else md.icon)
  }

  /** The charts of an index, in entry order: one view per entry with a chart
      file, and none for the others. */
  function Charts(entries: seq<ChartRef>): (cs: seq<ChartSpec>)
    ensures |cs| <= |entries|
    ensures (forall i :: 0 <= i < |entries| ==> entries[i].chartfile.Some?) ==> |cs| == |entries|
    ensures (forall i :: 0 <= i < |entries| ==> entries[i].chartfile.None?) ==> cs == []
    ensures forall j :: 0 <= j < |cs| ==> cs[j].icon != ""
    decreases |entries|
  {
    if entries == [] then []
    else
      var front := entries[..|entries| - 1];
      var e := entries[|entries| - 1];
      var rest := Charts(front);
      if e.chartfile.None? then rest else rest + [ToSpec(e)]
  }

  /** True when some entry with a chart file has `c` as its view. */
  predicate FromIndex(c: ChartSpec, entries: seq<ChartRef>) {
    exists i :: 0 <= i < |entries| && entries[i].chartfile.Some? && c == ToSpec(entries[i])
  }

  /** Every listed chart is the view of an entry with a chart file. */
  lemma {:induction false} ChartsSound(entries: seq<ChartRef>)
    ensures forall c :: c in Charts(entries) ==> FromIndex(c, entries)
    decreases |entries|
  {
    if entries != [] {
      var front := entries[..|entries| - 1];
      ChartsSound(front);
      forall c | FromIndex(c, front)
        ensures FromIndex(c, entries)
      {
        var i :| 0 <= i < |front| && front[i].chartfile.Some? && c == ToSpec(front[i]);
        assert entries[i] == front[i];
      }
    }
  }

  /** The view of every entry with a chart file is listed. */
  lemma {:induction false} ChartsComplete(entries: seq<ChartRef>)
    ensures forall c :: FromIndex(c, entries) ==> c in Charts(entries)
    decreases |entries|
  {
    if entries != [] {
      var front := entries[..|entries| - 1];
      ChartsComplete(front);
      forall c | FromIndex(c, entries)
        ensures c in Charts(entries)
      {
        var i :| 0 <= i < |entries| && entries[i].chartfile.Some? && c == ToSpec(entries[i]);
        if i < |front| {
          assert front[i] == entries[i];
          assert FromIndex(c, front);
        }
      }
    }
  }

  /** The listing holds exactly the views of the entries with a chart file:
      none is dropped and none is invented. */
  lemma ChartsExact(entries: seq<ChartRef>)
    ensures forall c :: c in Charts(entries) <==> FromIndex(c, entries)
  {
    ChartsSound(entries);
    ChartsComplete(entries);
  }

  /** Charts of concatenated indexes are the concatenated charts: the
      listing keeps entry order. */
  lemma {:induction false} ChartsAppend(a: seq<ChartRef>, b: seq<ChartRef>)
    ensures Charts(a + b) == Charts(a) + Charts(b)
    decreases |b|
  {
    if b == [] {
      assert a + b == a;
    } else {
      assert (a + b)[..|a + b| - 1] == a + b[..|b| - 1];
      ChartsAppend(a, b[..|b| - 1]);
    }
  }

  /** Lists the charts of a repository from its cached index. A missing or
      unreadable index yields an empty list together with the error. */
  function GetRepositoryCharts(h: HelmHome, repoName: string): (r: ChartListReply)
    ensures r.err.Some? ==> r.list.charts == []
    ensures r.err.None? <==> CacheIndexFile(repoName) in h.files && h.files[CacheIndexFile(repoName)].IndexFile?
    ensures CacheIndexFile(repoName) !in h.files ==> r.err == Some(NoSuchFile(CacheIndexFile(repoName)))
    ensures CacheIndexFile(repoName) in h.files && h.files[CacheIndexFile(repoName)].Unreadable? ==>
              r.err == Some(h.files[CacheIndexFile(repoName)].err)
    ensures r.err.None? ==> r.list.charts == Charts(h.files[CacheIndexFile(repoName)].entries)
  {
    var path := CacheIndexFile(repoName);
    if path !in h.files then ChartListReply(RepositoryChartListSpec([]), Some(NoSuchFile(path)))
    else
      match h.files[path]
      case Unreadable(e) => ChartListReply(RepositoryChartListSpec([]), Some(e))
      case IndexFile(entries) => ChartListReply(RepositoryChartListSpec(Charts(entries)), None)
  }

  /** After a successful add, browsing the repository lists the charts of
      the index just downloaded. */
  lemma AddThenBrowse(h: HelmHome, name: string, url: string, entries: seq<ChartRef>, faults: IoFaults)
    requires AddRepo(h, name, url, Fetched(entries), faults).err.None?
    ensures GetRepositoryCharts(AddRepo(h, name, url, Fetched(entries), faults).home, name)
            == ChartListReply(RepositoryChartListSpec(Charts(entries)), None)
  {
  }

  predicate Distinct(s: seq<string>) {
    forall i, j :: 0 <= i < j < |s| ==> s[i] != s[j]
  }

  /** Lists the registered repository names, each once, in no particular
      order. A load error yields an empty list together with the error. */
  method GetRepositoryList(h: HelmHome) returns (list: RepositoryListSpec, err: Option<Error>)
    ensures h.repoFile.Unloadable? ==> list.repoNames == [] && err == Some(h.repoFile.err)
    ensures h.repoFile.Loaded? ==> err.None?
    ensures h.repoFile.Loaded? ==> forall n :: n in list.repoNames <==> n in Repos(h)
    ensures h.repoFile.Loaded? ==> |list.repoNames| == |Repos(h)|
    ensures Distinct(list.repoNames)
  {
    if h.repoFile.Unloadable? {
      return RepositoryListSpec([]), Some(h.repoFile.err);
    }
    var keys := Repos(h).Keys;
    var remaining := keys;
    var names: seq<string> := [];
    while remaining != {}
      invariant remaining <= keys
      invariant forall n :: n in names <==> n in keys && n !in remaining
      invariant Distinct(names)
      invariant |names| + |remaining| == |keys|
      decreases remaining
    {
      var n :| n in remaining;
      names := names + [n];
      remaining := remaining - {n};
    }
    return RepositoryListSpec(names), None;
  }
}
