/** The fixed directory layout of the chart home `/.helm`: the repository
    directory, its cache and local sub-directories, the per-repository cache
    index files and the repositories file. Paths are joined as Go's
    `filepath.Join` joins them on a rooted first element: the elements are
    glued with separators and the result is lexically cleaned. */
module ChartHome {

  const RepositoryDir: string := "repository"
  const RepositoriesFilePath: string := "repositories.yaml"
  const CachePath: string := "cache"
  const LocalRepoPath: string := "local"

  /** Suffix of every cached repository index file. */
  const IndexSuffix: string := "-index.yaml"

  predicate IsPrefix(p: string, s: string) {
    |p| <= |s| && s[..|p|] == p
  }

  predicate IsSuffix(p: string, s: string) {
    |p| <= |s| && s[|s| - |p|..] == p
  }

  predicate NoSeparator(c: string) {
    forall i :: 0 <= i < |c| ==> c[i] != '/'
  }

  /** The current-directory component `.`. */
  predicate IsDot(c: string) {
    |c| == 1 && c[0] == '.'
  }

  /** The parent-directory component `..`. */
  predicate IsDotDot(c: string) {
    |c| == 2 && c[0] == '.' && c[1] == '.'
  }

  /** A component cleaning keeps as it is: non-empty, not `.` or `..`, and
      free of separators. */
  predicate CleanComponent(c: string) {
    |c| > 0 && !IsDot(c) && !IsDotDot(c) && NoSeparator(c)
  }

  /** Every part is empty (joining skips it) or a clean component. */
  predicate CleanParts(parts: seq<string>) {
    forall i :: 0 <= i < |parts| ==> |parts[i]| == 0 || CleanComponent(parts[i])
  }

  /** The components of a path between its separators, empty ones included:
      "/a//b" has the components "", "a", "" and "b". */
  function Split(s: string): (cs: seq<string>)
    ensures |cs| >= 1
  {
    SplitFrom("", s)
  }

  /** The components of `s`, the first of which continues the component
      `cur` already begun. */
  function SplitFrom(cur: string, s: string): (cs: seq<string>)
    ensures |cs| >= 1
    decreases |s|
  {
    if s == [] then [cur]
    else if s[0] == '/' then [cur] + SplitFrom("", s[1..])
    else SplitFrom(cur + [s[0]], s[1..])
  }

  /** Resolves components left to right below the root: empty and `.`
      components are dropped, `..` drops the last kept component (and is
      dropped itself at the root), every other component is kept. */
  function Resolve(kept: seq<string>, cs: seq<string>): seq<string>
    decreases |cs|
  {
    if cs == [] then kept
    else if |cs[0]| == 0 || IsDot(cs[0]) then Resolve(kept, cs[1..])
    else if IsDotDot(cs[0]) then Resolve(if kept == [] then [] else kept[..|kept| - 1], cs[1..])
    else Resolve(kept + [cs[0]], cs[1..])
  }

  /** The rooted path naming the given components: "/c1/c2/…". */
  function Slashed(cs: seq<string>): string {
    if cs == [] then "" else "/" + (cs[0] + Slashed(cs[1..]))
  }

  /** Lexical cleaning of a rooted path. */
  function CleanRooted(p: string): (q: string)
    ensures |q| > 0 && q[0] == '/'
  {
    var cs := Resolve([], Split(p));
    if cs == [] then "/" else Slashed(cs)
  }

  /** The elements glued with separators, before cleaning. */
  function Glue(base: string, parts: seq<string>): string
    decreases |parts|
  {
    if parts == [] then base else Glue(base, parts[..|parts| - 1]) + ("/" + parts[|parts| - 1])
  }

  predicate IsRooted(p: string) {
    |p| > 0 && p[0] == '/'
  }

  /** Joining onto a rooted base: glue, then clean. */
  function Join(base: string, parts: seq<string>): (p: string)
    requires IsRooted(base)
    ensures IsRooted(p)
  {
    CleanRooted(Glue(base, parts))
  }

  /** The non-empty parts, in order. */
  function NonEmpty(parts: seq<string>): seq<string> {
    if parts == [] then []
    else (if |parts[0]| == 0 then [] else [parts[0]]) + NonEmpty(parts[1..])
  }

  /** No component holds a separator. */
  lemma {:induction false} SplitFromComponents(cur: string, s: string)
    requires NoSeparator(cur)
    ensures forall i :: 0 <= i < |SplitFrom(cur, s)| ==> NoSeparator(SplitFrom(cur, s)[i])
    decreases |s|
  {
    if s != [] {
      if s[0] == '/' {
        SplitFromComponents("", s[1..]);
      } else {
        var c := cur + [s[0]];
        assert forall i :: 0 <= i < |c| ==> c[i] == if i < |cur| then cur[i] else s[0];
        SplitFromComponents(c, s[1..]);
      }
    }
  }

  lemma SplitComponents(s: string)
    ensures forall i :: 0 <= i < |Split(s)| ==> NoSeparator(Split(s)[i])
  {
    SplitFromComponents("", s);
  }

  /** A leading separator contributes one empty component. */
  lemma SplitRooted(s: string)
    ensures Split("/" + s) == [""] + Split(s)
  {
    assert ("/" + s)[1..] == s;
  }

  lemma {:induction false} SplitFromAppend(cur: string, a: string, b: string)
    ensures SplitFrom(cur, a + ("/" + b)) == SplitFrom(cur, a) + SplitFrom("", b)
    decreases |a|
  {
    var u := a + ("/" + b);
    if a == [] {
      assert u == "/" + b && u[1..] == b;
    } else {
      assert u[0] == a[0] && u[1..] == a[1..] + ("/" + b);
      if a[0] == '/' {
        SplitFromAppend("", a[1..], b);
      } else {
        SplitFromAppend(cur + [a[0]], a[1..], b);
      }
    }
  }

  /** Splitting at a separator splits the two sides independently. */
  lemma SplitAppend(a: string, b: string)
    ensures Split(a + ("/" + b)) == Split(a) + Split(b)
  {
    SplitFromAppend("", a, b);
  }

  lemma {:induction false} SplitFromNoSeparator(cur: string, c: string)
    requires NoSeparator(c)
    ensures SplitFrom(cur, c) == [cur + c]
    decreases |c|
  {
    if c == [] {
      assert cur + c == cur;
    } else {
      SplitFromNoSeparator(cur + [c[0]], c[1..]);
      assert (cur + [c[0]]) + c[1..] == cur + c;
    }
  }

  /** A string without separators is a single component. */
  lemma SplitNoSeparator(c: string)
    requires NoSeparator(c)
    ensures Split(c) == [c]
  {
    SplitFromNoSeparator("", c);
    assert "" + c == c;
  }

  lemma {:induction false} SplitFromLastSuffix(cur: string, s: string, t: string)
    requires NoSeparator(t)
    ensures |SplitFrom(cur, s + t)| == |SplitFrom(cur, s)|
    ensures SplitFrom(cur, s + t)[|SplitFrom(cur, s)| - 1] == SplitFrom(cur, s)[|SplitFrom(cur, s)| - 1] + t
    decreases |s|
  {
    var u := s + t;
    if s == [] {
      assert u == t;
      SplitFromNoSeparator(cur, t);
    } else {
      assert u[0] == s[0] && u[1..] == s[1..] + t;
      if s[0] == '/' {
        SplitFromLastSuffix("", s[1..], t);
      } else {
        SplitFromLastSuffix(cur + [s[0]], s[1..], t);
      }
    }
  }

  /** Appending separator-free text extends the last component only. */
  lemma SplitLastSuffix(s: string, t: string)
    requires NoSeparator(t)
    ensures |Split(s + t)| == |Split(s)|
    ensures Split(s + t)[|Split(s + t)| - 1] == Split(s)[|Split(s)| - 1] + t
  {
    SplitFromLastSuffix("", s, t);
  }

  /** The components of a glued path are the base's followed by each
      part's. */
  function SplitAll(parts: seq<string>): seq<string>
    decreases |parts|
  {
    if parts == [] then [] else SplitAll(parts[..|parts| - 1]) + Split(parts[|parts| - 1])
  }

  lemma {:induction false} SplitGlue(base: string, parts: seq<string>)
    ensures Split(Glue(base, parts)) == Split(base) + SplitAll(parts)
    decreases |parts|
  {
    if parts != [] {
      SplitGlue(base, parts[..|parts| - 1]);
      SplitAppend(Glue(base, parts[..|parts| - 1]), parts[|parts| - 1]);
    }
  }

  lemma {:induction false} SplitAllClean(parts: seq<string>)
    requires CleanParts(parts)
    ensures SplitAll(parts) == parts
    decreases |parts|
  {
    if parts != [] {
      SplitAllClean(parts[..|parts| - 1]);
      SplitNoSeparator(parts[|parts| - 1]);
    }
  }

  /** Dropping the first of several parts keeps them clean. */
  lemma CleanPartsTail(cs: seq<string>)
    requires cs != [] && CleanParts(cs)
    ensures CleanParts(cs[1..])
  {
    assert forall i :: 0 <= i < |cs[1..]| ==> cs[1..][i] == cs[i + 1];
  }

  /** One step of resolving a clean or empty first component. */
  lemma ResolvePlainStep(kept: seq<string>, cs: seq<string>)
    requires cs != [] && (|cs[0]| == 0 || CleanComponent(cs[0]))
    ensures |cs[0]| == 0 ==> Resolve(kept, cs) == Resolve(kept, cs[1..]) && NonEmpty(cs) == NonEmpty(cs[1..])
    ensures |cs[0]| != 0 ==> Resolve(kept, cs) == Resolve(kept + [cs[0]], cs[1..]) && NonEmpty(cs) == [cs[0]] + NonEmpty(cs[1..])
  {
  }

  /** On clean components, resolving just keeps the non-empty ones. */
  lemma {:induction false} ResolvePlain(kept: seq<string>, cs: seq<string>)
    requires CleanParts(cs)
    ensures Resolve(kept, cs) == kept + NonEmpty(cs)
    decreases |cs|
  {
    if cs != [] {
      CleanPartsTail(cs);
      ResolvePlainStep(kept, cs);
      if |cs[0]| == 0 {
        ResolvePlain(kept, cs[1..]);
      } else {
        ResolvePlain(kept + [cs[0]], cs[1..]);
        assert (kept + [cs[0]]) + NonEmpty(cs[1..]) == kept + ([cs[0]] + NonEmpty(cs[1..]));
      }
    }
  }

  /** A final ordinary component survives resolution as the last one kept. */
  lemma {:induction false} ResolveKeepsLast(kept: seq<string>, cs: seq<string>)
    requires cs != [] && CleanComponent(cs[|cs| - 1])
    ensures Resolve(kept, cs) != [] && Resolve(kept, cs)[|Resolve(kept, cs)| - 1] == cs[|cs| - 1]
    decreases |cs|
  {
    if |cs| > 1 {
      var k := if |cs[0]| == 0 || IsDot(cs[0]) then kept
               else if IsDotDot(cs[0]) then (if kept == [] then [] else kept[..|kept| - 1])
               else kept + [cs[0]];
      assert cs[1..][|cs[1..]| - 1] == cs[|cs| - 1];
      ResolveKeepsLast(k, cs[1..]);
    } else {
      assert cs[1..] == [];
    }
  }

  lemma {:induction false} SlashedAppend(a: seq<string>, b: seq<string>)
    ensures Slashed(a + b) == Slashed(a) + Slashed(b)
    decreases |a|
  {
    if a == [] {
      assert a + b == b;
    } else {
      assert (a + b)[1..] == a[1..] + b;
      SlashedAppend(a[1..], b);
    }
  }

  lemma SlashedOne(c: string)
    ensures Slashed([c]) == "/" + c
  {
    assert [c][1..] == [];
    assert c + Slashed([]) == c;
  }

  /** Text ending in `t` still ends in `t` after anything is put before it. */
  lemma SuffixPrepend(t: string, a: string, b: string)
    requires IsSuffix(t, b)
    ensures IsSuffix(t, a + b)
  {
    assert (a + b)[|a + b| - |t|..] == b[|b| - |t|..];
  }

  /** A rooted path ends the way its last component ends. */
  lemma {:induction false} SlashedEndsLikeLast(cs: seq<string>, t: string)
    requires cs != [] && IsSuffix(t, cs[|cs| - 1])
    ensures IsSuffix(t, Slashed(cs))
    decreases |cs|
  {
    if |cs| == 1 {
      SlashedOne(cs[0]);
      SuffixPrepend(t, "/", cs[0]);
    } else {
      assert cs[1..][|cs[1..]| - 1] == cs[|cs| - 1];
      SlashedEndsLikeLast(cs[1..], t);
      SuffixPrepend(t, cs[0], Slashed(cs[1..]));
      SuffixPrepend(t, "/", cs[0] + Slashed(cs[1..]));
    }
  }

  function HomePath(): (p: string)
    ensures IsRooted(p) && p[|p| - 1] != '/'
  {
    "/.helm"
  }

  function RepositoryDirectory(): (p: string)
    ensures p == HomePath() + "/" + RepositoryDir
  {
    HomePath() + "/" + RepositoryDir
  }

  /** The repository directory is "/.helm/repository". */
  lemma RepositoryDirectoryValue()
    ensures RepositoryDirectory() == "/.helm/repository"
  {
  }

  /** Splitting the rooted path of clean components gives them back, after
      the empty component before the root separator. */
  lemma {:induction false} SplitSlashed(cs: seq<string>)
    requires forall i :: 0 <= i < |cs| ==> CleanComponent(cs[i])
    ensures Split(Slashed(cs)) == [""] + cs
    decreases |cs|
  {
    if cs != [] {
      var rest := Slashed(cs[1..]);
      SplitRooted(cs[0] + rest);
      SplitNoSeparator(cs[0]);
      if cs[1..] == [] {
        assert cs[0] + rest == cs[0];
      } else {
        SplitSlashed(cs[1..]);
        var x := cs[1..][0] + Slashed(cs[1..][1..]);
        assert rest == "/" + x;
        SplitRooted(x);
        SplitAppend(cs[0], x);
        assert Split(x) == ([""] + Split(x))[1..] == ([""] + cs[1..])[1..] == cs[1..];
        assert cs == [cs[0]] + cs[1..];
      }
    }
  }

  /** The repository directory's components. */
  function RepositoryComponents(): seq<string> {
    [".helm", "repository"]
  }

  /** The repository directory is the rooted path of its components, and
      splitting it gives them back. */
  lemma RepositoryDirectoryComponents()
    ensures Slashed(RepositoryComponents()) == RepositoryDirectory()
    ensures forall i :: 0 <= i < |RepositoryComponents()| ==> CleanComponent(RepositoryComponents()[i])
  {
    var cs := RepositoryComponents();
    assert Slashed(cs[1..]) == "/" + cs[1] + Slashed([]);
  }

  /** Dropping empty parts keeps a sequence with none. */
  lemma {:induction false} NonEmptyKeepsComponents(cs: seq<string>)
    requires forall i :: 0 <= i < |cs| ==> CleanComponent(cs[i])
    ensures NonEmpty(cs) == cs
    decreases |cs|
  {
    if cs != [] {
      NonEmptyKeepsComponents(cs[1..]);
      assert cs == [cs[0]] + cs[1..];
    }
  }

  /** Below a rooted path of clean components, joining resolves the parts'
      components onto the base's. */
  lemma JoinResolves(bc: seq<string>, parts: seq<string>)
    requires bc != [] && forall i :: 0 <= i < |bc| ==> CleanComponent(bc[i])
    ensures IsRooted(Slashed(bc))
    ensures Join(Slashed(bc), parts)
         == (var cs := Resolve(bc, SplitAll(parts)); if cs == [] then "/" else Slashed(cs))
  {
    var base := Slashed(bc);
    assert base == "/" + bc[0] + Slashed(bc[1..]);
    SplitSlashed(bc);
    SplitGlue(base, parts);
    var e := [""];
    assert Split(Glue(base, parts)) == (e + bc) + SplitAll(parts);
    ResolveAppend([], e + bc, SplitAll(parts));
    assert CleanParts(e + bc) by {
      forall i | 0 <= i < |e + bc| ensures |(e + bc)[i]| == 0 || CleanComponent((e + bc)[i]) {
        if i >= 1 { assert (e + bc)[i] == bc[i - 1]; }
      }
    }
    ResolvePlain([], e + bc);
    NonEmptyKeepsComponents(bc);
    assert NonEmpty(e + bc) == NonEmpty(bc);
  }

  /** Below a rooted path of clean components, joining clean parts is plain
      concatenation: cleaning changes nothing. */
  lemma JoinBelow(bc: seq<string>, parts: seq<string>)
    requires bc != [] && forall i :: 0 <= i < |bc| ==> CleanComponent(bc[i])
    requires CleanParts(parts)
    ensures IsRooted(Slashed(bc))
    ensures Join(Slashed(bc), parts) == Slashed(bc) + Slashed(NonEmpty(parts))
  {
    JoinResolves(bc, parts);
    SplitAllClean(parts);
    ResolvePlain(bc, parts);
    SlashedAppend(bc, NonEmpty(parts));
  }

  /** Below the repository directory, joining clean parts is plain
      concatenation: cleaning changes nothing. */
  lemma JoinCleanParts(parts: seq<string>)
    requires CleanParts(parts)
    ensures Join(RepositoryDirectory(), parts) == RepositoryDirectory() + Slashed(NonEmpty(parts))
  {
    RepositoryDirectoryComponents();
    var bc := RepositoryComponents();
    JoinBelow(bc, parts);
  }

  /** Joining a clean child directory and clean parts below the repository
      directory. */
  lemma JoinChild(child: string, paths: seq<string>)
    requires CleanComponent(child) && CleanParts(paths)
    ensures Join(RepositoryDirectory(), [child] + paths)
         == RepositoryDirectory() + "/" + child + Slashed(NonEmpty(paths))
  {
    var parts := [child] + paths;
    assert CleanParts(parts) by {
      forall i | 0 <= i < |parts| ensures |parts[i]| == 0 || CleanComponent(parts[i]) {
        if i >= 1 { assert parts[i] == paths[i - 1]; }
      }
    }
    JoinCleanParts(parts);
    assert parts[1..] == paths;
    assert NonEmpty(parts) == [child] + NonEmpty(paths);
  }

  /** The cache directory, or a path below it; clean parts stay below it. */
  function CacheDirectory(paths: seq<string>): (p: string)
    ensures IsRooted(p)
    ensures CleanParts(paths) ==> p == RepositoryDirectory() + "/" + CachePath + Slashed(NonEmpty(paths))
  {
    var p := Join(RepositoryDirectory(), [CachePath] + paths);
    assert CleanParts(paths) ==> p == RepositoryDirectory() + "/" + CachePath + Slashed(NonEmpty(paths)) by {
      if CleanParts(paths) { JoinChild(CachePath, paths); }
    }
    p
  }

  /** The local repository directory, or a path below it; clean parts stay
      below it. */
  function LocalRepoDirectory(paths: seq<string>): (p: string)
    ensures IsRooted(p)
    ensures CleanParts(paths) ==> p == RepositoryDirectory() + "/" + LocalRepoPath + Slashed(NonEmpty(paths))
  {
    var p := Join(RepositoryDirectory(), [LocalRepoPath] + paths);
    assert CleanParts(paths) ==> p == RepositoryDirectory() + "/" + LocalRepoPath + Slashed(NonEmpty(paths)) by {
      if CleanParts(paths) { JoinChild(LocalRepoPath, paths); }
    }
    p
  }

  /** The components of the cache directory, resolved. */
  function CacheComponents(): seq<string> {
    RepositoryComponents() + [CachePath]
  }

  /** Resolving appended components continues from the first resolution. */
  lemma {:induction false} ResolveAppend(kept: seq<string>, a: seq<string>, b: seq<string>)
    ensures Resolve(kept, a + b) == Resolve(Resolve(kept, a), b)
    decreases |a|
  {
    if a != [] {
      assert (a + b)[0] == a[0];
      assert (a + b)[1..] == a[1..] + b;
      ResolveAppend(if |a[0]| == 0 || IsDot(a[0]) then kept
                    else if IsDotDot(a[0]) then (if kept == [] then [] else kept[..|kept| - 1])
                    else kept + [a[0]], a[1..], b);
    } else {
      assert a + b == b;
    }
  }

  /** Joining a clean child and one more part below a rooted path of clean
      components resolves the part's components onto the child's path. */
  lemma JoinChildResolves(bc: seq<string>, c: string, file: string)
    requires bc != [] && forall i :: 0 <= i < |bc| ==> CleanComponent(bc[i])
    requires CleanComponent(c)
    ensures Join(Slashed(bc), [c] + [file])
         == (var cs := Resolve(bc + [c], Split(file)); if cs == [] then "/" else Slashed(cs))
  {
    JoinResolves(bc, [c] + [file]);
    SplitAllChild(c, file);
    ResolveAppend(bc, [c], Split(file));
    ResolveChild(bc, c);
  }

  /** The components of a clean child followed by a file. */
  lemma SplitAllChild(c: string, file: string)
    requires CleanComponent(c)
    ensures SplitAll([c] + [file]) == [c] + Split(file)
  {
    var parts := [c] + [file];
    assert parts[..1] == [c] && [c][..0] == [];
    SplitNoSeparator(c);
    assert SplitAll([c]) == SplitAll([]) + Split(c);
  }

  /** A clean component is kept by resolution. */
  lemma ResolveChild(kept: seq<string>, c: string)
    requires CleanComponent(c)
    ensures Resolve(kept, [c]) == kept + [c]
  {
    assert [c][1..] == [];
  }

  /** A file named below the cache directory is resolved onto the cache
      directory's components. */
  lemma CacheDirectoryResolves(file: string)
    ensures CacheDirectory([file])
         == (var cs := Resolve(CacheComponents(), Split(file)); if cs == [] then "/" else Slashed(cs))
  {
    RepositoryDirectoryComponents();
    JoinChildResolves(RepositoryComponents(), CachePath, file);
  }

  /** A leading `..` is a component of its own. */
  lemma SplitUp(t: string)
    ensures Split("../" + t) == [".."] + Split(t)
  {
    var up := "..";
    assert "../" + t == up + ("/" + t);
    SplitAppend(up, t);
    SplitNoSeparator(up);
  }

  /** Resolving `..` drops the last kept component, if any. */
  lemma ResolveUp(kept: seq<string>, cs: seq<string>)
    ensures Resolve(kept, [".."] + cs) == Resolve(if kept == [] then [] else kept[..|kept| - 1], cs)
  {
    var up := "..";
    assert IsDotDot(up);
    var s := [up] + cs;
    assert s[0] == up && s[1..] == cs;
  }

  /** A separator-free name followed by the index suffix is a clean
      component. */
  lemma IndexNameClean(x: string)
    requires NoSeparator(x)
    ensures CleanComponent(x + IndexSuffix)
  {
    var t := IndexSuffix;
    assert NoSeparator(t);
    var c := x + t;
    assert |c| > 2;
    forall i | 0 <= i < |c|
      ensures c[i] != '/'
    {
      if i < |x| { assert c[i] == x[i]; } else { assert c[i] == t[i - |x|]; }
    }
  }

  /** The last component of an index file name survives resolution. */
  lemma IndexFileLastKept(kept: seq<string>, name: string)
    ensures Resolve(kept, Split(name + IndexSuffix)) != []
    ensures var r := Resolve(kept, Split(name + IndexSuffix));
            r[|r| - 1] == Split(name)[|Split(name)| - 1] + IndexSuffix
  {
    SplitLastSuffix(name, IndexSuffix);
    SplitComponents(name);
    IndexNameClean(Split(name)[|Split(name)| - 1]);
    ResolveKeepsLast(kept, Split(name + IndexSuffix));
  }

  /** The cached index file of `name` is the cache directory's components
      followed by the name's, resolved; its last component is the name's
      last component with the index suffix. */
  lemma CacheIndexFileResolves(name: string)
    ensures Resolve(CacheComponents(), Split(name + IndexSuffix)) != []
    ensures var kept := Resolve(CacheComponents(), Split(name + IndexSuffix));
            kept[|kept| - 1] == Split(name)[|Split(name)| - 1] + IndexSuffix
    ensures CacheDirectory([name + IndexSuffix])
         == Slashed(Resolve(CacheComponents(), Split(name + IndexSuffix)))
  {
    IndexFileLastKept(CacheComponents(), name);
    CacheDirectoryResolves(name + IndexSuffix);
  }

  /** The cached index file of repository `name`. It always ends in the
      index suffix; for a name without separators it lies directly in the
      cache directory. */
  function CacheIndexFile(name: string): (p: string)
    ensures IsRooted(p) && IsSuffix(IndexSuffix, p)
    ensures NoSeparator(name) ==> p == "/.helm/repository/cache/" + name + IndexSuffix
  {
    CacheIndexFileSuffix(name);
    var p := CacheDirectory([name + IndexSuffix]);
    assert NoSeparator(name) ==> p == "/.helm/repository/cache/" + name + IndexSuffix by {
      if NoSeparator(name) { CacheIndexFileSeparatorFree(name); }
    }
    p
  }

  lemma CacheIndexFileSeparatorFree(name: string)
    requires NoSeparator(name)
    ensures CacheDirectory([name + IndexSuffix]) == "/.helm/repository/cache/" + name + IndexSuffix
  {
    var file := name + IndexSuffix;
    IndexNameClean(name);
    assert CleanParts([file]);
    assert NonEmpty([file]) == [file];
    SlashedOne(file);
    var rd := RepositoryDirectory();
    assert CacheDirectory([file]) == rd + "/" + CachePath + ("/" + file);
    RepositoryDirectoryValue();
    CacheDirectoryPrefix(rd, file);
  }

  /** The literal spelling of a file directly in the cache directory. */
  lemma CacheDirectoryPrefix(rd: string, file: string)
    requires rd == "/.helm/repository"
    ensures rd + "/" + CachePath + ("/" + file) == "/.helm/repository/cache/" + file
  {
  }

  lemma CacheIndexFileSuffix(name: string)
    ensures IsSuffix(IndexSuffix, CacheDirectory([name + IndexSuffix]))
  {
    CacheIndexFileResolves(name);
    var kept := Resolve(CacheComponents(), Split(name + IndexSuffix));
    var x, t := Split(name)[|Split(name)| - 1], IndexSuffix;
    assert kept[|kept| - 1] == x + t;
    assert IsSuffix(t, kept[|kept| - 1]) by {
      assert IsSuffix(t, t);
      SuffixPrepend(t, x, t);
    }
    SlashedEndsLikeLast(kept, t);
  }

  /** A clean name joined onto the repository directory is plain
      concatenation. */
  lemma JoinOneClean(f: string)
    requires CleanComponent(f)
    ensures Join(RepositoryDirectory(), [f]) == RepositoryDirectory() + ("/" + f)
  {
    assert CleanParts([f]);
    JoinCleanParts([f]);
    assert NonEmpty([f]) == [f];
    SlashedOne(f);
  }

  function RepositoriesFile(): (p: string)
    ensures p == "/.helm/repository/repositories.yaml"
  {
    var p := Join(RepositoryDirectory(), [RepositoriesFilePath]);
    assert p == "/.helm/repository/repositories.yaml" by {
      JoinOneClean(RepositoriesFilePath);
      RepositoryDirectoryValue();
    }
    p
  }

  /** The directories the home set-up makes sure exist, in creation order;
      each lies under the home path. */
  function ConfigDirectories(): (ds: seq<string>)
    ensures ds == ["/.helm", "/.helm/repository", "/.helm/repository/cache", "/.helm/repository/local"]
    ensures forall i :: 0 <= i < |ds| ==> IsPrefix(HomePath(), ds[i])
  {
    CacheAndLocalAreSiblings();
    RepositoryDirectoryValue();
    assert "/.helm/repository" + "/" + CachePath == "/.helm/repository/cache";
    assert "/.helm/repository" + "/" + LocalRepoPath == "/.helm/repository/local";
    [HomePath(), RepositoryDirectory(), CacheDirectory([]), LocalRepoDirectory([])]
  }

  /** For names free of separators, distinct repositories never share a
      cached index file. */
  lemma CacheIndexFileInjective(a: string, b: string)
    requires NoSeparator(a) && NoSeparator(b)
    requires CacheIndexFile(a) == CacheIndexFile(b)
    ensures a == b
  {
    var dir := "/.helm/repository/cache/";
    assert |a| == |b|;
    assert a == CacheIndexFile(a)[|dir|..|dir| + |a|];
    assert b == CacheIndexFile(b)[|dir|..|dir| + |b|];
  }

  /** One `..` climbs out of the cache directory into its parent. */
  lemma ResolveOneUp(file: string)
    requires CleanComponent(file)
    ensures Resolve(CacheComponents(), [".."] + [file]) == RepositoryComponents() + [file]
  {
    ResolveUp(CacheComponents(), [file]);
    assert CacheComponents()[..2] == RepositoryComponents();
  }

  /** A name that starts by climbing one level names a file beside the
      cache directory, not inside it. */
  lemma CacheIndexFileClimbsOut(x: string)
    requires NoSeparator(x)
    ensures CacheIndexFile("../" + x) == RepositoryDirectory() + "/" + x + IndexSuffix
  {
    var file := x + IndexSuffix;
    assert "../" + x + IndexSuffix == "../" + file;
    IndexNameClean(x);
    SplitUp(file);
    SplitNoSeparator(file);
    ResolveOneUp(file);
    CacheIndexFileResolves("../" + x);
    RepositoryDirectoryComponents();
    SlashedAppend(RepositoryComponents(), [file]);
    SlashedOne(file);
    var rd := RepositoryDirectory();
    assert rd + ("/" + file) == rd + "/" + x + IndexSuffix;
  }

  /** Three leading `..` are three components of their own. */
  lemma SplitThreeUp(file: string)
    requires NoSeparator(file)
    ensures Split("../../../" + file) == ["..", "..", "..", file]
  {
    assert "../../../" + file == "../" + ("../" + ("../" + file));
    SplitNoSeparator(file);
    SplitUp(file);
    SplitUp("../" + file);
    SplitUp("../" + ("../" + file));
  }

  /** Three `..` climb out of the three cache directory components. */
  lemma ResolveThreeUp(file: string)
    requires CleanComponent(file)
    ensures Resolve(CacheComponents(), ["..", "..", "..", file]) == [file]
  {
    var cc, up := CacheComponents(), [".."];
    assert ["..", "..", "..", file] == up + (up + (up + [file]));
    assert cc[..2][..1] == cc[..1] && cc[..1][..0] == [];
    ResolveUp(cc, up + (up + [file]));
    ResolveUp(cc[..2], up + [file]);
    ResolveUp(cc[..1], [file]);
    assert Resolve([], [file]) == [file];
  }

  /** A name climbing as many levels as the cache directory is deep resolves
      at the root, outside the chart home altogether. */
  lemma CacheIndexFileEscapesHome(x: string)
    requires NoSeparator(x)
    ensures CacheIndexFile("../../../" + x) == "/" + x + IndexSuffix
  {
    var file := x + IndexSuffix;
    assert "../../../" + x + IndexSuffix == "../../../" + file;
    IndexNameClean(x);
    SplitThreeUp(file);
    ResolveThreeUp(file);
    CacheIndexFileResolves("../../../" + x);
    SlashedOne(file);
  }

  /** A name that climbs back out of its own first component shares the
      cached index file of the name it ends in: "a/../b" and "b" collide. */
  lemma CacheIndexFileCollides(a: string, b: string)
    requires CleanComponent(a) && NoSeparator(b)
    ensures CacheIndexFile(a + "/../" + b) == CacheIndexFile(b)
  {
    var file := b + IndexSuffix;
    assert a + "/../" + b + IndexSuffix == a + ("/" + ("../" + file));
    SplitNoSeparator(a);
    SplitUp(file);
    SplitAppend(a, "../" + file);
    CacheIndexFileResolves(a + "/../" + b);
    CacheIndexFileResolves(b);
    var cc := CacheComponents();
    ResolveAppend(cc, [a], [".."] + Split(file));
    assert Resolve(cc, [a]) == cc + [a];
    ResolveUp(cc + [a], Split(file));
    assert (cc + [a])[..|cc|] == cc;
  }

  /** The cache and local directories are two different children of the
      repository directory. */
  lemma CacheAndLocalAreSiblings()
    ensures CacheDirectory([]) == RepositoryDirectory() + "/" + CachePath
    ensures LocalRepoDirectory([]) == RepositoryDirectory() + "/" + LocalRepoPath
    ensures CleanComponent(CachePath) && CleanComponent(LocalRepoPath) && CachePath != LocalRepoPath
    ensures CacheDirectory([]) != LocalRepoDirectory([])
  {
    assert CleanParts([]);
    assert CacheDirectory([])[|RepositoryDirectory()| + 1] != LocalRepoDirectory([])[|RepositoryDirectory()| + 1];
  }

  /** No cached index file is the repositories file, whatever the name, so
      clearing a cache never deletes the registry. */
  lemma RepositoriesFileIsNoCacheFile(name: string)
    ensures RepositoriesFile() != CacheIndexFile(name)
  {
    var r := RepositoriesFile();
    var c := CacheIndexFile(name);
    assert r[|r| - |IndexSuffix|] == 't';
    assert c[|c| - |IndexSuffix|] == '-';
  }
}
