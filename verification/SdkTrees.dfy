/** Regenerating the SDK trees: the view of a tree's generated files, the comparison of two views,
    the replacement of one by the other on disk, and the removal of build artifacts. */
module SdkTrees {
  import opened Wrappers
  import opened Sorting

  /** A path below a tree's root, by its parts; the root itself is the empty path. */
  type Path = seq<string>

  const MAINTAINED_ROOT_FILES: set<string> := {".gitattributes", ".gitignore", "LICENSE", "README.md"}
  const MAINTAINED_ROOT_DIRECTORIES: set<string> := {"crds"}
  const ARTIFACT_DIRECTORY_NAMES: set<string> := {"build", "dist", "__pycache__"}

  predicate EndsWith(s: string, suffix: string) { |suffix| <= |s| && s[|s| - |suffix|..] == suffix }

  predicate IsEggInfo(name: string) { EndsWith(name, ".egg-info") }
  predicate IsByteCode(name: string) { EndsWith(name, ".pyc") || EndsWith(name, ".pyo") }

  function NameOf(p: Path): string
    requires p != []
  {
    p[|p| - 1]
  }

  /** The files that the generator owns. */
  predicate Generated(p: Path) {
    && p != []
    && !(|p| == 1 && NameOf(p) in MAINTAINED_ROOT_FILES)
    && p[0] !in MAINTAINED_ROOT_DIRECTORIES
    && (forall i :: 0 <= i < |p| ==> p[i] !in ARTIFACT_DIRECTORY_NAMES)
    && (forall i :: 0 <= i < |p| ==> !IsEggInfo(p[i]))
    && !IsByteCode(NameOf(p))
  }

  /** A name that marks what is below it as build output. */
  predicate IsBuildName(name: string) {
    || name == "build" || name == "dist" || name == "__pycache__"
    || (9 <= |name| && name[|name| - 9..] == ".egg-info")
  }

  predicate IsCompiled(name: string) { 4 <= |name| && (name[|name| - 4..] == ".pyc" || name[|name| - 4..] == ".pyo") }

  /** The files that are no business of the generator: the CRD sources, four files of the root, whatever
      has a part named like build output, and compiled modules. */
  predicate Kept(p: Path) {
    || p == [] || p[0] == "crds"
    || p == [".gitattributes"] || p == [".gitignore"] || p == ["LICENSE"] || p == ["README.md"]
    || (exists i :: 0 <= i < |p| && IsBuildName(p[i]))
    || IsCompiled(p[|p| - 1])
  }

  lemma BuildNames(name: string)
    ensures IsBuildName(name) <==> name in ARTIFACT_DIRECTORY_NAMES || IsEggInfo(name)
    ensures IsCompiled(name) <==> IsByteCode(name)
  {
  }

  lemma GeneratedAreNotKept(p: Path)
    ensures Generated(p) <==> !Kept(p)
  {
    forall name ensures IsBuildName(name) <==> name in ARTIFACT_DIRECTORY_NAMES || IsEggInfo(name) {
      BuildNames(name);
    }
    if p != [] {
      BuildNames(NameOf(p));
      assert |p| == 1 ==> p == [NameOf(p)];
    }
    hide IsBuildName, IsEggInfo, IsCompiled, IsByteCode;
  }

  type Files = map<Path, seq<bv8>>

  function View(files: Files): Files { map p | p in files && Generated(p) :: files[p] }

  /* ----- Comparing ----- */

  datatype Difference = MissingGenerated(path: Path) | UntrackedGenerated(path: Path) | ContentDiffers(path: Path)

  function Report(missing: seq<Path>, untracked: seq<Path>, differing: seq<Path>): (r: seq<Difference>)
    ensures |r| == |missing| + |untracked| + |differing|
  {
    seq(|missing|, i requires 0 <= i < |missing| => MissingGenerated(missing[i]))
    + seq(|untracked|, i requires 0 <= i < |untracked| => UntrackedGenerated(untracked[i]))
    + seq(|differing|, i requires 0 <= i < |differing| => ContentDiffers(differing[i]))
  }

  ghost function Differences(generated: Files, tracked: Files): seq<Difference> {
    Report(
      SortedSet(PathLe, tracked.Keys - generated.Keys),
      SortedSet(PathLe, generated.Keys - tracked.Keys),
      SortedSet(PathLe, Differing(generated, tracked)))
  }

  function Differing(generated: Files, tracked: Files): set<Path> {
    set p | p in generated && p in tracked && generated[p] != tracked[p]
  }

  lemma SortedSetSize(s: set<Path>)
    ensures |SortedSet(PathLe, s)| == |s|
  {
    assert |multiset(SortedSet(PathLe, s))| == |multiset(s)|;
  }

  /** Nothing is reported exactly when the two views are equal. */
  lemma NoDifferenceMeansEqual(generated: Files, tracked: Files)
    ensures Differences(generated, tracked) == [] <==> generated == tracked
  {
    SortedSetSize(tracked.Keys - generated.Keys);
    SortedSetSize(generated.Keys - tracked.Keys);
    SortedSetSize(Differing(generated, tracked));
    hide SortedSet, Differing;
    if Differences(generated, tracked) == [] {
      assert tracked.Keys - generated.Keys == {} && generated.Keys - tracked.Keys == {};
      assert Differing(generated, tracked) == {};
      SameKeysAndValues(generated, tracked);
    } else if generated == tracked {
      NothingDiffers(tracked);
    }
  }

  /** What a report means, read off the two views. */
  predicate IsDifference(generated: Files, tracked: Files, d: Difference) {
    match d
    case MissingGenerated(p) => p in tracked && p !in generated
    case UntrackedGenerated(p) => p in generated && p !in tracked
    case ContentDiffers(p) => p in generated && p in tracked && generated[p] != tracked[p]
  }

  predicate KindBefore(a: Difference, b: Difference) {
    (a.MissingGenerated? && !b.MissingGenerated?) || (a.UntrackedGenerated? && b.ContentDiffers?)
  }

  predicate SameKind(a: Difference, b: Difference) { !KindBefore(a, b) && !KindBefore(b, a) }

  lemma ReportAt(m: seq<Path>, u: seq<Path>, c: seq<Path>, i: nat)
    requires i < |m| + |u| + |c|
    ensures Report(m, u, c)[i] == if i < |m| then MissingGenerated(m[i])
                                  else if i < |m| + |u| then UntrackedGenerated(u[i - |m|])
                                  else ContentDiffers(c[i - |m| - |u|])
  {
  }

  lemma InReport(m: seq<Path>, u: seq<Path>, c: seq<Path>, d: Difference)
    ensures d in Report(m, u, c) <==> match d
            case MissingGenerated(p) => p in m
            case UntrackedGenerated(p) => p in u
            case ContentDiffers(p) => p in c
  {
    hide Report;
    if i :| 0 <= i < |Report(m, u, c)| && Report(m, u, c)[i] == d { ReportAt(m, u, c, i); }
    match d
    case MissingGenerated(p) => if i :| 0 <= i < |m| && m[i] == p { ReportAt(m, u, c, i); }
    case UntrackedGenerated(p) => if i :| 0 <= i < |u| && u[i] == p { ReportAt(m, u, c, |m| + i); }
    case ContentDiffers(p) => if i :| 0 <= i < |c| && c[i] == p { ReportAt(m, u, c, |m| + |u| + i); }
  }

  lemma InSortedSet(s: set<Path>, p: Path)
    ensures p in SortedSet(PathLe, s) <==> p in s
  {
    assert p in multiset(SortedSet(PathLe, s)) <==> p in multiset(s);
  }

  /** Every difference is reported, and nothing else is. */
  lemma DifferencesAreExact(generated: Files, tracked: Files, d: Difference)
    ensures d in Differences(generated, tracked) <==> IsDifference(generated, tracked, d)
  {
    hide SortedSet, Report;
    var missing, untracked := tracked.Keys - generated.Keys, generated.Keys - tracked.Keys;
    var differing := Differing(generated, tracked);
    InSortedSet(missing, d.path);
    InSortedSet(untracked, d.path);
    InSortedSet(differing, d.path);
    InReport(SortedSet(PathLe, missing), SortedSet(PathLe, untracked), SortedSet(PathLe, differing), d);
  }

  /** The reports of a kind are together, and each kind is sorted by path without repetitions. */
  lemma DifferencesAreSorted(generated: Files, tracked: Files, i: nat, j: nat)
    requires i < j < |Differences(generated, tracked)|
    ensures var a, b := Differences(generated, tracked)[i], Differences(generated, tracked)[j];
            KindBefore(a, b) || (SameKind(a, b) && PathLe(a.path, b.path) && a.path != b.path)
  {
    hide SortedSet, Report, PathLe, Differing;
    PathOrder();
    var missing, untracked := tracked.Keys - generated.Keys, generated.Keys - tracked.Keys;
    var differing := Differing(generated, tracked);
    SortedSetIsSorted(PathLe, missing);
    SortedSetIsSorted(PathLe, untracked);
    SortedSetIsSorted(PathLe, differing);
    ReportAt(SortedSet(PathLe, missing), SortedSet(PathLe, untracked), SortedSet(PathLe, differing), i);
    ReportAt(SortedSet(PathLe, missing), SortedSet(PathLe, untracked), SortedSet(PathLe, differing), j);
  }

  lemma NothingDiffers(files: Files)
    ensures Differing(files, files) == {}
  {
  }

  lemma SameKeysAndValues(a: Files, b: Files)
    requires b.Keys - a.Keys == {} && a.Keys - b.Keys == {} && Differing(a, b) == {}
    ensures a == b
  {
    assert forall p :: p in a ==> p in a.Keys - b.Keys || p in b;
    assert forall p :: p in b ==> p in b.Keys - a.Keys || p in a;
    forall p | p in a ensures a[p] == b[p] { assert p !in Differing(a, b); }
  }

  method SortedPaths(s: set<Path>) returns (r: seq<Path>)
    ensures r == SortedSet(PathLe, s)
  {
    hide Sort, SortedSet;
    var listed: seq<Path>, todo := [], s;
    assert Elements(listed) == {};
    hide Elements, Distinct;
    while todo != {}
      invariant todo <= s && Elements(listed) == s - todo && Distinct(listed)
      decreases todo
    {
      var p :| p in todo;
      AppendDistinct(listed, p);
      listed := listed + [p];
      todo := todo - {p};
    }
    assert Elements(listed) == s;
    PathOrder();
    SortOfDistinct(PathLe, listed);
    r := Sort(PathLe, listed);
  }

  method CompareTrees(generated: Files, tracked: Files) returns (differences: seq<Difference>)
    ensures differences == Differences(View(generated), View(tracked))
  {
    hide View, Report, Differing, SortedSet;
    var g, t := View(generated), View(tracked);
    var missing := SortedPaths(t.Keys - g.Keys);
    var untracked := SortedPaths(g.Keys - t.Keys);
    var differing := SortedPaths(Differing(g, t));
    differences := Report(missing, untracked, differing);
  }

  /* ----- A tree on disk ----- */

  ghost predicate IsTree(files: Files, dirs: set<Path>) {
    && [] in dirs
    && files.Keys !! dirs
    && forall p, q :: (p in files || p in dirs) && q < p ==> q in dirs
  }

  /** The tracked files that the generator no longer makes. */
  ghost function Stale(generated: Files, files: Files): set<Path> { View(files).Keys - View(generated).Keys }

  /** Something that the replacement leaves in place stands where a generated file, or one of its
      directories, has to go. */
  ghost predicate Blocked(generated: Files, files: Files, dirs: set<Path>, p: Path) {
    p in dirs || exists q :: q < p && q in files && q !in Stale(generated, files)
  }

  ghost predicate Replaceable(generated: Files, files: Files, dirs: set<Path>) {
    forall p :: p in View(generated) ==> !Blocked(generated, files, dirs, p)
  }

  ghost function Prefixes(p: Path): set<Path> { set i | 0 <= i < |p| :: p[..i] }

  lemma PrefixesAre(p: Path, q: Path)
    ensures q in Prefixes(p) <==> q < p
  {
    if q < p { assert q == p[..|q|]; }
  }

  class Tree {
    var files: Files
    var dirs: set<Path>

    constructor (files: Files, dirs: set<Path>)
      requires IsTree(files, dirs)
      ensures this.files == files && this.dirs == dirs
    {
      this.files, this.dirs := files, dirs;
    }

    /** `mkdir(parents = True, exist_ok = True)` for the directory of a path. */
    method MakeParents(p: Path) returns (ok: bool)
      requires p != []
      modifies this`dirs
      ensures ok <==> forall q :: q < p ==> q !in files
      ensures ok ==> dirs == old(dirs) + Prefixes(p)
    {
      ghost var made: set<Path> := {};
      for i := 0 to |p|
        invariant made == set k | 0 <= k < i :: p[..k]
        invariant dirs == old(dirs) + made
        invariant forall k :: 0 <= k < i ==> p[..k] !in files
      {
        if p[..i] in files {
          assert p[..i] < p;
          return false;
        }
        dirs := dirs + {p[..i]};
        made := made + {p[..i]};
      }
      forall q | q < p ensures q !in files { assert q == p[..|q|]; }
      return true;
    }

    method Unlink(p: Path) returns (ok: bool)
      modifies this`files
      ensures ok <==> p in old(files)
      ensures files == old(files) - {p}
    {
      ok := p in files;
      if ok { files := files - {p}; }
    }

    method WriteBytes(p: Path, content: seq<bv8>) returns (ok: bool)
      requires p !in dirs ==> forall q :: q < p ==> q in dirs
      modifies this`files
      ensures ok <==> p !in dirs
      ensures files == if ok then old(files)[p := content] else old(files)
    {
      ok := p !in dirs;
      if ok { files := files[p := content]; }
    }

    method RemoveStale(stale: set<Path>)
      requires stale <= files.Keys
      modifies this`files
      ensures files == old(files) - stale
    {
      var todo := stale;
      while todo != {}
        invariant todo <= stale && files == old(files) - (stale - todo)
        decreases todo
      {
        var p :| p in todo;
        var ok := Unlink(p);
        todo := todo - {p};
      }
    }

    /** `rmtree` or `unlink`, whichever the path needs when its turn comes; a path that is already
        gone is an error. */
    method Remove(p: Path) returns (ok: bool)
      requires IsTree(files, dirs)
      modifies this
      ensures ok <==> p in old(files) || p in old(dirs)
      ensures !ok ==> files == old(files) && dirs == old(dirs)
      ensures ok ==> files == FilesWithout(old(files), {p}) && dirs == DirsWithout(old(dirs), {p})
    {
      if p in dirs {
        files := map q | q in files && !(p <= q) :: files[q];
        dirs := set q | q in dirs && !(p <= q);
        ok := true;
      } else {
        ok := p in files;
        forall q | (q in files || q in dirs) && p <= q ensures q == p || p < q { PrefixOrEqual(p, q); }
        if ok { files := files - {p}; }
      }
      CoveredByOne(p);
    }

    /** The removals, in order, until one of the paths is already gone. */
    method RemoveInOrder(list: seq<Path>) returns (ok: bool, ghost n: nat)
      requires IsTree(files, dirs) && Distinct(list)
      requires forall p :: p in list ==> p != [] && (p in files || p in dirs)
      modifies this
      ensures n <= |list| && (ok <==> n == |list|)
      ensures files == FilesWithout(old(files), Upto(list, n)) && dirs == DirsWithout(old(dirs), Upto(list, n))
      ensures forall b :: 0 <= b < n ==> !Covered(Upto(list, b), list[b])
      ensures !ok ==> Covered(Upto(list, n), list[n])
    {
      hide View, Artifact, FilesWithout, DirsWithout, IsTree, Covered, Distinct;
      ghost var start, startDirs := files, dirs;
      NothingRemoved(files, dirs);
      assert Upto(list, 0) == {};
      n := 0;
      for i := 0 to |list|
        invariant n == i
        invariant files == FilesWithout(start, Upto(list, i)) && dirs == DirsWithout(startDirs, Upto(list, i))
        invariant IsTree(files, dirs)
        invariant forall b :: 0 <= b < i ==> !Covered(Upto(list, b), list[b])
      {
        PresentUnlessCovered(start, startDirs, Upto(list, i), list[i]);
        RemovalKeepsTree(files, dirs, {list[i]});
        ok := Remove(list[i]);
        if !ok { return; }
        RemoveMore(start, startDirs, Upto(list, i), list[i]);
        assert list[..i + 1] == list[..i] + [list[i]];
        assert Upto(list, i + 1) == Upto(list, i) + {list[i]};
        n := n + 1;
      }
      ok := true;
    }

    /** Removes the artifacts in sorted order, or only reports them; raises when one is gone. */
    method CleanArtifacts(root: Path, check: bool) returns (r: Option<bool>)
      requires IsTree(files, dirs)
      modifies this
      ensures View(files) == old(View(files))
      ensures Keeps(old(files), files, old(Artifacts(root, files, dirs)))
      ensures check ==> files == old(files) && dirs == old(dirs) && r == Some(Artifacts(root, files, dirs) == {})
      ensures !check ==> (r.Some? <==> Unnested(old(Artifacts(root, files, dirs))))
      ensures !check && r.Some? ==>
                && r.value == (old(Artifacts(root, files, dirs)) == {})
                && files == FilesWithout(old(files), old(Artifacts(root, files, dirs)))
                && dirs == DirsWithout(old(dirs), old(Artifacts(root, files, dirs)))
                && Artifacts(root, files, dirs) == {}
                && (Artifacts([], files, dirs) == {} <==> Searched(root) || old(Artifacts([], files, dirs)) == {})
    {
      hide View, Artifact, FilesWithout, DirsWithout, IsTree, Covered, SortedSet, Sorted, Distinct, Searched;
      ArtifactsOfRoot(root, files, dirs);
      var artifacts := Artifacts(root, files, dirs);
      var list := SortedPaths(artifacts);
      PathOrder();
      SortedSetIsSorted(PathLe, artifacts);
      forall p | p in list ensures p != [] && (p in files || p in dirs) {
        assert p in Elements(list);
        ArtifactIsThere(root, files, dirs, p);
      }
      hide Artifacts, Unnested, Keeps;
      KeepsAll(files, artifacts);
      if check { return Some(artifacts == {}); }
      ghost var start, startDirs := files, dirs;
      var ok, n := RemoveInOrder(list);
      assert Upto(list, n) <= Elements(list);
      ArtifactsAreNotInView(root, start, startDirs, Upto(list, n));
      RemovalKeeps(start, Upto(list, n), artifacts);
      if !ok {
        CoveredMeansNested(list, n);
        return None;
      }
      NestedMeansCovered(list);
      assert list[..n] == list;
      assert Upto(list, n) == artifacts;
      NoArtifactLeft(root, start, startDirs);
      ArtifactsOfRoot(root, files, dirs);
      if artifacts == {} { NothingRemoved(start, startDirs); }
      return Some(artifacts == {});
    }

    /** Writes one file and the directories above it. */
    method WriteOne(p: Path, content: seq<bv8>) returns (ok: bool)
      requires p != []
      modifies this
      ensures ok <==> !old(Obstructed(files, dirs, p))
      ensures ok ==> files == old(files)[p := content] && dirs == old(dirs) + Prefixes(p)
      ensures !ok ==> files == old(files)
    {
      forall q ensures q in Prefixes(p) <==> q < p { PrefixesAre(p, q); }
      hide Prefixes;
      ok := MakeParents(p);
      if ok { ok := WriteBytes(p, content); }
    }

    /** Makes the generated files of this tree those of another; on a blocked path it stops. */
    method ReplaceGeneratedFiles(generated: Files) returns (ok: bool)
      requires IsTree(files, dirs) && IsFileSet(generated)
      modifies this
      ensures ok <==> old(Replaceable(generated, files, dirs))
      ensures ok ==> View(files) == View(generated)
      ensures SameOutsideView(old(files), files)
      ensures forall p :: Kept(p) ==> SameAt(old(files), files, p)
      ensures ok ==> forall p :: !Kept(p) ==> SameAt(generated, files, p)
      ensures ok ==> IsTree(files, dirs)
    {
      hide View, Blocked, IsTree, IsFileSet, Obstructed, Progress, SameOutsideView, Kept, SameAt;
      var wanted := View(generated);
      var stale := View(files).Keys - wanted.Keys;
      ghost var start, startDirs := files, dirs;
      ViewIsPart(files);
      RemoveStale(stale);
      ProgressStart(generated, start, startDirs);
      var todo := wanted.Keys;
      ghost var done: set<Path> := {};
      while todo != {}
        invariant todo <= wanted.Keys && done == wanted.Keys - todo
        invariant Progress(generated, start, startDirs, files, dirs, done)
        invariant forall p :: p in done ==> !Blocked(generated, start, startDirs, p)
        decreases todo
      {
        var p :| p in todo;
        BlockedNow(generated, start, startDirs, files, dirs, done, p);
        ghost var filesBefore, dirsBefore := files, dirs;
        ok := WriteOne(p, wanted[p]);
        if !ok {
          ProgressKeepsOutside(generated, start, startDirs, files, dirsBefore, done);
          KeptStay(start, files);
          return;
        }
        ProgressStep(generated, start, startDirs, filesBefore, dirsBefore, done, p);
        todo := todo - {p};
        done := done + {p};
      }
      assert done == View(generated).Keys;
      assert Replaceable(generated, start, startDirs);
      Finished(generated, start, startDirs, files, dirs);
      KeptStay(start, files);
      OthersAreGenerated(generated, files);
      ok := true;
    }
  }

  lemma ViewIsPart(files: Files)
    ensures View(files).Keys <= files.Keys
  {
  }

  lemma ProgressStart(generated: Files, start: Files, startDirs: set<Path>)
    ensures Progress(generated, start, startDirs, start - Stale(generated, start), startDirs, {})
  {
    hide View;
    assert AllPrefixes({}) == {};
  }

  /* ----- Build artifacts ----- */

  /** The artifacts of a tree. The ancestors that are looked at include those of the root itself. */
  predicate Artifact(root: Path, files: Files, dirs: set<Path>, p: Path) {
    && p != []
    && (forall i :: 0 <= i < |root| ==> root[i] !in ARTIFACT_DIRECTORY_NAMES)
    && (forall i :: 0 <= i < |p| - 1 ==> p[i] !in ARTIFACT_DIRECTORY_NAMES)
    && (if p in dirs then NameOf(p) in ARTIFACT_DIRECTORY_NAMES || IsEggInfo(NameOf(p))
        else p in files && IsByteCode(NameOf(p)))
  }

  function Artifacts(root: Path, files: Files, dirs: set<Path>): set<Path> {
    set p | p in files.Keys + dirs && Artifact(root, files, dirs, p)
  }

  /** No artifact lies inside another one. */
  ghost predicate Unnested(artifacts: set<Path>) {
    forall p, q :: p in artifacts && q in artifacts ==> !(p < q)
  }

  /** What is left once some paths, and all below them, are removed. */
  predicate Covered(removed: set<Path>, p: Path) { exists q :: q in removed && q <= p }

  function FilesWithout(files: Files, removed: set<Path>): Files {
    map p | p in files && !Covered(removed, p) :: files[p]
  }

  function DirsWithout(dirs: set<Path>, removed: set<Path>): set<Path> { set p | p in dirs && !Covered(removed, p) }

  lemma {:induction false} ShorterSortsFirst(q: Path, p: Path)
    requires q < p
    ensures PathLe(q, p) && !PathLe(p, q)
  {
    if q != [] { ShorterSortsFirst(q[1..], p[1..]); }
  }

  lemma CoveredByOne(q: Path)
    ensures forall p :: Covered({q}, p) <==> q <= p
  {
  }

  lemma NothingRemoved(files: Files, dirs: set<Path>)
    ensures FilesWithout(files, {}) == files && DirsWithout(dirs, {}) == dirs
  {
  }

  function Upto(list: seq<Path>, k: nat): set<Path>
    requires k <= |list|
  {
    set p | p in list[..k]
  }

  lemma RemoveMore(files: Files, dirs: set<Path>, removed: set<Path>, p: Path)
    ensures FilesWithout(FilesWithout(files, removed), {p}) == FilesWithout(files, removed + {p})
    ensures DirsWithout(DirsWithout(dirs, removed), {p}) == DirsWithout(dirs, removed + {p})
  {
    forall q ensures Covered(removed + {p}, q) <==> Covered(removed, q) || Covered({p}, q) {
      if Covered(removed, q) { var r :| r in removed && r <= q; assert r in removed + {p}; }
      if Covered({p}, q) { assert p in removed + {p}; }
    }
    hide Covered;
  }

  lemma CoveredBelow(removed: set<Path>, p: Path, q: Path)
    requires Covered(removed, q) && q <= p
    ensures Covered(removed, p)
  {
    var r :| r in removed && r <= q;
    assert r <= p;
  }

  lemma RemovalKeepsTree(files: Files, dirs: set<Path>, removed: set<Path>)
    requires IsTree(files, dirs) && [] !in removed
    ensures IsTree(FilesWithout(files, removed), DirsWithout(dirs, removed))
  {
    forall p, q | !Covered(removed, p) && q < p ensures !Covered(removed, q) {
      if Covered(removed, q) { CoveredBelow(removed, p, q); }
    }
    assert !Covered(removed, []);
    hide Covered;
  }

  lemma ArtifactIsThere(root: Path, files: Files, dirs: set<Path>, p: Path)
    requires p in Artifacts(root, files, dirs)
    ensures p != [] && (p in files || p in dirs)
  {
  }

  lemma PresentUnlessCovered(files: Files, dirs: set<Path>, removed: set<Path>, p: Path)
    requires p in files || p in dirs
    ensures p in FilesWithout(files, removed) || p in DirsWithout(dirs, removed) <==> !Covered(removed, p)
  {
  }

  lemma PrefixOrEqual(p: Path, q: Path)
    requires p <= q
    ensures p == q || p < q
  {
    assert p == q[..|p|];
    assert q[..|q|] == q;
  }

  lemma CoveredMeansNested(list: seq<Path>, i: nat)
    requires i < |list| && Distinct(list) && Covered(Upto(list, i), list[i])
    ensures !Unnested(Elements(list))
  {
    var q :| q in Upto(list, i) && q <= list[i];
    var a :| 0 <= a < i && list[a] == q;
    PrefixOrEqual(q, list[i]);
    assert list[a] in Elements(list) && list[i] in Elements(list);
  }

  lemma EarlierCovers(list: seq<Path>, a: nat, b: nat)
    requires a < b < |list| && list[a] <= list[b]
    ensures Covered(Upto(list, b), list[b])
  {
    assert list[..b][a] == list[a];
    assert list[a] in Upto(list, b);
  }

  lemma NoneStandsAbove(list: seq<Path>, a: nat, b: nat)
    requires Sorted(PathLe, list) && a < |list| && b < |list| && !Covered(Upto(list, b), list[b])
    ensures !(list[a] < list[b])
  {
    hide Covered, Upto;
    if list[a] < list[b] {
      ShorterSortsFirst(list[a], list[b]);
      EarlierCovers(list, a, b);
    }
  }

  lemma NestedMeansCovered(list: seq<Path>)
    requires Sorted(PathLe, list)
    requires forall b :: 0 <= b < |list| ==> !Covered(Upto(list, b), list[b])
    ensures Unnested(Elements(list))
  {
    hide Covered, Upto, Sorted;
    forall p, q | p in Elements(list) && q in Elements(list) ensures !(p < q) {
      var a :| 0 <= a < |list| && list[a] == p;
      var b :| 0 <= b < |list| && list[b] == q;
      NoneStandsAbove(list, a, b);
    }
  }

  /** After a removal of every artifact there is none. */
  lemma NoArtifactLeft(root: Path, files: Files, dirs: set<Path>)
    requires IsTree(files, dirs)
    ensures var all := Artifacts(root, files, dirs);
            Artifacts(root, FilesWithout(files, all), DirsWithout(dirs, all)) == {}
  {
    var all := Artifacts(root, files, dirs);
    forall p ensures p !in Artifacts(root, FilesWithout(files, all), DirsWithout(dirs, all)) {
      if p in all { assert Covered(all, p); }
    }
  }

  /** No directory on the way to the root, nor the root itself, bears the name of a build directory. */
  predicate Searched(root: Path) { forall i :: 0 <= i < |root| ==> root[i] !in ARTIFACT_DIRECTORY_NAMES }

  /** What a clean tree has none of: directories of build output and compiled modules. */
  predicate Discarded(files: Files, dirs: set<Path>, p: Path) {
    p != [] && if p in dirs then IsBuildName(NameOf(p)) else p in files && IsCompiled(NameOf(p))
  }

  /** A tree that is looked into has no artifact exactly when it has neither; and what is removed with
      the artifacts is a compiled module, or below build output. */
  lemma {:induction false} CleanMeansNothingDiscarded(root: Path, files: Files, dirs: set<Path>)
    requires IsTree(files, dirs)
    requires forall i :: 0 <= i < |root| ==> root[i] != "build" && root[i] != "dist" && root[i] != "__pycache__"
    ensures Artifacts(root, files, dirs) == {} <==> forall p :: !Discarded(files, dirs, p)
  {
    assert Searched(root);
    forall p | Discarded(files, dirs, p) ensures Artifacts(root, files, dirs) != {} {
      DiscardedHasArtifact(root, files, dirs, p, 0);
    }
    hide Searched, IsTree;
    if p :| p in Artifacts(root, files, dirs) {
      BuildNames(NameOf(p));
      assert Discarded(files, dirs, p);
    }
  }

  lemma {:induction false} DiscardedHasArtifact(root: Path, files: Files, dirs: set<Path>, p: Path, k: nat)
    requires IsTree(files, dirs) && Searched(root) && Discarded(files, dirs, p) && k < |p|
    requires forall i :: 0 <= i < k ==> p[i] !in ARTIFACT_DIRECTORY_NAMES
    ensures Artifacts(root, files, dirs) != {}
    decreases |p| - k
  {
    hide IsBuildName, IsCompiled, IsEggInfo, IsByteCode;
    BuildNames(NameOf(p));
    if k == |p| - 1 {
      assert p in Artifacts(root, files, dirs);
    } else if p[k] in ARTIFACT_DIRECTORY_NAMES {
      var q := p[..k + 1];
      assert q < p && NameOf(q) == p[k];
      assert q in Artifacts(root, files, dirs);
    } else {
      DiscardedHasArtifact(root, files, dirs, p, k + 1);
    }
  }

  /** An `.egg-info` directory with something in it that a clean tree has none of, and no directory of
      another kind of build output on the way. */
  ghost predicate NestedIn(files: Files, dirs: set<Path>, p: Path, q: Path) {
    && p != [] && p < q && p in dirs && EndsWith(NameOf(p), ".egg-info") && Discarded(files, dirs, q)
    && forall i :: 0 <= i < |q| - 1 ==> q[i] != "build" && q[i] != "dist" && q[i] != "__pycache__"
  }

  /** So a tree that is looked into cannot be cleaned exactly when it has such a directory. */
  lemma NestedExactly(root: Path, files: Files, dirs: set<Path>)
    requires IsTree(files, dirs)
    requires forall i :: 0 <= i < |root| ==> root[i] != "build" && root[i] != "dist" && root[i] != "__pycache__"
    ensures Unnested(Artifacts(root, files, dirs)) <==> !exists p, q :: NestedIn(files, dirs, p, q)
  {
    hide EndsWith, IsBuildName, IsCompiled, IsByteCode;
    if p, q :| NestedIn(files, dirs, p, q) {
      assert NameOf(p) == q[|p| - 1];
      BuildNames(NameOf(q));
      assert p in Artifacts(root, files, dirs) && q in Artifacts(root, files, dirs);
    }
    if p, q :| p in Artifacts(root, files, dirs) && q in Artifacts(root, files, dirs) && p < q {
      assert NameOf(p) == q[|p| - 1];
      BuildNames(NameOf(q));
      assert NestedIn(files, dirs, p, q);
    }
  }

  lemma RemovedAreDiscarded(root: Path, files: Files, dirs: set<Path>, p: Path)
    requires IsTree(files, dirs) && p in files && Covered(Artifacts(root, files, dirs), p)
    ensures IsCompiled(NameOf(p)) || exists i :: 0 <= i < |p| - 1 && IsBuildName(p[i])
  {
    var q :| q in Artifacts(root, files, dirs) && q <= p;
    BuildNames(NameOf(q));
    hide IsBuildName, IsCompiled, IsEggInfo, IsByteCode;
    PrefixOrEqual(q, p);
    assert NameOf(q) == p[|q| - 1];
    if q == p { assert p !in dirs; }
  }

  /** What counts as an artifact does not depend on where the tree is, except that below a build
      directory nothing does. */
  lemma ArtifactsOfRoot(root: Path, files: Files, dirs: set<Path>)
    ensures Artifacts(root, files, dirs) == if Searched(root) then Artifacts([], files, dirs) else {}
  {
    forall p ensures Artifact(root, files, dirs, p) <==> Searched(root) && Artifact([], files, dirs, p) { }
  }

  /** Removing artifacts leaves the view alone, since no generated file lies at or below one. */
  lemma ArtifactsAreNotInView(root: Path, files: Files, dirs: set<Path>, removed: set<Path>)
    requires IsTree(files, dirs) && removed <= Artifacts(root, files, dirs)
    ensures View(FilesWithout(files, removed)) == View(files)
  {
    hide Artifacts, Generated;
    forall p | p in files && Generated(p) ensures !Covered(removed, p) {
      forall q | q in removed ensures !(q <= p) { BelowArtifact(root, files, dirs, q, p); }
    }
  }

  /** No file is lost but the artifacts and what is below them, and none comes or changes. */
  ghost predicate Keeps(before: Files, after: Files, artifacts: set<Path>) {
    && (forall p :: p in before && !Covered(artifacts, p) ==> p in after)
    && forall p :: p in after ==> p in before && after[p] == before[p]
  }

  lemma KeepsAll(files: Files, artifacts: set<Path>)
    ensures Keeps(files, files, artifacts)
  {
  }

  lemma RemovalKeeps(files: Files, removed: set<Path>, artifacts: set<Path>)
    requires removed <= artifacts
    ensures Keeps(files, FilesWithout(files, removed), artifacts)
  {
    forall p | !Covered(artifacts, p) ensures !Covered(removed, p) { }
  }

  /** A byte-code file inside an `.egg-info` directory is one artifact inside another, so that a tree
      with it cannot be cleaned. */
  lemma ByteCodeInEggInfo(root: Path, files: Files, dirs: set<Path>, package: string, name: string)
    requires Searched(root)
    requires [package + ".egg-info"] in dirs && [package + ".egg-info", name + ".pyc"] in files
    requires [package + ".egg-info", name + ".pyc"] !in dirs
    ensures !Unnested(Artifacts(root, files, dirs))
  {
    var outer, inner := [package + ".egg-info"], [package + ".egg-info", name + ".pyc"];
    SuffixEnds(package, ".egg-info");
    SuffixEnds(name, ".pyc");
    EggInfoIsNoBuildDirectory(package);
    hide EndsWith;
    assert NameOf(outer) == outer[0] == inner[0] && NameOf(inner) == inner[1];
    assert Artifact(root, files, dirs, outer);
    assert Artifact(root, files, dirs, inner);
    assert outer in Artifacts(root, files, dirs) && inner in Artifacts(root, files, dirs) && outer < inner;
  }

  lemma EggInfoIsNoBuildDirectory(package: string)
    ensures package + ".egg-info" !in ARTIFACT_DIRECTORY_NAMES
  {
    var name := package + ".egg-info";
    assert 9 <= |name| && name[|name| - 1] == 'o';
    assert |"build"| == 5 && |"dist"| == 4 && |"__pycache__"| == 11 && "__pycache__"[10] == '_';
  }

  lemma SuffixEnds(s: string, suffix: string)
    ensures EndsWith(s + suffix, suffix)
  {
  }

  lemma BelowArtifact(root: Path, files: Files, dirs: set<Path>, q: Path, p: Path)
    requires IsTree(files, dirs) && q in Artifacts(root, files, dirs) && p in files
    ensures q <= p ==> !Generated(p)
  {
    if q <= p {
      PrefixOrEqual(q, p);
      assert NameOf(q) == p[|q| - 1];
    }
  }

  ghost predicate IsFileSet(files: Files) { exists dirs :: IsTree(files, dirs) }

  /** Maintained files, artifacts and everything else outside the view are as they were. */
  ghost predicate SameOutsideView(before: Files, after: Files) {
    forall p :: !Generated(p) ==> (p in after <==> p in before) && (p in after ==> after[p] == before[p])
  }

  /** One path is a file of both with one content, or of neither. */
  predicate SameAt(a: Files, b: Files, p: Path) { (p in a <==> p in b) && (p in a && p in b ==> a[p] == b[p]) }

  lemma KeptStay(before: Files, after: Files)
    requires SameOutsideView(before, after)
    ensures forall p :: Kept(p) ==> SameAt(before, after, p)
  {
    forall p | Kept(p) ensures SameAt(before, after, p) { GeneratedAreNotKept(p); }
  }

  lemma OthersAreGenerated(generated: Files, files: Files)
    requires View(files) == View(generated)
    ensures forall p :: !Kept(p) ==> SameAt(generated, files, p)
  {
    hide Generated, Kept;
    forall p | !Kept(p) ensures SameAt(generated, files, p) {
      GeneratedAreNotKept(p);
      assert p in files <==> p in View(files);
      assert p in generated <==> p in View(generated);
      assert p in files ==> View(files)[p] == files[p];
    }
  }

  ghost predicate Obstructed(files: Files, dirs: set<Path>, p: Path) { p in dirs || exists q :: q in files && q < p }

  /** What the loop has done to the tree once it has written some of the wanted files. */
  ghost predicate Progress(generated: Files, start: Files, startDirs: set<Path>, files: Files, dirs: set<Path>,
                           done: set<Path>) {
    && done <= View(generated).Keys
    && files == (start - Stale(generated, start)) + (map p | p in done :: View(generated)[p])
    && dirs == startDirs + AllPrefixes(done)
  }

  lemma BlockedNow(generated: Files, start: Files, startDirs: set<Path>, files: Files, dirs: set<Path>,
                   done: set<Path>, p: Path)
    requires IsTree(start, startDirs) && IsFileSet(generated)
    requires Progress(generated, start, startDirs, files, dirs, done) && p in View(generated) && p !in done
    ensures p != [] && (Obstructed(files, dirs, p) <==> Blocked(generated, start, startDirs, p))
  {
    hide Generated;
    PathIsNotRoot(p);
    NotAPrefix(generated, done, p);
    NoPrefixAmong(generated, p);
    forall q | q < p ensures q in files <==> q in start && q !in Stale(generated, start) { }
  }

  lemma NotAPrefix(generated: Files, done: set<Path>, p: Path)
    requires IsFileSet(generated) && done <= View(generated).Keys && p in View(generated)
    ensures p !in AllPrefixes(done)
  {
    hide Generated, IsFileSet;
    if p in AllPrefixes(done) {
      var d :| d in done && p in Prefixes(d);
      PrefixesAre(d, p);
      NoPrefixAmong(generated, p);
    }
  }

  lemma PathIsNotRoot(p: Path)
    requires Generated(p)
    ensures p != []
  {
  }

  lemma ProgressStep(generated: Files, start: Files, startDirs: set<Path>, files: Files, dirs: set<Path>,
                     done: set<Path>, p: Path)
    requires Progress(generated, start, startDirs, files, dirs, done) && p in View(generated)
    ensures Progress(generated, start, startDirs, files[p := View(generated)[p]], dirs + Prefixes(p), done + {p})
  {
    hide Generated;
    assert AllPrefixes(done + {p}) == AllPrefixes(done) + Prefixes(p);
  }

  lemma ProgressKeepsOutside(generated: Files, start: Files, startDirs: set<Path>, files: Files, dirs: set<Path>,
                             done: set<Path>)
    requires Progress(generated, start, startDirs, files, dirs, done)
    ensures SameOutsideView(start, files)
  {
    hide Generated;
  }

  lemma FinishedView(generated: Files, start: Files, startDirs: set<Path>, files: Files, dirs: set<Path>)
    requires Progress(generated, start, startDirs, files, dirs, View(generated).Keys)
    ensures View(files) == View(generated) && SameOutsideView(start, files)
    ensures forall p :: p in files <==> p in View(generated) || (p in start && !Generated(p))
  {
    hide Generated;
    assert forall p :: p in files <==> p in View(generated) || (p in start && !Generated(p));
  }

  lemma DirsAreClosed(start: Files, startDirs: set<Path>, wanted: set<Path>, p: Path, q: Path)
    requires IsTree(start, startDirs) && q < p
    requires p in wanted || p in start || p in startDirs + AllPrefixes(wanted)
    ensures q in startDirs + AllPrefixes(wanted)
  {
    if p in wanted {
      PrefixesAre(p, q);
      assert q in AllPrefixes(wanted);
    } else if p in AllPrefixes(wanted) {
      var d :| d in wanted && p in Prefixes(d);
      PrefixesAre(d, p);
      PrefixesAre(d, q);
      assert q in AllPrefixes(wanted);
    }
  }

  lemma FileIsNoDirectory(generated: Files, start: Files, startDirs: set<Path>, p: Path)
    requires IsTree(start, startDirs) && IsFileSet(generated) && Replaceable(generated, start, startDirs)
    requires p in View(generated) || (p in start && !Generated(p))
    ensures p !in startDirs + AllPrefixes(View(generated).Keys)
  {
    hide Generated, IsFileSet;
    if p in View(generated) {
      assert !Blocked(generated, start, startDirs, p);
      NotAPrefix(generated, View(generated).Keys, p);
    } else if p in AllPrefixes(View(generated).Keys) {
      var d :| d in View(generated).Keys && p in Prefixes(d);
      PrefixesAre(d, p);
    }
  }

  lemma Finished(generated: Files, start: Files, startDirs: set<Path>, files: Files, dirs: set<Path>)
    requires IsTree(start, startDirs) && IsFileSet(generated)
    requires Progress(generated, start, startDirs, files, dirs, View(generated).Keys)
    requires Replaceable(generated, start, startDirs)
    ensures View(files) == View(generated) && SameOutsideView(start, files) && IsTree(files, dirs)
  {
    FinishedView(generated, start, startDirs, files, dirs);
    hide Generated, View, Replaceable, SameOutsideView, IsFileSet;
    forall p, q | (p in files || p in dirs) && q < p ensures q in dirs {
      DirsAreClosed(start, startDirs, View(generated).Keys, p, q);
    }
    forall p | p in files ensures p !in dirs {
      FileIsNoDirectory(generated, start, startDirs, p);
    }
  }

  ghost function AllPrefixes(ps: set<Path>): set<Path> { set p, q | p in ps && q in Prefixes(p) :: q }

  /** No generated file stands above another one. */
  lemma NoPrefixAmong(generated: Files, p: Path)
    requires IsFileSet(generated) && p in generated
    ensures forall q :: q in generated ==> !(q < p) && !(p < q)
  {
    var d :| IsTree(generated, d);
  }
}
