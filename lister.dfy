/**
 * `list_files`' two enumeration loops. Shallow mode appends one record per
 * `os.listdir` item; recursive mode appends, for each `(root, dirs, files)`
 * triple `os.walk` yields, a record per directory and then a record per file.
 * Both are proved against the reference definitions of `Walking` and `FsTree`.
 */
module Lister {
  import opened Wrappers
  import opened Http
  import opened PosixPath
  import opened FsTree
  import opened Walking

  lemma DirInfosSnoc(root: string, names: seq<string>, j: nat)
    requires j < |names|
    ensures DirInfos(root, names[..j + 1]) ==
            DirInfos(root, names[..j]) + [FileInfo(names[j], Join(root, names[j]), true, None)]
  {
  }

  lemma FileInfosSnoc(fs: Node, root: string, names: seq<string>, j: nat)
    requires j < |names|
    ensures FileInfos(fs, root, names[..j + 1]) ==
            FileInfos(fs, root, names[..j]) + [FileInfo(names[j], Join(root, names[j]), false, Some(SizeAt(fs, Join(root, names[j]))))]
  {
  }

  // ---------------------------------------------------------------------------
  // The two loops of list_files

  /**
   * Shallow mode: one record per `os.listdir` item, in that order, named by
   * the item, with the joined path, and a size exactly when it is not a
   * directory. `os.listdir` on a regular file raises, which becomes a 500.
   */
  method ListShallow(fs: Node, path: string) returns (r: Result<seq<FileInfo>, HttpException>)
    requires WellFormed(fs) && path != "" && Lookup(fs, path).Some?
    ensures Lookup(fs, path).value.File? ==> r == Failure(Internal(NotADirectoryError(path)))
    ensures Lookup(fs, path).value.Dir? ==>
              var es := Lookup(fs, path).value.entries;
              r.Success? && |r.value| == |es| &&
              forall i :: 0 <= i < |es| ==>
                r.value[i].name == es[i].name && r.value[i].path == Join(path, es[i].name) &&
                r.value[i].isDir == es[i].node.Dir? &&
                r.value[i].size == if es[i].node.Dir? then None else Some(StSize(es[i].node))
  {
    var items := ListDir(fs, path);
    if items.None? {
      return Failure(Internal(NotADirectoryError(path)));
    }
    ghost var es := Lookup(fs, path).value.entries;
    var files: seq<FileInfo> := [];
    for i := 0 to |items.value|
      invariant files == ShallowListing(path, es[..i])
    {
      var item := items.value[i];
      ListDirEntry(fs, path, i);
      var itemPath := Join(path, item);
      var isDir := IsDir(fs, itemPath);
      var st := Stat(fs, itemPath);
      var info := FileInfo(item, itemPath, isDir, if isDir then None else Some(StSize(st)));
      assert info == EntryInfo(path, es[i]);
      files := files + [info];
      ShallowSnoc(path, es, i);
    }
    assert es[..|es|] == es;
    return Success(files);
  }

  lemma ShallowSnoc(root: string, es: seq<Entry>, i: nat)
    requires i < |es|
    ensures ShallowListing(root, es[..i + 1]) == ShallowListing(root, es[..i]) + [EntryInfo(root, es[i])]
  {
  }

  /** The `i`-th item `os.listdir` returns is the `i`-th child's name, and joining it onto the directory finds that child. */
  lemma ListDirEntry(fs: Node, path: string, i: nat)
    requires WellFormed(fs) && path != "" && Lookup(fs, path).Some? && Lookup(fs, path).value.Dir?
    requires i < |Lookup(fs, path).value.entries|
    ensures var e := Lookup(fs, path).value.entries[i];
            ListDir(fs, path).Some? && |ListDir(fs, path).value| == |Lookup(fs, path).value.entries| &&
            ListDir(fs, path).value[i] == e.name && Lookup(fs, Join(path, e.name)) == Some(e.node)
  {
    LookupJoin(fs, path, i);
  }

  /**
   * Recursive mode: for each triple of `os.walk(top)`, a record per
   * directory (no size), then a record per file (its `st_size`). The result
   * is the walk-order listing of every descendant of `top`.
   */
  method ListRecursive(fs: Node, top: string) returns (files: seq<FileInfo>)
    requires WellFormed(fs) && top != "" && Lookup(fs, top).Some?
    ensures files == Listing(top, Lookup(fs, top).value)
  {
    var steps := OsWalk(fs, top);
    WalkFacts(fs, top, Lookup(fs, top).value);
    assert steps == Walk(top, Lookup(fs, top).value);
    files := [];
    for k := 0 to |steps|
      invariant files == Flatten(fs, steps[..k])
    {
      files := AppendStep(fs, steps[k], files);
      FlattenSnoc(fs, steps, k);
    }
    assert steps[..|steps|] == steps;
  }

  lemma FlattenSnoc(fs: Node, steps: seq<WalkStep>, k: nat)
    requires k < |steps|
    ensures Flatten(fs, steps[..k + 1]) == Flatten(fs, steps[..k]) + StepInfos(fs, steps[k])
  {
    assert steps[..k + 1][..k] == steps[..k];
  }

  /** The body of the walk loop for one triple: its directories, then its files. */
  method AppendStep(fs: Node, step: WalkStep, files0: seq<FileInfo>) returns (files: seq<FileInfo>)
    requires StepResolves(fs, step)
    ensures files == files0 + StepInfos(fs, step)
  {
    var withDirs := AppendDirs(fs, step.root, step.dirs, files0);
    files := AppendFiles(fs, step.root, step.files, withDirs);
  }

  /** The loop over `dirs`: a record per directory, without a size. */
  method AppendDirs(fs: Node, root: string, dirs: seq<string>, files0: seq<FileInfo>) returns (files: seq<FileInfo>)
    requires forall j :: 0 <= j < |dirs| ==> Lookup(fs, Join(root, dirs[j])).Some?
    ensures files == files0 + DirInfos(root, dirs)
  {
    files := files0;
    for j := 0 to |dirs|
      invariant files == files0 + DirInfos(root, dirs[..j])
    {
      var dirName := dirs[j];
      var dirPath := Join(root, dirName);
      var st := Stat(fs, dirPath);
      files := files + [FileInfo(dirName, dirPath, true, None)];
      DirInfosSnoc(root, dirs, j);
    }
    assert dirs[..|dirs|] == dirs;
  }

  /** The loop over `files`: a record per file, with its `st_size`. */
  method AppendFiles(fs: Node, root: string, names: seq<string>, files0: seq<FileInfo>) returns (files: seq<FileInfo>)
    requires forall j :: 0 <= j < |names| ==> Lookup(fs, Join(root, names[j])).Some?
    ensures files == files0 + FileInfos(fs, root, names)
  {
    files := files0;
    for j := 0 to |names|
      invariant files == files0 + FileInfos(fs, root, names[..j])
    {
      var fileName := names[j];
      var filePath := Join(root, fileName);
      var st := Stat(fs, filePath);
      assert StSize(st) == SizeAt(fs, filePath);
      files := files + [FileInfo(fileName, filePath, false, Some(StSize(st)))];
      FileInfosSnoc(fs, root, names, j);
    }
    assert names[..|names|] == names;
  }

  // ---------------------------------------------------------------------------
  // os.walk, flattened, is the walk-order listing

  lemma FlattenPush(fs: Node, s: seq<WalkStep>, x: WalkStep)
    ensures Flatten(fs, s + [x]) == Flatten(fs, s) + StepInfos(fs, x)
  {
    assert (s + [x])[..|s|] == s;
  }

  lemma {:induction false} FlattenAppend(fs: Node, a: seq<WalkStep>, b: seq<WalkStep>)
    ensures Flatten(fs, a + b) == Flatten(fs, a) + Flatten(fs, b)
    decreases |b|
  {
    if b == [] {
      assert a + b == a;
    } else {
      var b', x := b[..|b| - 1], b[|b| - 1];
      assert b == b' + [x];
      assert a + b == (a + b') + [x];
      FlattenAppend(fs, a, b');
      FlattenPush(fs, a + b', x);
      FlattenPush(fs, b', x);
      ConcatAssoc(Flatten(fs, a), Flatten(fs, b'), StepInfos(fs, x));
    }
  }

  lemma InfosAppend(top: string, a: seq<Item>, b: seq<Item>)
    ensures Infos(top, a + b) == Infos(top, a) + Infos(top, b)
  {
  }

  lemma StepsResolveAppend(fs: Node, a: seq<WalkStep>, b: seq<WalkStep>)
    requires StepsResolve(fs, a) && StepsResolve(fs, b)
    ensures StepsResolve(fs, a + b)
  {
    forall k | 0 <= k < |a + b| ensures StepResolves(fs, (a + b)[k]) {
      if k >= |a| { assert (a + b)[k] == b[k - |a|]; }
    }
  }

  /** The `k`-th child of one kind: its name joined onto `top` looks it up, and its record is the walk-order record. */
  lemma HereEntry(fs: Node, top: string, n: Node, d: bool, k: nat)
    requires WellFormed(fs) && top != "" && Lookup(fs, top) == Some(n) && n.Dir? && k < |Here(n.entries, d)|
    ensures Lookup(fs, Join(top, KindNames(n.entries, d)[k])) == Some(Here(n.entries, d)[k].node)
    ensures Join(top, KindNames(n.entries, d)[k]) == Under(top, Here(n.entries, d)[k].rel)
    ensures Here(n.entries, d)[k].node.Dir? == d
  {
    var es := n.entries;
    var x := Here(es, d)[k];
    HereMember(es, d, x);
    var j :| 0 <= j < |es| && x == Item([es[j].name], es[j].node) && es[j].node.Dir? == d;
    assert KindNames(es, d)[k] == es[j].name;
    assert Under(top, x.rel) == Join(top, es[j].name) by {
      assert x.rel[1..] == [];
    }
    LookupJoin(fs, top, j);
  }

  /** The directory records of the triple for `top`, and that each of their stats succeeds. */
  lemma DirStep(fs: Node, top: string, n: Node)
    requires WellFormed(fs) && top != "" && Lookup(fs, top) == Some(n) && n.Dir?
    ensures var names := KindNames(n.entries, true);
            (forall j :: 0 <= j < |names| ==> Lookup(fs, Join(top, names[j])).Some?) &&
            DirInfos(top, names) == Infos(top, Here(n.entries, true))
  {
    var names := KindNames(n.entries, true);
    forall k | 0 <= k < |names|
      ensures Lookup(fs, Join(top, names[k])).Some?
      ensures DirInfos(top, names)[k] == Infos(top, Here(n.entries, true))[k]
    {
      HereEntry(fs, top, n, true, k);
    }
  }

  /** The file records of the triple for `top`, and that each of their stats succeeds. */
  lemma FileStep(fs: Node, top: string, n: Node)
    requires WellFormed(fs) && top != "" && Lookup(fs, top) == Some(n) && n.Dir?
    ensures var names := KindNames(n.entries, false);
            (forall j :: 0 <= j < |names| ==> Lookup(fs, Join(top, names[j])).Some?) &&
            FileInfos(fs, top, names) == Infos(top, Here(n.entries, false))
  {
    var names := KindNames(n.entries, false);
    forall k | 0 <= k < |names|
      ensures Lookup(fs, Join(top, names[k])).Some?
      ensures FileInfos(fs, top, names)[k] == Infos(top, Here(n.entries, false))[k]
    {
      HereEntry(fs, top, n, false, k);
    }
  }

  /** The triple for a directory: what it contributes, and that every stat in it succeeds. */
  lemma TopStep(fs: Node, top: string, n: Node)
    requires WellFormed(fs) && top != "" && Lookup(fs, top) == Some(n) && n.Dir?
    ensures var s := WalkStep(top, KindNames(n.entries, true), KindNames(n.entries, false));
            StepResolves(fs, s) &&
            StepInfos(fs, s) == Infos(top, Here(n.entries, true)) + Infos(top, Here(n.entries, false))
  {
    DirStep(fs, top, n);
    FileStep(fs, top, n);
  }

  /**
   * Flattening `os.walk(top)` gives the walk-order listing of `n`, and every
   * `os.stat` the loop makes on the way finds its path.
   */
  lemma {:induction false} WalkFacts(fs: Node, top: string, n: Node)
    requires WellFormed(fs) && top != "" && Lookup(fs, top) == Some(n)
    ensures StepsResolve(fs, Walk(top, n))
    ensures Flatten(fs, Walk(top, n)) == Listing(top, n)
    decreases n, 1
  {
    match n
    case File(_) =>
    case Dir(es) =>
      var s := WalkStep(top, KindNames(es, true), KindNames(es, false));
      TopStep(fs, top, n);
      SubWalkFacts(fs, top, n, 0);
      StepsResolveAppend(fs, [s], SubWalks(top, n, 0));
      FlattenAppend(fs, [s], SubWalks(top, n, 0));
      assert Flatten(fs, [s]) == StepInfos(fs, s) by { assert [s][..0] == []; }
      InfosAppend(top, Here(es, true), Here(es, false));
      InfosAppend(top, Here(es, true) + Here(es, false), Nested(n, 0));
  }

  lemma {:induction false} SubWalkFacts(fs: Node, top: string, n: Node, i: nat)
    requires WellFormed(fs) && top != "" && Lookup(fs, top) == Some(n) && n.Dir? && i <= |n.entries|
    ensures Lists(fs, top, SubWalks(top, n, i), Nested(n, i))
    decreases n, 0, |n.entries| - i, 2
  {
    if i < |n.entries| {
      SubWalkNext(fs, top, n, i);
    } else {
      SubWalkEnd(fs, top, n);
    }
  }

  /** Past the last child there is nothing left to walk or to list. */
  lemma SubWalkEnd(fs: Node, top: string, n: Node)
    requires n.Dir?
    ensures Lists(fs, top, SubWalks(top, n, |n.entries|), Nested(n, |n.entries|))
  {
  }

  /** The walks from the `i`-th child on, through the child's own walk. */
  lemma {:induction false} SubWalkNext(fs: Node, top: string, n: Node, i: nat)
    requires WellFormed(fs) && top != "" && Lookup(fs, top) == Some(n) && n.Dir? && i < |n.entries|
    ensures Lists(fs, top, SubWalks(top, n, i), Nested(n, i))
    decreases n, 0, |n.entries| - i, 1
  {
    ChildWalk(fs, top, n, i);
    SubWalkFacts(fs, top, n, i + 1);
    SubWalkCons(fs, top, n, i);
  }

  /** The walks from the `i`-th child on: the child's walk, then those of the later children. */
  lemma SubWalkCons(fs: Node, top: string, n: Node, i: nat)
    requires n.Dir? && i < |n.entries|
    requires Lists(fs, top, ChildSteps(top, n.entries[i]), Prefixed(n.entries[i].name, Desc(n.entries[i].node)))
    requires Lists(fs, top, SubWalks(top, n, i + 1), Nested(n, i + 1))
    ensures Lists(fs, top, SubWalks(top, n, i), Nested(n, i))
  {
    var e := n.entries[i];
    var sub := ChildSteps(top, e);
    var chunk := Prefixed(e.name, Desc(e.node));
    assert SubWalks(top, n, i) == sub + SubWalks(top, n, i + 1);
    assert Nested(n, i) == chunk + Nested(n, i + 1);
    StepsResolveAppend(fs, sub, SubWalks(top, n, i + 1));
    FlattenAppend(fs, sub, SubWalks(top, n, i + 1));
    InfosAppend(top, chunk, Nested(n, i + 1));
  }

  /** The walk below the `i`-th child: its steps resolve, and it lists that child's descendants as seen from `top`. */
  lemma {:induction false} ChildWalk(fs: Node, top: string, n: Node, i: nat)
    requires WellFormed(fs) && top != "" && Lookup(fs, top) == Some(n) && n.Dir? && i < |n.entries|
    ensures Lists(fs, top, ChildSteps(top, n.entries[i]), Prefixed(n.entries[i].name, Desc(n.entries[i].node)))
    decreases n, 0, |n.entries| - i, 0
  {
    var e := n.entries[i];
    if e.node.Dir? {
      var child := Join(top, e.name);
      LookupJoin(fs, top, i);
      assert Lookup(fs, child) == Some(e.node);
      ResolveWellFormed(fs, Segments(child));
      assert child != "";
      WalkFacts(fs, child, e.node);
      ReprefixListing(top, e.name, e.node);
    }
  }

  /** A subdirectory's own listing is the parent's view of that subdirectory's descendants. */
  lemma ReprefixListing(top: string, name: string, c: Node)
    requires WellFormed(c)
    ensures Listing(Join(top, name), c) == Infos(top, Prefixed(name, Desc(c)))
  {
    var chunk := Prefixed(name, Desc(c));
    forall k | 0 <= k < |chunk| ensures Listing(Join(top, name), c)[k] == Infos(top, chunk)[k] {
      var y := Desc(c)[k];
      DescSound(c, y);
      ReprefixItem(top, name, y);
    }
  }

  /** One descendant's record, seen from the subdirectory or from its parent. */
  lemma ReprefixItem(top: string, name: string, y: Item)
    requires |y.rel| >= 1
    ensures ItemInfo(Join(top, name), y) == ItemInfo(top, Item([name] + y.rel, y.node))
  {
    var rel := [name] + y.rel;
    assert rel[0] == name && rel[1..] == y.rel;
    assert Last(rel) == Last(y.rel);
  }

  // ---------------------------------------------------------------------------
  // What the recursive listing promises

  /**
   * Each record of the recursive listing names a node strictly below `top`:
   * its path looks that node up, it is never `top` itself, `isDir` tells the
   * kind, and `size` is present exactly for files and equals `st_size`.
   */
  lemma ListingEntriesResolve(fs: Node, top: string, k: nat)
    requires WellFormed(fs) && top != "" && Lookup(fs, top).Some?
    requires k < |Listing(top, Lookup(fs, top).value)|
    ensures var f := Listing(top, Lookup(fs, top).value)[k];
            && Lookup(fs, f.path).Some?
            && Segments(f.path) != Segments(top)
            && f.isDir == Lookup(fs, f.path).value.Dir?
            && f.size == if f.isDir then None else Some(StSize(Lookup(fs, f.path).value))
  {
    var n := Lookup(fs, top).value;
    var x := Desc(n)[k];
    ResolveWellFormed(fs, Segments(top));
    DescSound(n, x);
    LookupUnder(fs, top, x.rel);
    SegmentsUnder(top, x.rel);
  }

  /** No two records of the recursive listing share a path. */
  lemma ListingPathsDistinct(fs: Node, top: string, i: nat, j: nat)
    requires WellFormed(fs) && top != "" && Lookup(fs, top).Some?
    requires i < j < |Listing(top, Lookup(fs, top).value)|
    ensures Listing(top, Lookup(fs, top).value)[i].path != Listing(top, Lookup(fs, top).value)[j].path
  {
    var n := Lookup(fs, top).value;
    ResolveWellFormed(fs, Segments(top));
    DescDistinct(n);
    var x, y := Desc(n)[i], Desc(n)[j];
    DescSound(n, x);
    DescSound(n, y);
    SegmentsUnder(top, x.rel);
    SegmentsUnder(top, y.rel);
    assert (Segments(top) + x.rel)[|Segments(top)|..] == x.rel;
    assert (Segments(top) + y.rel)[|Segments(top)|..] == y.rel;
  }

  /** Every node strictly below `top` has a record in the recursive listing. */
  lemma ListingComplete(fs: Node, top: string, rel: seq<string>)
    requires WellFormed(fs) && top != "" && Lookup(fs, top).Some?
    requires |rel| >= 1 && Resolve(Lookup(fs, top).value, rel).Some?
    ensures exists k :: 0 <= k < |Listing(top, Lookup(fs, top).value)| &&
                        Listing(top, Lookup(fs, top).value)[k].path == Under(top, rel)
  {
    var n := Lookup(fs, top).value;
    ResolveWellFormed(fs, Segments(top));
    DescComplete(n, rel, Resolve(n, rel).value);
    var k :| 0 <= k < |Desc(n)| && Desc(n)[k] == Item(rel, Resolve(n, rel).value);
    assert Listing(top, n)[k].path == Under(top, rel);
  }

  /** A subtree with N files and M subdirectories gives N + M records. */
  lemma ListingCount(top: string, n: Node)
    ensures |Listing(top, n)| == Files(n) + Subdirs(n)
  {
    DescCount(n);
  }
}
