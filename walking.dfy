/**
 * What `list_files` reports, defined without its loops: the records it
 * builds, the triples `os.walk` yields, and the walk-order listing of every
 * descendant that the loops of `Lister` are proved to produce.
 */
module Walking {
  import opened Wrappers
  import opened PosixPath
  import opened FsTree

  /** `FileInfo`; the `modified` timestamp is not modelled. */
  datatype FileInfo = FileInfo(name: string, path: string, isDir: bool, size: Option<nat>)

  /** `os.path.isdir(p)`. */
  predicate IsDir(fs: Node, p: string)
  {
    Lookup(fs, p).Some? && Lookup(fs, p).value.Dir?
  }

  /** The record shallow mode builds for the child `e` of the directory at `root`. */
  function EntryInfo(root: string, e: Entry): FileInfo
  {
    FileInfo(e.name, Join(root, e.name), e.node.Dir?, if e.node.Dir? then None else Some(StSize(e.node)))
  }

  function ShallowListing(root: string, es: seq<Entry>): (r: seq<FileInfo>)
    ensures |r| == |es|
  {
    seq(|es|, i requires 0 <= i < |es| => EntryInfo(root, es[i]))
  }

  /** The record recursive mode should build for a descendant of the directory at `top`. */
  function ItemInfo(top: string, it: Item): FileInfo
  {
    FileInfo(Last(it.rel), Under(top, it.rel), it.node.Dir?, if it.node.Dir? then None else Some(StSize(it.node)))
  }

  function Infos(top: string, items: seq<Item>): (r: seq<FileInfo>)
    ensures |r| == |items|
  {
    seq(|items|, k requires 0 <= k < |items| => ItemInfo(top, items[k]))
  }

  /** The recursive listing of the node at `top`: one record per descendant, in walk order. */
  function Listing(top: string, n: Node): (r: seq<FileInfo>)
    ensures |r| == |Desc(n)|
  {
    Infos(top, Desc(n))
  }

  // ---------------------------------------------------------------------------
  // os.walk, top-down

  /** One triple `(root, dirs, files)` that `os.walk` yields. */
  datatype WalkStep = WalkStep(root: string, dirs: seq<string>, files: seq<string>)

  /** The names of the children of `es` that are directories (`dirs`) or not, in scandir order. */
  function KindNames(es: seq<Entry>, dirs: bool): (r: seq<string>)
    ensures |r| == |Here(es, dirs)|
  {
    seq(|Here(es, dirs)|, k requires 0 <= k < |Here(es, dirs)| => Last(Here(es, dirs)[k].rel))
  }

  /**
   * `os.walk(top)` over the subtree `n` found at `top`: the triple for `top`,
   * then the walk of each subdirectory in order. On a regular file `scandir`
   * fails, `os.walk` swallows the error, and nothing is yielded.
   */
  function Walk(top: string, n: Node): seq<WalkStep>
    decreases n, 1
  {
    match n
    case File(_) => []
    case Dir(es) => [WalkStep(top, KindNames(es, true), KindNames(es, false))] + SubWalks(top, n, 0)
  }

  function SubWalks(top: string, n: Node, i: nat): seq<WalkStep>
    requires n.Dir? && i <= |n.entries|
    decreases n, 0, |n.entries| - i
  {
    if i == |n.entries| then []
    else
      var e := n.entries[i];
      (if e.node.Dir? then Walk(Join(top, e.name), e.node) else []) + SubWalks(top, n, i + 1)
  }

  /** `os.walk(top)` on the filesystem; a missing `top` yields nothing either. */
  function OsWalk(fs: Node, top: string): seq<WalkStep>
  {
    match Lookup(fs, top)
    case Some(n) => Walk(top, n)
    case None => []
  }

  /** Every `os.stat` that the recursive loop makes for a step lands on an existing path. */
  predicate StepResolves(fs: Node, s: WalkStep)
  {
    (forall j :: 0 <= j < |s.dirs| ==> Lookup(fs, Join(s.root, s.dirs[j])).Some?) &&
    (forall j :: 0 <= j < |s.files| ==> Lookup(fs, Join(s.root, s.files[j])).Some?)
  }

  predicate StepsResolve(fs: Node, steps: seq<WalkStep>)
  {
    forall k :: 0 <= k < |steps| ==> StepResolves(fs, steps[k])
  }

  /** `st_size` of whatever is at `p`. */
  function SizeAt(fs: Node, p: string): nat
  {
    match Lookup(fs, p)
    case Some(m) => StSize(m)
    case None => 0
  }

  function DirInfos(root: string, names: seq<string>): (r: seq<FileInfo>)
    ensures |r| == |names|
  {
    seq(|names|, j requires 0 <= j < |names| => FileInfo(names[j], Join(root, names[j]), true, None))
  }

  function FileInfos(fs: Node, root: string, names: seq<string>): (r: seq<FileInfo>)
    ensures |r| == |names|
  {
    seq(|names|, j requires 0 <= j < |names| =>
      FileInfo(names[j], Join(root, names[j]), false, Some(SizeAt(fs, Join(root, names[j])))))
  }

  /** What the two inner loops append for one step. */
  function StepInfos(fs: Node, s: WalkStep): seq<FileInfo>
  {
    DirInfos(s.root, s.dirs) + FileInfos(fs, s.root, s.files)
  }

  function Flatten(fs: Node, steps: seq<WalkStep>): seq<FileInfo>
  {
    if steps == [] then [] else Flatten(fs, steps[..|steps| - 1]) + StepInfos(fs, steps[|steps| - 1])
  }

  /** The walk below one child of a directory at `top`; nothing for a regular file. */
  function ChildSteps(top: string, e: Entry): seq<WalkStep>
  {
    if e.node.Dir? then Walk(Join(top, e.name), e.node) else []
  }

  /** `steps` lists `items` as seen from `top`, and every stat they make succeeds. */
  predicate Lists(fs: Node, top: string, steps: seq<WalkStep>, items: seq<Item>)
  {
    StepsResolve(fs, steps) && Flatten(fs, steps) == Infos(top, items)
  }

  /** `os.path.isdir(os.path.join(p, name))` for a child of the directory `p` tells whether that child is a directory. */
  lemma IsDirChild(fs: Node, p: string, i: nat)
    requires WellFormed(fs) && p != "" && IsDir(fs, p) && i < |Lookup(fs, p).value.entries|
    ensures var e := Lookup(fs, p).value.entries[i];
            IsDir(fs, Join(p, e.name)) <==> e.node.Dir?
  {
    LookupJoin(fs, p, i);
  }

  lemma KindChild(fs: Node, top: string, dirs: bool, x: string)
    requires WellFormed(fs) && top != "" && IsDir(fs, top) && x in KindNames(Lookup(fs, top).value.entries, dirs)
    ensures Lookup(fs, Join(top, x)).Some? && (IsDir(fs, Join(top, x)) <==> dirs)
  {
    var es := Lookup(fs, top).value.entries;
    var k :| 0 <= k < |KindNames(es, dirs)| && KindNames(es, dirs)[k] == x;
    var it := Here(es, dirs)[k];
    HereMember(es, dirs, it);
    var j :| 0 <= j < |es| && it == Item([es[j].name], es[j].node) && es[j].node.Dir? == dirs;
    assert x == es[j].name;
    LookupJoin(fs, top, j);
  }

  /** Every child of `es` has its name among the `KindNames` of its own kind. */
  lemma KindContains(es: seq<Entry>, j: nat)
    requires j < |es|
    ensures es[j].name in KindNames(es, es[j].node.Dir?)
  {
    var d := es[j].node.Dir?;
    HereContains(es, d, j);
    var k :| 0 <= k < |Here(es, d)| && Here(es, d)[k] == Item([es[j].name], es[j].node);
    assert KindNames(es, d)[k] == es[j].name;
  }

  /**
   * `os.walk(top)` yields nothing unless `top` is a directory; otherwise its
   * first triple is `top` itself, with subdirectory names as `dirs` and the
   * names of the other children as `files`.
   */
  lemma OsWalkTop(fs: Node, top: string)
    requires WellFormed(fs) && top != ""
    ensures OsWalk(fs, top) == [] <==> !IsDir(fs, top)
    ensures IsDir(fs, top) ==>
              var s := OsWalk(fs, top)[0];
              && s.root == top
              && (forall x :: x in s.dirs ==> IsDir(fs, Join(top, x)))
              && (forall x :: x in s.files ==> Lookup(fs, Join(top, x)).Some? && !IsDir(fs, Join(top, x)))
    ensures IsDir(fs, top) ==>
              var es := Lookup(fs, top).value.entries;
              var s := OsWalk(fs, top)[0];
              forall j :: 0 <= j < |es| ==> es[j].name in (if es[j].node.Dir? then s.dirs else s.files)
  {
    if IsDir(fs, top) {
      var es := Lookup(fs, top).value.entries;
      var s := OsWalk(fs, top)[0];
      assert s == WalkStep(top, KindNames(es, true), KindNames(es, false));
      forall x | x in s.dirs ensures IsDir(fs, Join(top, x)) {
        KindChild(fs, top, true, x);
      }
      forall x | x in s.files ensures Lookup(fs, Join(top, x)).Some? && !IsDir(fs, Join(top, x)) {
        KindChild(fs, top, false, x);
      }
      forall j | 0 <= j < |es| ensures es[j].name in (if es[j].node.Dir? then s.dirs else s.files) {
        KindContains(es, j);
      }
    }
  }
}
