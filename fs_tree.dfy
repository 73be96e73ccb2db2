/**
 * The filesystem the file server reads, as an immutable tree. A directory
 * lists its entries in the order `os.listdir` / `os.scandir` return them.
 * The walk-order list of descendants, `Desc`, is the reference definition
 * that the listing methods are proved against.
 */
module FsTree {
  import opened Wrappers
  import opened PosixPath
  import opened Octets

  datatype Node = File(data: seq<Byte>) | Dir(entries: seq<Entry>)

  datatype Entry = Entry(name: string, node: Node)

  predicate UniqueNames(es: seq<Entry>)
  {
    forall i, j :: 0 <= i < j < |es| ==> es[i].name != es[j].name
  }

  /** Names are proper path components, hold no NUL character, and are unique within their directory. */
  predicate WellFormed(n: Node)
    decreases n
  {
    match n
    case File(_) => true
    case Dir(es) => UniqueNames(es) && forall i :: 0 <= i < |es| ==> Proper(es[i].name) && '\0' !in es[i].name && WellFormed(es[i].node)
  }

  /** The entry of `es` called `name`. */
  function Child(es: seq<Entry>, name: string): Option<Node>
  {
    if es == [] then None
    else if es[0].name == name then Some(es[0].node)
    else Child(es[1..], name)
  }

  /** The node reached from `n` by following the names in `rel`. */
  function Resolve(n: Node, rel: seq<string>): Option<Node>
    decreases rel
  {
    if rel == [] then Some(n)
    else match n
      case File(_) => None
      case Dir(es) =>
        match Child(es, rel[0])
        case None => None
        case Some(c) => Resolve(c, rel[1..])
  }

  /** The node an absolute path names in the tree rooted at `/`. */
  function Lookup(fs: Node, p: string): Option<Node>
  {
    Resolve(fs, Segments(p))
  }

  /** `os.stat(p).st_size` of a node: the length of a file. A directory's `st_size` never reaches a response. */
  function StSize(n: Node): nat
  {
    match n
    case File(data) => |data|
    case Dir(_) => 0
  }

  /** `os.stat(p)`, which raises for a missing path; the model keeps only what a response reports. */
  function Stat(fs: Node, p: string): Node
    requires Lookup(fs, p).Some?
  {
    Lookup(fs, p).value
  }

  /** The names of `es`, in directory order. */
  function Names(es: seq<Entry>): (r: seq<string>)
    ensures |r| == |es| && forall i :: 0 <= i < |es| ==> r[i] == es[i].name
  {
    if es == [] then [] else [es[0].name] + Names(es[1..])
  }

  /** `os.listdir(p)`: the children's names, or an error when `p` is not a directory. */
  function ListDir(fs: Node, p: string): Option<seq<string>>
  {
    match Lookup(fs, p)
    case Some(Dir(es)) => Some(Names(es))
    case _ => None
  }

  /** `os.path.join` applied along a relative list of names. */
  function Under(root: string, rel: seq<string>): string
    decreases |rel|
  {
    if rel == [] then root else Under(Join(root, rel[0]), rel[1..])
  }

  // ---------------------------------------------------------------------------
  // Descendants in walk order

  /** A descendant: the names leading to it from the walked directory, and its node. */
  datatype Item = Item(rel: seq<string>, node: Node)

  function Last(rel: seq<string>): string
  {
    if rel == [] then "" else rel[|rel| - 1]
  }

  /** The children of `es` that are directories (`dirs`) or files (`!dirs`), in directory order. */
  function Here(es: seq<Entry>, dirs: bool): seq<Item>
  {
    if es == [] then []
    else (if es[0].node.Dir? == dirs then [Item([es[0].name], es[0].node)] else []) + Here(es[1..], dirs)
  }

  /** The same descendants seen from one level higher, through a directory called `name`. */
  function Prefixed(name: string, items: seq<Item>): (r: seq<Item>)
    ensures |r| == |items|
  {
    seq(|items|, k requires 0 <= k < |items| => Item([name] + items[k].rel, items[k].node))
  }

  /**
   * Every descendant of `n`, never `n` itself, in top-down walk order: the
   * subdirectories, then the files, then the descendants of each
   * subdirectory in turn.
   */
  function Desc(n: Node): seq<Item>
    decreases n, 1
  {
    match n
    case File(_) => []
    case Dir(es) => Here(es, true) + Here(es, false) + Nested(n, 0)
  }

  function Nested(n: Node, i: nat): seq<Item>
    requires n.Dir? && i <= |n.entries|
    decreases n, 0, |n.entries| - i
  {
    if i == |n.entries| then []
    else Prefixed(n.entries[i].name, Desc(n.entries[i].node)) + Nested(n, i + 1)
  }

  /** The number of regular files strictly below `n`. */
  function Files(n: Node): nat
    decreases n, 1
  {
    match n
    case File(_) => 0
    case Dir(_) => FilesFrom(n, 0)
  }

  function FilesFrom(n: Node, i: nat): nat
    requires n.Dir? && i <= |n.entries|
    decreases n, 0, |n.entries| - i
  {
    if i == |n.entries| then 0
    else (if n.entries[i].node.File? then 1 else Files(n.entries[i].node)) + FilesFrom(n, i + 1)
  }

  /** The number of directories strictly below `n`. */
  function Subdirs(n: Node): nat
    decreases n, 1
  {
    match n
    case File(_) => 0
    case Dir(_) => SubdirsFrom(n, 0)
  }

  function SubdirsFrom(n: Node, i: nat): nat
    requires n.Dir? && i <= |n.entries|
    decreases n, 0, |n.entries| - i
  {
    if i == |n.entries| then 0
    else (if n.entries[i].node.Dir? then 1 + Subdirs(n.entries[i].node) else 0) + SubdirsFrom(n, i + 1)
  }

  predicate DistinctRels(items: seq<Item>)
  {
    forall i, j :: 0 <= i < j < |items| ==> items[i].rel != items[j].rel
  }

  // ---------------------------------------------------------------------------
  // Lookup

  lemma {:induction false} ChildAt(es: seq<Entry>, i: nat)
    requires UniqueNames(es) && i < |es|
    ensures Child(es, es[i].name) == Some(es[i].node)
  {
    if i > 0 {
      assert es[0].name != es[i].name;
      ChildAt(es[1..], i - 1);
    }
  }

  lemma {:induction false} ChildIndex(es: seq<Entry>, name: string)
    requires Child(es, name).Some?
    ensures exists j :: 0 <= j < |es| && es[j].name == name && es[j].node == Child(es, name).value
  {
    if es[0].name != name {
      ChildIndex(es[1..], name);
      var j :| 0 <= j < |es[1..]| && es[1..][j].name == name && es[1..][j].node == Child(es[1..], name).value;
      assert es[j + 1] == es[1..][j];
    }
  }

  lemma {:induction false} ResolveAppend(n: Node, a: seq<string>, b: seq<string>)
    ensures Resolve(n, a + b) == match Resolve(n, a) case None => None case Some(m) => Resolve(m, b)
    decreases a
  {
    if a != [] {
      assert (a + b)[0] == a[0] && (a + b)[1..] == a[1..] + b;
      match n
      case File(_) =>
      case Dir(es) =>
        match Child(es, a[0])
        case None =>
        case Some(c) => ResolveAppend(c, a[1..], b);
    } else {
      assert a + b == b;
    }
  }

  lemma {:induction false} ResolveWellFormed(n: Node, rel: seq<string>)
    requires WellFormed(n) && Resolve(n, rel).Some?
    ensures WellFormed(Resolve(n, rel).value)
    decreases rel
  {
    if rel != [] {
      var es := n.entries;
      ChildIndex(es, rel[0]);
      ResolveWellFormed(Child(es, rel[0]).value, rel[1..]);
    }
  }

  lemma {:induction false} SegmentsUnder(root: string, rel: seq<string>)
    requires root != "" && AllProper(rel)
    ensures Under(root, rel) != ""
    ensures Segments(Under(root, rel)) == Segments(root) + rel
    decreases |rel|
  {
    if rel == [] {
      assert Segments(root) + rel == Segments(root);
    } else {
      var next, rest := Join(root, rel[0]), rel[1..];
      assert rel == [rel[0]] + rest;
      SegmentsJoin(root, rel[0]);
      SegmentsUnder(next, rest);
      ConcatAssoc(Segments(root), [rel[0]], rest);
    }
  }

  lemma ConcatAssoc<T>(p: seq<T>, q: seq<T>, r: seq<T>)
    ensures (p + q) + r == p + (q + r)
  {
  }

  /** Following `rel` from a path looks up what `rel` resolves to from that path's node. */
  lemma LookupUnder(fs: Node, root: string, rel: seq<string>)
    requires root != "" && AllProper(rel) && Lookup(fs, root).Some?
    ensures Lookup(fs, Under(root, rel)) == Resolve(Lookup(fs, root).value, rel)
  {
    SegmentsUnder(root, rel);
    ResolveAppend(fs, Segments(root), rel);
  }

  /** `os.path.join(root, name)` for a child `name` of the directory at `root` names that child. */
  lemma LookupJoin(fs: Node, root: string, i: nat)
    requires root != "" && WellFormed(fs)
    requires Lookup(fs, root).Some? && Lookup(fs, root).value.Dir? && i < |Lookup(fs, root).value.entries|
    ensures Lookup(fs, Join(root, Lookup(fs, root).value.entries[i].name)) == Some(Lookup(fs, root).value.entries[i].node)
  {
    var es := Lookup(fs, root).value.entries;
    ResolveWellFormed(fs, Segments(root));
    ChildAt(es, i);
    assert AllProper([es[i].name]);
    LookupUnder(fs, root, [es[i].name]);
    assert Under(root, [es[i].name]) == Under(Join(root, es[i].name), []);
    assert [es[i].name][1..] == [];
  }

  /**
   * `os.listdir` succeeds exactly on directories; its names are unique and
   * proper, and each, joined to the path, names an existing child.
   */
  lemma ListDirNames(fs: Node, p: string)
    requires WellFormed(fs) && p != ""
    ensures ListDir(fs, p).Some? <==> Lookup(fs, p).Some? && Lookup(fs, p).value.Dir?
    ensures ListDir(fs, p).Some? ==>
              var names := ListDir(fs, p).value;
              && (forall i, j :: 0 <= i < j < |names| ==> names[i] != names[j])
              && (forall i :: 0 <= i < |names| ==> Proper(names[i]) && Lookup(fs, Join(p, names[i])).Some?)
  {
    if ListDir(fs, p).Some? {
      ResolveWellFormed(fs, Segments(p));
      var names := ListDir(fs, p).value;
      forall i | 0 <= i < |names| ensures Proper(names[i]) && Lookup(fs, Join(p, names[i])).Some? {
        LookupJoin(fs, p, i);
      }
    }
  }

  // ---------------------------------------------------------------------------
  // Properties of the walk order

  // ---------------------------------------------------------------------------
  // Membership in the walk order

  lemma {:induction false} HereMember(es: seq<Entry>, dirs: bool, x: Item)
    requires x in Here(es, dirs)
    ensures exists j :: 0 <= j < |es| && x == Item([es[j].name], es[j].node) && es[j].node.Dir? == dirs
  {
    var head := if es[0].node.Dir? == dirs then [Item([es[0].name], es[0].node)] else [];
    if x !in head {
      HereMember(es[1..], dirs, x);
      var j :| 0 <= j < |es[1..]| && x == Item([es[1..][j].name], es[1..][j].node) && es[1..][j].node.Dir? == dirs;
      assert es[1..][j] == es[j + 1];
    }
  }

  lemma {:induction false} HereContains(es: seq<Entry>, dirs: bool, j: nat)
    requires j < |es| && es[j].node.Dir? == dirs
    ensures Item([es[j].name], es[j].node) in Here(es, dirs)
  {
    if j > 0 {
      HereContains(es[1..], dirs, j - 1);
      assert es[1..][j - 1] == es[j];
    }
  }

  lemma {:induction false} NestedMember(n: Node, i: nat, x: Item)
    requires n.Dir? && i <= |n.entries| && x in Nested(n, i)
    ensures exists j, y :: i <= j < |n.entries| && y in Desc(n.entries[j].node) &&
                           x == Item([n.entries[j].name] + y.rel, y.node)
    decreases |n.entries| - i
  {
    var es := n.entries;
    var chunk := Prefixed(es[i].name, Desc(es[i].node));
    if x in chunk {
      var k :| 0 <= k < |chunk| && chunk[k] == x;
      assert Desc(es[i].node)[k] in Desc(es[i].node);
    } else {
      NestedMember(n, i + 1, x);
    }
  }

  lemma {:induction false} NestedContains(n: Node, i: nat, j: nat, y: Item)
    requires n.Dir? && i <= j < |n.entries| && y in Desc(n.entries[j].node)
    ensures Item([n.entries[j].name] + y.rel, y.node) in Nested(n, i)
    decreases j - i
  {
    var es := n.entries;
    if i == j {
      var items := Desc(es[j].node);
      var k :| 0 <= k < |items| && items[k] == y;
      assert Prefixed(es[j].name, items)[k] == Item([es[j].name] + y.rel, y.node);
    } else {
      NestedContains(n, i + 1, j, y);
    }
  }

  // ---------------------------------------------------------------------------
  // The walk order lists every descendant exactly once, and nothing else

  /** Each listed descendant lies strictly below `n` and is reached from `n` by its names. */
  lemma {:induction false} DescSound(n: Node, x: Item)
    requires WellFormed(n) && x in Desc(n)
    ensures |x.rel| >= 1 && AllProper(x.rel) && Resolve(n, x.rel) == Some(x.node)
    decreases n
  {
    var es := n.entries;
    if x in Here(es, true) || x in Here(es, false) {
      var d := x in Here(es, true);
      HereMember(es, d, x);
      var j :| 0 <= j < |es| && x == Item([es[j].name], es[j].node) && es[j].node.Dir? == d;
      ChildAt(es, j);
      assert [es[j].name][1..] == [];
    } else {
      NestedMember(n, 0, x);
      var j, y :| 0 <= j < |es| && y in Desc(es[j].node) && x == Item([es[j].name] + y.rel, y.node);
      DescSound(es[j].node, y);
      ChildAt(es, j);
      assert x.rel[0] == es[j].name && x.rel[1..] == y.rel;
    }
  }

  /** Every node strictly below `n` is listed, under the names that reach it. */
  lemma {:induction false} DescComplete(n: Node, rel: seq<string>, m: Node)
    requires WellFormed(n) && |rel| >= 1 && Resolve(n, rel) == Some(m)
    ensures Item(rel, m) in Desc(n)
    decreases n
  {
    var es := n.entries;
    ChildIndex(es, rel[0]);
    var j :| 0 <= j < |es| && es[j].name == rel[0] && es[j].node == Child(es, rel[0]).value;
    var c := es[j].node;
    if |rel| == 1 {
      assert rel == [es[j].name];
      HereContains(es, c.Dir?, j);
    } else {
      DescComplete(c, rel[1..], m);
      NestedContains(n, 0, j, Item(rel[1..], m));
      assert [es[j].name] + rel[1..] == rel;
    }
  }

  lemma DistinctAppend(a: seq<Item>, b: seq<Item>)
    requires DistinctRels(a) && DistinctRels(b)
    requires forall x, y :: x in a && y in b ==> x.rel != y.rel
    ensures DistinctRels(a + b)
  {
    forall i, j | 0 <= i < j < |a + b|
      ensures (a + b)[i].rel != (a + b)[j].rel
    {
      if j < |a| {
      } else if i >= |a| {
        assert (a + b)[i] == b[i - |a|] && (a + b)[j] == b[j - |a|];
      } else {
        assert (a + b)[i] in a && (a + b)[j] in b;
      }
    }
  }

  lemma {:induction false} HereDistinct(es: seq<Entry>, dirs: bool)
    requires UniqueNames(es)
    ensures DistinctRels(Here(es, dirs))
  {
    if es != [] {
      var head := if es[0].node.Dir? == dirs then [Item([es[0].name], es[0].node)] else [];
      assert UniqueNames(es[1..]) by {
        forall i, j | 0 <= i < j < |es[1..]| ensures es[1..][i].name != es[1..][j].name {
          assert es[1..][i] == es[i + 1] && es[1..][j] == es[j + 1];
        }
      }
      HereDistinct(es[1..], dirs);
      forall x, y | x in head && y in Here(es[1..], dirs) ensures x.rel != y.rel {
        HereMember(es[1..], dirs, y);
        var j :| 0 <= j < |es[1..]| && y == Item([es[1..][j].name], es[1..][j].node) && es[1..][j].node.Dir? == dirs;
        assert es[1..][j] == es[j + 1];
        assert x.rel[0] == es[0].name != es[j + 1].name == y.rel[0];
      }
      DistinctAppend(head, Here(es[1..], dirs));
    }
  }

  lemma PrefixedDistinct(name: string, items: seq<Item>)
    requires DistinctRels(items)
    ensures DistinctRels(Prefixed(name, items))
  {
    var p := Prefixed(name, items);
    forall i, j | 0 <= i < j < |p| ensures p[i].rel != p[j].rel {
      assert p[i].rel[1..] == items[i].rel;
      assert p[j].rel[1..] == items[j].rel;
    }
  }

  /** No descendant is listed twice. */
  lemma {:induction false} DescDistinct(n: Node)
    requires WellFormed(n)
    ensures DistinctRels(Desc(n))
    decreases n, 1
  {
    match n
    case File(_) =>
    case Dir(es) =>
      var dirs, files := Here(es, true), Here(es, false);
      HereDistinct(es, true);
      HereDistinct(es, false);
      forall x, y | x in dirs && y in files ensures x.rel != y.rel {
        HereMember(es, true, x);
        HereMember(es, false, y);
        var j :| 0 <= j < |es| && x == Item([es[j].name], es[j].node) && es[j].node.Dir?;
        var k :| 0 <= k < |es| && y == Item([es[k].name], es[k].node) && es[k].node.File?;
        assert j != k;
        assert x.rel[0] == es[j].name != es[k].name == y.rel[0];
      }
      DistinctAppend(dirs, files);
      NestedDistinct(n, 0);
      forall x, y | x in dirs + files && y in Nested(n, 0) ensures x.rel != y.rel {
        HereMember(es, x in dirs, x);
        NestedMember(n, 0, y);
        var j, z :| 0 <= j < |es| && z in Desc(es[j].node) && y == Item([es[j].name] + z.rel, z.node);
        DescSound(es[j].node, z);
        assert |x.rel| == 1 < |y.rel|;
      }
      DistinctAppend(dirs + files, Nested(n, 0));
  }

  lemma {:induction false} NestedDistinct(n: Node, i: nat)
    requires WellFormed(n) && n.Dir? && i <= |n.entries|
    ensures DistinctRels(Nested(n, i))
    decreases n, 0, |n.entries| - i
  {
    var es := n.entries;
    if i < |es| {
      var chunk := Prefixed(es[i].name, Desc(es[i].node));
      DescDistinct(es[i].node);
      PrefixedDistinct(es[i].name, Desc(es[i].node));
      NestedDistinct(n, i + 1);
      forall x, y | x in chunk && y in Nested(n, i + 1) ensures x.rel != y.rel {
        var k :| 0 <= k < |chunk| && chunk[k] == x;
        NestedMember(n, i + 1, y);
        var j, z :| i + 1 <= j < |es| && z in Desc(es[j].node) && y == Item([es[j].name] + z.rel, z.node);
        assert x.rel[0] == es[i].name != es[j].name == y.rel[0];
      }
      DistinctAppend(chunk, Nested(n, i + 1));
    }
  }

  /** A subtree with N files and M subdirectories lists N + M descendants. */
  lemma {:induction false} DescCount(n: Node)
    ensures |Desc(n)| == Files(n) + Subdirs(n)
    decreases n, 1
  {
    match n
    case File(_) =>
    case Dir(es) =>
      NestedCount(n, 0);
      assert es[0..] == es;
  }

  lemma {:induction false} NestedCount(n: Node, i: nat)
    requires n.Dir? && i <= |n.entries|
    ensures |Here(n.entries[i..], true)| + |Here(n.entries[i..], false)| + |Nested(n, i)|
            == FilesFrom(n, i) + SubdirsFrom(n, i)
    decreases n, 0, |n.entries| - i
  {
    var es := n.entries;
    if i < |es| {
      assert es[i..][0] == es[i] && es[i..][1..] == es[i + 1..];
      DescCount(es[i].node);
      NestedCount(n, i + 1);
    }
  }
}
