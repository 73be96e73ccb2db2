/**
 * POSIX path strings as Python's `posixpath` treats them: `str.split('/')`,
 * `'/'.join`, `os.path.join`, `os.path.normpath` and `os.path.abspath`.
 */
module PosixPath {

  /** A piece of a path between separators. */
  predicate NoSep(c: string) { '/' !in c }

  predicate AllNoSep(cs: seq<string>) { forall i :: 0 <= i < |cs| ==> NoSep(cs[i]) }

  /** A component that survives normalisation: not empty, not `.` or `..`, no separator. */
  predicate Proper(c: string) { c != "" && c != "." && c != ".." && NoSep(c) }

  predicate AllProper(cs: seq<string>) { forall i :: 0 <= i < |cs| ==> Proper(cs[i]) }

  predicate IsAbs(p: string) { |p| > 0 && p[0] == '/' }

  /** `s.split('/')`: never empty, one more piece than there are separators. */
  function Split(s: string): (r: seq<string>)
    ensures |r| >= 1 && AllNoSep(r)
    decreases |s|
  {
    if s == [] then [""]
    else
      var init := Split(s[..|s| - 1]);
      if s[|s| - 1] == '/' then init + [""]
      else init[..|init| - 1] + [init[|init| - 1] + [s[|s| - 1]]]
  }

  /** `'/'.join(cs)`. */
  function JoinAll(cs: seq<string>): string
  {
    if |cs| == 0 then ""
    else if |cs| == 1 then cs[0]
    else JoinAll(cs[..|cs| - 1]) + "/" + cs[|cs| - 1]
  }

  /** `os.path.join(a, b)` for two arguments. */
  function Join(a: string, b: string): string
  {
    if IsAbs(b) then b
    else if a == "" || a[|a| - 1] == '/' then a + b
    else a + "/" + b
  }

  /** One iteration of the component loop of `normpath`. */
  function Step(acc: seq<string>, c: string, rooted: bool): seq<string>
  {
    if c == "" || c == "." then acc
    else if c != ".." || (!rooted && acc == []) || (acc != [] && acc[|acc| - 1] == "..") then acc + [c]
    else if acc != [] then acc[..|acc| - 1]
    else acc
  }

  /** The component loop of `normpath`, run over `cs` from left to right. */
  function Collapse(cs: seq<string>, rooted: bool): seq<string>
  {
    if cs == [] then [] else Step(Collapse(cs[..|cs| - 1], rooted), cs[|cs| - 1], rooted)
  }

  /** `os.path.normpath(p)`, except that two leading slashes are not kept apart from one. */
  function NormPath(p: string): string
  {
    if p == "" then "."
    else
      var body := JoinAll(Collapse(Split(p), IsAbs(p)));
      var q := if IsAbs(p) then "/" + body else body;
      if q == "" then "." else q
  }

  /** `os.path.abspath(p)` with `cwd` standing for `os.getcwd()`. */
  function AbsPath(cwd: string, p: string): string
  {
    NormPath(if IsAbs(p) then p else Join(cwd, p))
  }

  /** The components an absolute path names, after `.`, `..` and empty pieces are resolved. */
  function Segments(p: string): seq<string>
  {
    Collapse(Split(p), true)
  }

  /** A path in the form `abspath` returns: `/` followed by proper components joined by `/`. */
  predicate Normal(p: string)
  {
    AllProper(Segments(p)) && p == "/" + JoinAll(Segments(p))
  }

  // ---------------------------------------------------------------------------
  // Split and JoinAll

  lemma {:induction false} SplitNoSep(w: string)
    requires NoSep(w)
    ensures Split(w) == [w]
    decreases |w|
  {
    if w != [] {
      SplitNoSep(w[..|w| - 1]);
      assert w[..|w| - 1] + [w[|w| - 1]] == w;
    }
  }

  /** Appending a separator and a separator-free piece appends exactly one piece. */
  lemma {:induction false} SplitAppend(s: string, w: string)
    requires NoSep(w)
    ensures Split(s + "/" + w) == Split(s) + [w]
    decreases |w|
  {
    var t := s + "/" + w;
    if w == [] {
      assert t[..|t| - 1] == s;
    } else {
      var w' := w[..|w| - 1];
      assert t[..|t| - 1] == s + "/" + w';
      assert NoSep(w') by { assert forall i :: 0 <= i < |w'| ==> w'[i] == w[i]; }
      SplitAppend(s, w');
      assert w' + [w[|w| - 1]] == w;
    }
  }

  /** `'/'.join` undoes `split('/')` and vice versa on separator-free pieces. */
  lemma {:induction false} SplitJoinAll(cs: seq<string>)
    requires |cs| >= 1 && AllNoSep(cs)
    ensures Split(JoinAll(cs)) == cs
    decreases |cs|
  {
    if |cs| == 1 {
      SplitNoSep(cs[0]);
    } else {
      var init, w := cs[..|cs| - 1], cs[|cs| - 1];
      assert AllNoSep(init) by { assert forall i :: 0 <= i < |init| ==> init[i] == cs[i]; }
      assert NoSep(w);
      assert JoinAll(cs) == JoinAll(init) + "/" + w;
      SplitJoinAll(init);
      SplitAppend(JoinAll(init), w);
      assert init + [w] == cs;
    }
  }

  /** `'/'.join` of one more piece adds a separator and that piece. */
  lemma JoinAllSnoc(cs: seq<string>, w: string)
    requires |cs| >= 1
    ensures JoinAll(cs + [w]) == JoinAll(cs) + "/" + w
  {
    assert (cs + [w])[..|cs|] == cs;
  }

  /** Extending the last piece extends the joined string by the same character. */
  lemma ExtendLast(init: seq<string>, ch: char)
    requires |init| >= 1
    ensures JoinAll(init[..|init| - 1] + [init[|init| - 1] + [ch]]) == JoinAll(init) + [ch]
  {
    var k := |init|;
    var w := init[k - 1];
    var front := init[..k - 1];
    var r := front + [w + [ch]];
    assert |r| == k && r[k - 1] == w + [ch];
    if k == 1 {
      assert r == [w + [ch]];
    } else {
      assert r[..k - 1] == front;
      assert JoinAll(r) == JoinAll(front) + "/" + (w + [ch]);
      assert JoinAll(init) == JoinAll(front) + "/" + w;
    }
  }

  lemma {:induction false} JoinAllSplit(s: string)
    ensures JoinAll(Split(s)) == s
    decreases |s|
  {
    if s != [] {
      var s' := s[..|s| - 1];
      var ch := s[|s| - 1];
      var init := Split(s');
      JoinAllSplit(s');
      assert s' + [ch] == s;
      if ch == '/' {
        assert Split(s) == init + [""];
        JoinAllSnoc(init, "");
      } else {
        assert Split(s) == init[..|init| - 1] + [init[|init| - 1] + [ch]];
        ExtendLast(init, ch);
      }
    }
  }

  /** Splitting `/` followed by joined pieces gives the empty root piece, then the pieces. */
  lemma {:induction false} SplitRooted(cs: seq<string>)
    requires |cs| >= 1 && AllNoSep(cs)
    ensures Split("/" + JoinAll(cs)) == [""] + cs
    decreases |cs|
  {
    var last := cs[|cs| - 1];
    if |cs| == 1 {
      assert "/" + JoinAll(cs) == "" + "/" + last;
      SplitAppend("", last);
      assert [""] + [last] == [""] + cs;
    } else {
      var init := cs[..|cs| - 1];
      assert JoinAll(cs) == JoinAll(init) + "/" + last;
      SplitRooted(init);
      assert "/" + JoinAll(cs) == ("/" + JoinAll(init)) + "/" + last;
      SplitAppend("/" + JoinAll(init), last);
      assert ([""] + init) + [last] == [""] + cs by {
        assert init + [last] == cs;
      }
    }
  }

  /** The front view of `'/'.join`. */
  lemma {:induction false} JoinAllCons(cs: seq<string>)
    requires |cs| >= 2
    ensures JoinAll(cs) == cs[0] + "/" + JoinAll(cs[1..])
    decreases |cs|
  {
    if |cs| > 2 {
      var init := cs[..|cs| - 1];
      JoinAllCons(init);
      assert init[1..] == cs[1..][..|cs[1..]| - 1];
    }
  }

  // ---------------------------------------------------------------------------
  // Collapse

  lemma {:induction false} CollapseSnoc(cs: seq<string>, c: string, rooted: bool)
    ensures Collapse(cs + [c], rooted) == Step(Collapse(cs, rooted), c, rooted)
  {
    assert (cs + [c])[..|cs|] == cs;
  }

  /** Rooted, the component loop keeps only proper components. */
  lemma {:induction false} CollapseRootedProper(cs: seq<string>)
    requires AllNoSep(cs)
    ensures AllProper(Collapse(cs, true))
    decreases |cs|
  {
    if cs != [] {
      var init := cs[..|cs| - 1];
      CollapseRootedProper(init);
      CollapseSnoc(init, cs[|cs| - 1], true);
      assert init + [cs[|cs| - 1]] == cs;
    }
  }

  /** Proper components pass through the component loop unchanged. */
  lemma {:induction false} CollapseProperTail(pre: seq<string>, cs: seq<string>, rooted: bool)
    requires AllProper(cs)
    ensures Collapse(pre + cs, rooted) == Collapse(pre, rooted) + cs
    decreases |cs|
  {
    if cs == [] {
      assert pre + cs == pre;
    } else {
      var init := cs[..|cs| - 1];
      CollapseProperTail(pre, init, rooted);
      assert pre + cs == (pre + init) + [cs[|cs| - 1]];
      CollapseSnoc(pre + init, cs[|cs| - 1], rooted);
    }
  }

  // ---------------------------------------------------------------------------
  // normpath and abspath

  /** An absolute path normalises to `/` followed by its proper segments. */
  lemma NormPathAbs(p: string)
    requires IsAbs(p)
    ensures NormPath(p) == "/" + JoinAll(Segments(p))
    ensures AllProper(Segments(p))
  {
    CollapseRootedProper(Split(p));
  }

  /** The segments of a normal path are the proper components it was built from. */
  lemma SegmentsOfNormal(cs: seq<string>)
    requires AllProper(cs)
    ensures Segments("/" + JoinAll(cs)) == cs
  {
    assert AllNoSep(cs);
    if cs == [] {
      assert "/" + JoinAll(cs) == "" + "/" + "";
      SplitAppend("", "");
      CollapseSnoc([], "", true);
      CollapseSnoc([""], "", true);
      assert [""] + [""] == ["", ""];
    } else {
      SplitRooted(cs);
      CollapseProperTail([""], cs, true);
    }
  }

  /** A path built as `/` and proper components is fixed by `abspath` and names exactly those components. */
  lemma AbsPathOfNormal(cwd: string, cs: seq<string>)
    requires AllProper(cs)
    ensures AbsPath(cwd, "/" + JoinAll(cs)) == "/" + JoinAll(cs)
    ensures Segments("/" + JoinAll(cs)) == cs
  {
    SegmentsOfNormal(cs);
    NormPathAbs("/" + JoinAll(cs));
  }

  /** `normpath` of an absolute path is normal, and normalising again changes nothing. */
  lemma NormPathNormal(p: string)
    requires IsAbs(p)
    ensures Normal(NormPath(p))
    ensures NormPath(NormPath(p)) == NormPath(p)
  {
    NormPathAbs(p);
    var cs := Segments(p);
    var q := NormPath(p);
    SegmentsOfNormal(cs);
    NormPathAbs(q);
  }

  /** With an absolute working directory, `abspath` returns a normal path that `abspath` fixes. */
  lemma AbsPathNormal(cwd: string, p: string)
    requires IsAbs(cwd)
    ensures IsAbs(AbsPath(cwd, p)) && Normal(AbsPath(cwd, p))
    ensures AbsPath(cwd, AbsPath(cwd, p)) == AbsPath(cwd, p)
  {
    var joined := if IsAbs(p) then p else Join(cwd, p);
    assert IsAbs(joined);
    NormPathNormal(joined);
  }

  /** Joining a proper name onto a path adds exactly that name to its segments. */
  lemma SegmentsJoin(root: string, name: string)
    requires root != [] && Proper(name)
    ensures Segments(Join(root, name)) == Segments(root) + [name]
  {
    assert !IsAbs(name);
    if root[|root| - 1] == '/' {
      var r' := root[..|root| - 1];
      assert root == r' + "/" + "";
      assert Join(root, name) == r' + "/" + name;
      SplitAppend(r', "");
      SplitAppend(r', name);
      CollapseSnoc(Split(r'), "", true);
      CollapseSnoc(Split(r'), name, true);
    } else {
      SplitAppend(root, name);
      CollapseSnoc(Split(root), name, true);
    }
  }

  /** `abspath` of a relative proper name resolves it against the working directory, one segment below it. */
  lemma AbsPathRelativeName(cwd: string, name: string)
    requires IsAbs(cwd) && Proper(name)
    ensures Segments(AbsPath(cwd, name)) == Segments(cwd) + [name]
  {
    assert name[0] in name;
    var q := Join(cwd, name);
    assert q[0] == cwd[0];
    NormPathAbs(q);
    SegmentsOfNormal(Segments(q));
    SegmentsJoin(cwd, name);
  }
}
