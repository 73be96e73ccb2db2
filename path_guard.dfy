/**
 * `safe_path`: a client path is made absolute with `os.path.abspath`; when
 * `MCP_BASE_PATH` is set, the result must start, as a character string, with
 * `os.path.abspath(MCP_BASE_PATH)`.
 */
module PathGuard {
  import opened Wrappers
  import opened Http
  import opened PosixPath

  /** Python's truthiness of `MCP_BASE_PATH`: present and not empty. */
  predicate Configured(basePath: Option<string>) { basePath.Some? && basePath.value != "" }

  /** `safe_path(path)` with `basePath` for `MCP_BASE_PATH` and `cwd` for the process's working directory. */
  function SafePath(basePath: Option<string>, cwd: string, path: string): (r: Result<string, HttpException>)
    ensures r.Success? ==> r.value == AbsPath(cwd, path)
    ensures r.Failure? ==> Configured(basePath) && r.error.statusCode == 403
  {
    var absPath := AbsPath(cwd, path);
    if Configured(basePath) then
      var base := AbsPath(cwd, basePath.value);
      if !(base <= absPath) then
        Failure(HttpException(403, Message("Access to paths outside of " + basePath.value + " is not allowed")))
      else Success(absPath)
    else Success(absPath)
  }

  /** Segment-wise containment: the base's segments are a prefix of the path's. */
  predicate Within(base: seq<string>, path: seq<string>) { base <= path }

  /**
   * What a raw character-prefix test means on segments: every segment of the
   * base but the last is matched exactly, and the last is only a character
   * prefix of the path's segment at that position.
   */
  predicate CharPrefixed(base: seq<string>, path: seq<string>)
  {
    base == [] ||
    (|base| <= |path| && base[..|base| - 1] == path[..|base| - 1] && base[|base| - 1] <= path[|base| - 1])
  }

  // ---------------------------------------------------------------------------
  // Character prefixes of joined components

  /** In `x + "/" + u` with a separator-free `x`, the first separator sits at index `|x|`. */
  lemma FirstSep(x: string, u: string)
    requires NoSep(x)
    ensures (x + "/" + u)[|x|] == '/'
    ensures forall i :: 0 <= i < |x| ==> (x + "/" + u)[i] == x[i] != '/'
  {
  }

  lemma PrefixAt(a: string, b: string)
    requires a <= b
    ensures |a| <= |b| && forall i :: 0 <= i < |a| ==> a[i] == b[i]
  {
  }

  lemma SepInPrefixed(x: string, u: string, y: string)
    ensures x + "/" + u <= y ==> |x| < |y| && y[|x|] == '/'
  {
    if x + "/" + u <= y {
      PrefixAt(x + "/" + u, y);
      assert (x + "/" + u)[|x|] == y[|x|];
    }
  }

  lemma SepBlocksPrefix(x: string, u: string, y: string)
    requires NoSep(y)
    ensures !(x + "/" + u <= y)
  {
    SepInPrefixed(x, u, y);
  }

  lemma PieceBeforeSep(x: string, y: string, v: string)
    requires NoSep(x)
    ensures x <= y + "/" + v <==> x <= y
  {
    var Y := y + "/" + v;
    assert Y[|y|] == '/';
    if x <= Y {
      PrefixAt(x, Y);
      assert |x| <= |y|;
      assert x == y[..|x|];
    }
    if x <= y {
      assert forall i :: 0 <= i < |x| ==> x[i] == Y[i];
    }
  }

  lemma SepAgainstSep(x: string, u: string, y: string, v: string)
    requires NoSep(x) && NoSep(y)
    ensures x + "/" + u <= y + "/" + v <==> x == y && u <= v
  {
    var X := x + "/" + u;
    var Y := y + "/" + v;
    FirstSep(x, u);
    FirstSep(y, v);
    if X <= Y {
      PrefixAt(X, Y);
      assert |x| == |y|;
      assert x == y by { assert forall i :: 0 <= i < |x| ==> x[i] == X[i] == Y[i] == y[i]; }
      assert u <= v by {
        assert forall i :: 0 <= i < |u| ==> u[i] == X[|x| + 1 + i] == Y[|y| + 1 + i] == v[i];
      }
    }
    if x == y && u <= v {
      assert forall i :: 0 <= i < |X| ==> X[i] == Y[i];
    }
  }

  /** `CharPrefixed` on two or more base segments peels off the first segment. */
  lemma CharPrefixedCons(base: seq<string>, path: seq<string>)
    requires |base| >= 2 && |path| >= 2
    ensures CharPrefixed(base, path) <==> base[0] == path[0] && CharPrefixed(base[1..], path[1..])
  {
    var k := |base| - 1;
    if CharPrefixed(base, path) {
      assert base[1..][..k - 1] == base[..k][1..];
      assert path[1..][..k - 1] == path[..k][1..];
    }
    if base[0] == path[0] && CharPrefixed(base[1..], path[1..]) {
      assert base[..k] == [base[0]] + base[1..][..k - 1];
      assert path[..k] == [path[0]] + path[1..][..k - 1];
    }
  }

  /** A character prefix of `'/'.join(path)` by `'/'.join(base)` is exactly `CharPrefixed`. */
  lemma {:induction false} JoinAllPrefix(base: seq<string>, path: seq<string>)
    requires AllProper(base) && AllNoSep(path)
    ensures JoinAll(base) <= JoinAll(path) <==> CharPrefixed(base, path)
    decreases |base|
  {
    if |base| == 1 {
      if |path| >= 2 {
        JoinAllCons(path);
        PieceBeforeSep(base[0], path[0], JoinAll(path[1..]));
      }
    } else if |base| >= 2 {
      JoinAllCons(base);
      if |path| == 1 {
        SepBlocksPrefix(base[0], JoinAll(base[1..]), path[0]);
      } else if |path| >= 2 {
        JoinAllCons(path);
        SepAgainstSep(base[0], JoinAll(base[1..]), path[0], JoinAll(path[1..]));
        JoinAllPrefix(base[1..], path[1..]);
        CharPrefixedCons(base, path);
      }
    }
  }

  // ---------------------------------------------------------------------------
  // What safe_path guarantees and what it does not

  /** Without a base, the normalised absolute path comes back unchecked, and it is a fixed point of `abspath`. */
  lemma UncheckedWithoutBase(basePath: Option<string>, cwd: string, path: string)
    requires !Configured(basePath) && IsAbs(cwd)
    ensures SafePath(basePath, cwd, path) == Success(AbsPath(cwd, path))
    ensures IsAbs(AbsPath(cwd, path)) && Normal(AbsPath(cwd, path))
    ensures AbsPath(cwd, AbsPath(cwd, path)) == AbsPath(cwd, path)
  {
    AbsPathNormal(cwd, path);
  }

  /**
   * With a base, a path is accepted exactly when the base's segments
   * character-prefix the path's segments; every refusal is a 403.
   */
  lemma AcceptedIffCharPrefixed(basePath: Option<string>, cwd: string, path: string)
    requires Configured(basePath) && IsAbs(cwd)
    ensures SafePath(basePath, cwd, path).Success? <==>
              CharPrefixed(Segments(AbsPath(cwd, basePath.value)), Segments(AbsPath(cwd, path)))
    ensures SafePath(basePath, cwd, path).Failure? ==> SafePath(basePath, cwd, path).error.statusCode == 403
  {
    var b := AbsPath(cwd, basePath.value);
    var p := AbsPath(cwd, path);
    AbsPathNormal(cwd, basePath.value);
    AbsPathNormal(cwd, path);
    var bs, ps := Segments(b), Segments(p);
    JoinAllPrefix(bs, ps);
    assert b <= p <==> JoinAll(bs) <= JoinAll(ps) by {
      if b <= p {
        assert forall i :: 0 <= i < |JoinAll(bs)| ==> JoinAll(bs)[i] == b[i + 1] == p[i + 1] == JoinAll(ps)[i];
      }
      if JoinAll(bs) <= JoinAll(ps) {
        assert forall i :: 0 <= i < |b| ==> b[i] == p[i];
      }
    }
  }

  /** Every segment-wise descendant of the base (the base itself included) is accepted. */
  lemma DescendantAccepted(basePath: Option<string>, cwd: string, path: string)
    requires Configured(basePath) && IsAbs(cwd)
    requires Within(Segments(AbsPath(cwd, basePath.value)), Segments(AbsPath(cwd, path)))
    ensures SafePath(basePath, cwd, path) == Success(AbsPath(cwd, path))
  {
    AcceptedIffCharPrefixed(basePath, cwd, path);
    var bs, ps := Segments(AbsPath(cwd, basePath.value)), Segments(AbsPath(cwd, path));
    if bs != [] {
      assert bs[..|bs| - 1] == ps[..|bs| - 1];
      assert bs[|bs| - 1] == ps[|bs| - 1];
    }
  }

  /**
   * `..` cannot climb above the base's parent: an accepted path keeps every
   * segment of the base except the last, continues below it, and its
   * segment at the base's depth starts with the base's last segment.
   */
  lemma AcceptedStaysBelowParent(basePath: Option<string>, cwd: string, path: string)
    requires Configured(basePath) && IsAbs(cwd)
    requires SafePath(basePath, cwd, path).Success?
    ensures var bs, ps := Segments(AbsPath(cwd, basePath.value)), Segments(AbsPath(cwd, path));
            bs != [] ==> Within(bs[..|bs| - 1], ps) && |bs| <= |ps| && bs[|bs| - 1] <= ps[|bs| - 1]
  {
    AcceptedIffCharPrefixed(basePath, cwd, path);
  }

  /**
   * A base admits every character-prefix sibling: under base `/name`, the
   * path `/name<suffix>/x` (for instance `/data2/x` under `/data`) comes back
   * unchanged, although it is not within the base.
   */
  lemma SiblingAccepted(cwd: string, name: string, suffix: string, x: string)
    requires Proper(name) && suffix != "" && Proper(name + suffix) && Proper(x)
    ensures SafePath(Some("/" + name), cwd, "/" + name + suffix + "/" + x) == Success("/" + name + suffix + "/" + x)
    ensures !Within(Segments("/" + name), Segments("/" + name + suffix + "/" + x))
  {
    var base := "/" + name;
    var path := "/" + name + suffix + "/" + x;
    var cs := [name + suffix, x];
    assert base == "/" + JoinAll([name]);
    AbsPathOfNormal(cwd, [name]);
    assert JoinAll(cs) == (name + suffix) + "/" + x by { assert cs[..1] == [name + suffix]; }
    assert path == "/" + JoinAll(cs);
    AbsPathOfNormal(cwd, cs);
    assert base <= path by { assert path[..|base|] == base; }
    assert [name] != cs[..1] by { assert |name| < |name + suffix|; }
  }

  /** `/d/../e` splits into the empty root piece, `d`, `..` and `e`. */
  lemma EscapeSplit(d: string, e: string)
    requires Proper(d) && Proper(e)
    ensures Split("/" + d + "/../" + e) == [""] + [d] + [".."] + [e]
  {
    var a := "" + "/" + d;
    var b := a + "/" + "..";
    assert b + "/" + e == "/" + d + "/../" + e;
    SplitAppend("", d);
    SplitAppend(a, "..");
    SplitAppend(b, e);
  }

  /** Rooted, a `..` cancels the proper component just before it. */
  lemma DotDotCancels(pre: seq<string>, d: string)
    requires Proper(d)
    ensures Collapse(pre + [d] + [".."], true) == Collapse(pre, true)
  {
    CollapseSnoc(pre, d, true);
    CollapseSnoc(pre + [d], "..", true);
    var acc := Collapse(pre, true);
    assert (acc + [d])[..|acc|] == acc;
  }

  /** The component loop drops `d` against the following `..`. */
  lemma EscapeCollapse(d: string, e: string)
    requires Proper(d) && Proper(e)
    ensures Collapse([""] + [d] + [".."] + [e], true) == [e]
  {
    DotDotCancels([""], d);
    CollapseSnoc([""] + [d] + [".."], e, true);
    CollapseSnoc([], "", true);
  }

  /** `/d/../e` names the single segment `e`. */
  lemma EscapeSegments(d: string, e: string)
    requires Proper(d) && Proper(e)
    ensures Segments("/" + d + "/../" + e) == [e]
  {
    EscapeSplit(d, e);
    EscapeCollapse(d, e);
  }

  /** A character prefix survives the leading separator in both directions. */
  lemma RootedPrefix(d: string, e: string)
    ensures "/" + d <= "/" + e <==> d <= e
  {
    if "/" + d <= "/" + e {
      assert forall i :: 0 <= i < |d| ==> d[i] == ("/" + d)[i + 1] == ("/" + e)[i + 1] == e[i];
    }
    if d <= e {
      assert ("/" + e)[..|d| + 1] == "/" + e[..|d|];
    }
  }

  /**
   * A `..` that leaves the base is resolved before the test: under base `/d`,
   * `/d/../e` becomes `/e` and is refused unless `d` is a character prefix of `e`.
   */
  lemma DotDotEscapeRefused(cwd: string, d: string, e: string)
    requires Proper(d) && Proper(e) && !(d <= e)
    ensures AbsPath(cwd, "/" + d + "/../" + e) == "/" + e
    ensures SafePath(Some("/" + d), cwd, "/" + d + "/../" + e).Failure?
  {
    var p := "/" + d + "/../" + e;
    EscapeSegments(d, e);
    NormPathAbs(p);
    assert JoinAll([e]) == e;
    assert "/" + d == "/" + JoinAll([d]);
    AbsPathOfNormal(cwd, [d]);
    RootedPrefix(d, e);
  }
}
