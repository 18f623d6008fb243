/** The POSIX `os.path` operations the request handler and worker use. */
module Paths {

  /** `p.rfind(c)`: the index of the last `c` in `p`, or -1. */
  function LastIndexOf(p: string, c: char): (r: int)
    ensures -1 <= r < |p|
    ensures r >= 0 ==> p[r] == c
    ensures forall j :: r < j < |p| ==> p[j] != c
    decreases |p|
  {
    if p == [] then -1
    else if p[|p| - 1] == c then |p| - 1
    else LastIndexOf(p[..|p| - 1], c)
  }

  /** Some character of `p[lo..hi]` is not a dot. */
  predicate HasNonDot(p: string, lo: int, hi: int)
    requires 0 <= lo && hi <= |p|
  {
    exists k :: lo <= k < hi && p[k] != '.'
  }

  /**
   * `os.path.splitext(p)` on POSIX: the extension starts at the last dot, provided
   * that dot lies in the last path component and is not one of the component's
   * leading dots; otherwise the extension is empty.
   */
  function SplitExt(p: string): (r: (string, string))
    ensures r.0 + r.1 == p
    ensures r.1 == [] || (r.1[0] == '.' && '.' !in r.1[1..] && '/' !in r.1)
    ensures r.1 != [] <==> HasExtension(p)
  {
    var sep := LastIndexOf(p, '/');
    var dot := LastIndexOf(p, '.');
    ExtensionAtLastDot(p, sep, dot);
    if dot > sep && HasNonDot(p, sep + 1, dot) then
      (p[..dot], p[dot..])
    else (p, "")
  }

  /**
   * The last path component of `p` has a dot that is not one of its leading dots:
   * a character other than a dot comes before it in the component.
   */
  predicate HasExtension(p: string) {
    var sep := LastIndexOf(p, '/');
    exists k :: sep < k < |p| && p[k] == '.' && HasNonDot(p, sep + 1, k)
  }

  /** The last component has an extension exactly when its last dot is not a leading one. */
  lemma ExtensionAtLastDot(p: string, sep: int, dot: int)
    requires sep == LastIndexOf(p, '/') && dot == LastIndexOf(p, '.')
    ensures HasExtension(p) <==> dot > sep && HasNonDot(p, sep + 1, dot)
  {
    if HasExtension(p) {
      var k :| sep < k < |p| && p[k] == '.' && HasNonDot(p, sep + 1, k);
      var j :| sep + 1 <= j < k && p[j] != '.';
      assert dot >= k;
      assert sep + 1 <= j < dot && p[j] != '.';
    }
  }

  /** `os.path.basename(p)`: everything after the last slash. */
  function Basename(p: string): (r: string)
    ensures '/' !in r
    ensures exists k :: 0 <= k <= |p| && p[k..] == r
    ensures |r| < |p| ==> p[|p| - |r| - 1] == '/'
  {
    var k := LastIndexOf(p, '/') + 1;
    assert forall c :: c in p[k..] ==> c != '/';
    p[k..]
  }

  /** `os.path.join(dir, name)` for a directory name without a trailing slash. */
  function PathJoin(dir: string, name: string): (r: string)
    requires dir != [] && dir[|dir| - 1] != '/'
    ensures |name| <= |r| && r[|r| - |name|..] == name
    ensures name != [] && name[0] == '/' ==> r == name
    ensures name == [] || name[0] != '/' ==> |r| == |dir| + 1 + |name| && r[..|dir| + 1] == dir + "/"
  {
    if name != [] && name[0] == '/' then name else dir + "/" + name
  }

  lemma {:induction false} LastIndexOfAbsent(p: string, c: char)
    requires c !in p
    ensures LastIndexOf(p, c) == -1
    decreases |p|
  {
    if p != [] {
      assert p[|p| - 1] in p;
      assert forall x :: x in p[..|p| - 1] ==> x in p;
      LastIndexOfAbsent(p[..|p| - 1], c);
    }
  }

  /** A name joined under a directory is recovered by `basename`. */
  lemma BasenameOfJoin(dir: string, name: string)
    requires dir != [] && dir[|dir| - 1] != '/' && '/' !in name
    ensures Basename(PathJoin(dir, name)) == name
  {
    var p := dir + "/" + name;
    if name != [] { assert name[0] in name; }
    assert PathJoin(dir, name) == p;
    assert p[|dir|] == '/';
    assert forall j :: |dir| < j < |p| ==> p[j] == name[j - |dir| - 1];
    assert LastIndexOf(p, '/') == |dir|;
    assert p[|dir| + 1..] == name;
  }

  /** The last `c` of `a + b` is in `b` when `b` has one, and otherwise it is the last `c` of `a`. */
  lemma {:induction false} LastIndexOfConcat(a: string, b: string, c: char)
    ensures LastIndexOf(a + b, c) == if c in b then |a| + LastIndexOf(b, c) else LastIndexOf(a, c)
    decreases |b|
  {
    if b == [] {
      assert a + b == a;
    } else if b[|b| - 1] != c {
      var init := b[..|b| - 1];
      assert (a + b)[..|a + b| - 1] == a + init;
      assert b == init + [b[|b| - 1]];
      assert c in b <==> c in init;
      LastIndexOfConcat(a, init, c);
    }
  }

  /** `lo..hi` of `x + y` lies inside `x`, so it has a non-dot there exactly when it has one in `x`. */
  lemma HasNonDotPrefix(x: string, y: string, lo: int, hi: int)
    requires 0 <= lo && hi <= |x|
    ensures HasNonDot(x + y, lo, hi) <==> HasNonDot(x, lo, hi)
  {
    if HasNonDot(x + y, lo, hi) {
      var k :| lo <= k < hi && (x + y)[k] != '.';
      assert x[k] != '.';
    }
    if HasNonDot(x, lo, hi) {
      var k :| lo <= k < hi && x[k] != '.';
      assert (x + y)[k] != '.';
    }
  }

  /**
   * The extension of a file name is unchanged by putting it under a directory:
   * `splitext(join(dir, f))` splits where `splitext(f)` does.
   */
  lemma SplitExtUnder(dir: string, f: string)
    requires dir != [] && dir[|dir| - 1] != '/' && '/' !in f
    ensures SplitExt(PathJoin(dir, f)) == (dir + "/" + SplitExt(f).0, SplitExt(f).1)
  {
    assert PathJoin(dir, f) == dir + "/" + f by {
      if f != [] { assert f[0] in f; }
    }
    assert LastIndexOf(dir + "/" + f, '/') == |dir| by {
      LastIndexOfConcat(dir + "/", f, '/');
      assert LastIndexOf(dir + "/", '/') == |dir|;
    }
    assert LastIndexOf(f, '/') == -1 by {
      LastIndexOfAbsent(f, '/');
    }
    if '.' in f {
      SplitExtUnderDot(dir, f);
    } else {
      SplitExtUnderNoDot(dir, f);
    }
  }

  /** The case of `SplitExtUnder` where the name has a dot. */
  lemma SplitExtUnderDot(dir: string, f: string)
    requires '.' in f
    requires LastIndexOf(dir + "/" + f, '/') == |dir| && LastIndexOf(f, '/') == -1
    ensures SplitExt(dir + "/" + f) == (dir + "/" + SplitExt(f).0, SplitExt(f).1)
  {
    var q := dir + "/";
    var p := q + f;
    var df := LastIndexOf(f, '.');
    assert 0 <= df by {
      var i :| 0 <= i < |f| && f[i] == '.';
    }
    assert LastIndexOf(p, '.') == |q| + df by {
      LastIndexOfConcat(q, f, '.');
    }
    HasNonDotShift(q, f, 0, df);
    SplitExtAt(p, |dir|, |q| + df);
    SplitExtAt(f, -1, df);
    if HasNonDot(f, 0, df) {
      assert p[..|q| + df] == q + f[..df];
      assert p[|q| + df..] == f[df..];
    }
  }

  /** `splitext` once the last slash and the last dot are known. */
  lemma SplitExtAt(p: string, sep: int, dot: int)
    requires LastIndexOf(p, '/') == sep && LastIndexOf(p, '.') == dot
    ensures SplitExt(p) == if dot > sep && HasNonDot(p, sep + 1, dot) then (p[..dot], p[dot..]) else (p, "")
  {
  }

  /** `lo..hi` of `y` has a non-dot exactly when the same stretch of `x + y` does. */
  lemma HasNonDotShift(x: string, y: string, lo: int, hi: int)
    requires 0 <= lo && hi <= |y|
    ensures HasNonDot(x + y, |x| + lo, |x| + hi) <==> HasNonDot(y, lo, hi)
  {
    if HasNonDot(x + y, |x| + lo, |x| + hi) {
      var k :| |x| + lo <= k < |x| + hi && (x + y)[k] != '.';
      assert y[k - |x|] != '.';
    }
    if HasNonDot(y, lo, hi) {
      var k :| lo <= k < hi && y[k] != '.';
      assert (x + y)[|x| + k] != '.';
    }
  }

  /** The case of `SplitExtUnder` where the name has no dot. */
  lemma SplitExtUnderNoDot(dir: string, f: string)
    requires '.' !in f
    requires LastIndexOf(dir + "/" + f, '/') == |dir|
    ensures SplitExt(dir + "/" + f) == (dir + "/" + f, [])
    ensures SplitExt(f) == (f, [])
  {
    LastIndexOfAbsent(f, '.');
    assert LastIndexOf(dir + "/" + f, '.') < |dir| by {
      LastIndexOfConcat(dir + "/", f, '.');
      assert (dir + "/")[..|dir|] == dir;
    }
  }

  /**
   * Text without dots or slashes put in front of a name's extension leaves that
   * extension in place: `splitext(stem + mid + ext) == (stem + mid, ext)`.
   */
  lemma SplitExtInsert(f: string, mid: string)
    requires '.' !in mid && '/' !in mid
    ensures SplitExt(SplitExt(f).0 + mid + SplitExt(f).1) == (SplitExt(f).0 + mid, SplitExt(f).1)
  {
    if SplitExt(f).1 == [] {
      SplitExtAppend(f, mid);
    } else {
      SplitExtInsertBeforeDot(f, mid);
    }
  }

  /** A name without an extension keeps none when text without dots or slashes is appended. */
  lemma SplitExtAppend(f: string, mid: string)
    requires '.' !in mid && '/' !in mid && SplitExt(f).1 == []
    ensures SplitExt(f + mid) == (f + mid, [])
  {
    var sep := LastIndexOf(f, '/');
    var dot := LastIndexOf(f, '.');
    assert LastIndexOf(f + mid, '/') == sep by {
      LastIndexOfConcat(f, mid, '/');
    }
    assert LastIndexOf(f + mid, '.') == dot by {
      LastIndexOfConcat(f, mid, '.');
    }
    if dot > sep {
      HasNonDotPrefix(f, mid, sep + 1, dot);
    }
  }

  /** The case of `SplitExtInsert` where the name has an extension. */
  lemma SplitExtInsertBeforeDot(f: string, mid: string)
    requires '.' !in mid && '/' !in mid && SplitExt(f).1 != []
    ensures SplitExt(SplitExt(f).0 + mid + SplitExt(f).1) == (SplitExt(f).0 + mid, SplitExt(f).1)
  {
    var sep := LastIndexOf(f, '/');
    var dot := LastIndexOf(f, '.');
    SplitExtAt(f, sep, dot);
    assert dot > sep && HasNonDot(f, sep + 1, dot);
    var s := f[..dot];
    var e := f[dot..];
    assert SplitExt(f) == (s, e);
    var p := s + mid + e;
    assert LastIndexOf(p, '.') == |s| + |mid| by {
      assert e == "." + e[1..];
      LastIndexOfConcat(".", e[1..], '.');
      LastIndexOfConcat(s + mid, e, '.');
    }
    assert LastIndexOf(p, '/') == sep by {
      LastIndexOfConcat(s + mid, e, '/');
      LastIndexOfConcat(s, mid, '/');
      assert f == s + e;
      LastIndexOfConcat(s, e, '/');
    }
    assert HasNonDot(p, sep + 1, |s| + |mid|) by {
      var k :| sep + 1 <= k < dot && f[k] != '.';
      assert p[k] == f[k];
    }
    SplitExtAt(p, sep, |s| + |mid|);
    assert p[..|s| + |mid|] == s + mid;
    assert p[|s| + |mid|..] == e;
  }
}
