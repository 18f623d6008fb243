/**
 * The few Python string operations the pipeline relies on, over Dafny strings
 * (one char per Unicode code point, as in Python 3 `str`).
 */
module Text {

  /** `c.isspace()` in Python 3: the characters `str.strip()` removes. */
  predicate IsSpace(c: char) {
    c == ' ' || ('\t' <= c <= '\r') || ('\U{1c}' <= c <= '\U{1f}')
    || c == '\U{85}' || c == '\U{a0}' || c == '\U{1680}'
    || ('\U{2000}' <= c <= '\U{200a}') || c == '\U{2028}' || c == '\U{2029}'
    || c == '\U{202f}' || c == '\U{205f}' || c == '\U{3000}'
  }

  /** `not s.strip()`: the string is empty or whitespace only. */
  predicate IsBlank(s: string) {
    forall i :: 0 <= i < |s| ==> IsSpace(s[i])
  }

  /** `s.lstrip()` */
  function TrimStart(s: string): (r: string)
    ensures |r| <= |s| && r == s[|s| - |r|..]
    ensures IsBlank(s[..|s| - |r|])
    ensures r == [] || !IsSpace(r[0])
    decreases |s|
  {
    if s != [] && IsSpace(s[0]) then
      var r := TrimStart(s[1..]);
      TrimStartStep(s, r);
      r
    else s
  }

  /** Trimming after a leading space: the space joins the trimmed prefix. */
  lemma TrimStartStep(s: string, r: string)
    requires s != [] && IsSpace(s[0])
    requires |r| <= |s| - 1 && r == s[1..][|s| - 1 - |r|..] && IsBlank(s[1..][..|s| - 1 - |r|])
    ensures r == s[|s| - |r|..] && IsBlank(s[..|s| - |r|])
  {
    assert s[1..][|s| - 1 - |r|..] == s[|s| - |r|..];
    forall i | 0 <= i < |s| - |r| ensures IsSpace(s[i]) {
      if i > 0 {
        assert s[i] == s[1..][..|s| - 1 - |r|][i - 1];
      }
    }
  }

  /** `s.rstrip()` */
  function TrimEnd(s: string): (r: string)
    ensures |r| <= |s| && r == s[..|r|]
    ensures IsBlank(s[|r|..])
    ensures r == [] || !IsSpace(r[|r| - 1])
    decreases |s|
  {
    if s != [] && IsSpace(s[|s| - 1]) then
      var r := TrimEnd(s[..|s| - 1]);
      TrimEndStep(s, r);
      r
    else s
  }

  /** Trimming before a trailing space: the space joins the trimmed suffix. */
  lemma TrimEndStep(s: string, r: string)
    requires s != [] && IsSpace(s[|s| - 1])
    requires |r| <= |s| - 1 && r == s[..|s| - 1][..|r|] && IsBlank(s[..|s| - 1][|r|..])
    ensures r == s[..|r|] && IsBlank(s[|r|..])
  {
    assert s[..|s| - 1][..|r|] == s[..|r|];
    forall i | |r| <= i < |s| ensures IsSpace(s[i]) {
      if i < |s| - 1 {
        assert s[i] == s[..|s| - 1][|r|..][i - |r|];
      }
    }
  }

  /** `s.strip()` */
  function Strip(s: string): (r: string)
    ensures IsInfix(r, s)
    ensures r == [] || (!IsSpace(r[0]) && !IsSpace(r[|r| - 1]))
    ensures r == [] <==> IsBlank(s)
    ensures BlankAround(r, s)
  {
    StripInfix(s);
    StripBlank(s);
    StripEdges(s);
    TrimEnd(TrimStart(s))
  }

  /** `s` is `r` with white space only around it. */
  ghost predicate BlankAround(r: string, s: string) {
    exists i :: 0 <= i <= |s| - |r| && Slice(s, i, |r|) == r && IsBlank(s[..i]) && IsBlank(s[i + |r|..])
  }

  /** What trimming removes from either end of `s` is white space. */
  lemma StripEdges(s: string)
    ensures BlankAround(TrimEnd(TrimStart(s)), s)
  {
    var t := TrimStart(s);
    var r := TrimEnd(t);
    var i := |s| - |t|;
    assert s[i..] == t;
    assert Slice(s, i, |r|) == r by { assert s[i..][..|r|] == s[i..i + |r|]; }
    assert s[i + |r|..] == t[|r|..];
  }

  lemma {:induction false} StripInfix(s: string)
    ensures IsInfix(TrimEnd(TrimStart(s)), s)
  {
    var t := TrimStart(s);
    InfixOfPrefixOfSuffix(s, t, TrimEnd(t));
  }

  /** A prefix of a suffix of `s` occurs in `s`. */
  lemma InfixOfPrefixOfSuffix(s: string, t: string, r: string)
    requires |t| <= |s| && t == s[|s| - |t|..] && |r| <= |t| && r == t[..|r|]
    ensures IsInfix(r, s)
  {
    var k := |s| - |t|;
    assert forall j :: 0 <= j < |r| ==> s[k..k + |r|][j] == r[j];
    assert Slice(s, k, |r|) == r;
  }

  lemma {:induction false} StripBlank(s: string)
    ensures TrimEnd(TrimStart(s)) == [] <==> IsBlank(s)
  {
    if TrimEnd(TrimStart(s)) == [] {
      StrippedBlank(s);
    } else {
      KeptNotBlank(s);
    }
  }

  lemma {:induction false} StrippedBlank(s: string)
    requires TrimEnd(TrimStart(s)) == []
    ensures IsBlank(s)
  {
    var t := TrimStart(s);
    BlankOfTrimmed(t, TrimEnd(t));
    BlankOfSuffix(s, t);
  }

  /** A string that right-trims to nothing is blank. */
  lemma BlankOfTrimmed(t: string, r: string)
    requires r == [] && IsBlank(t[|r|..])
    ensures IsBlank(t)
  {
    assert t[|r|..] == t;
  }

  /** A string whose blank suffix `t` follows a blank prefix is blank. */
  lemma BlankOfSuffix(s: string, t: string)
    requires |t| <= |s| && t == s[|s| - |t|..] && IsBlank(s[..|s| - |t|]) && IsBlank(t)
    ensures IsBlank(s)
  {
    BlankOfParts(s, |s| - |t|);
  }

  /** A string whose two parts around `k` are blank is blank. */
  lemma BlankOfParts(s: string, k: nat)
    requires k <= |s| && IsBlank(s[..k]) && IsBlank(s[k..])
    ensures IsBlank(s)
  {
    forall i | 0 <= i < |s| ensures IsSpace(s[i]) {
      if i < k {
        assert s[..k][i] == s[i];
      } else {
        assert s[k..][i - k] == s[i];
      }
    }
  }

  lemma {:induction false} KeptNotBlank(s: string)
    requires TrimEnd(TrimStart(s)) != []
    ensures !IsBlank(s)
  {
    var t := TrimStart(s);
    assert s[|s| - |t|] == t[0];
    assert !IsSpace(s[|s| - |t|]);
  }

  /** `a` occurs as a contiguous substring of `b`. */
  ghost predicate IsInfix(a: string, b: string) {
    exists i :: 0 <= i <= |b| - |a| && Slice(b, i, |a|) == a
  }

  /** `b[i:i+n]` */
  function Slice(b: string, i: nat, n: nat): string
    requires i + n <= |b|
  {
    b[i..i + n]
  }

  lemma InfixOfConcat(a: string, x: string, y: string)
    ensures IsInfix(a, x + a + y)
  {
    var b := x + a + y;
    assert Slice(b, |x|, |a|) == a;
  }

  lemma InfixSuffix(a: string, x: string)
    ensures IsInfix(a, x + a)
  {
    assert Slice(x + a, |x|, |a|) == a;
  }

  /** An infix stays one when the string around it grows on either side. */
  lemma InfixExtend(a: string, b: string, x: string, y: string)
    requires IsInfix(a, b)
    ensures IsInfix(a, b + y) && IsInfix(a, x + b)
  {
    var i :| 0 <= i <= |b| - |a| && Slice(b, i, |a|) == a;
    assert forall j :: i <= j < i + |a| ==> (b + y)[j] == b[j];
    assert Slice(b + y, i, |a|) == a;
    assert forall j :: i <= j < i + |a| ==> (x + b)[|x| + j] == b[j];
    assert Slice(x + b, |x| + i, |a|) == a;
  }

  /** An infix of an infix is an infix. */
  lemma InfixTrans(a: string, b: string, c: string)
    requires IsInfix(a, b) && IsInfix(b, c)
    ensures IsInfix(a, c)
  {
    var i :| 0 <= i <= |b| - |a| && Slice(b, i, |a|) == a;
    var j :| 0 <= j <= |c| - |b| && Slice(c, j, |b|) == b;
    assert forall k :: 0 <= k < |a| ==> c[j + i + k] == b[i + k] == a[k];
    assert Slice(c, j + i, |a|) == a;
  }

  /** ASCII case folding of one character. */
  function LowerChar(c: char): char {
    if 'A' <= c <= 'Z' then (c as int + 32) as char else c
  }

  /**
   * `s.lower()`, restricted to ASCII letters. Python also folds non-ASCII letters,
   * but no non-ASCII character folds to an ASCII letter other than `k` and `i`,
   * so comparisons with the lower-case ASCII language codes are unaffected.
   */
  function Lower(s: string): (r: string)
    ensures |r| == |s|
    ensures forall i :: 0 <= i < |s| ==> r[i] == LowerChar(s[i])
  {
    seq(|s|, i requires 0 <= i < |s| => LowerChar(s[i]))
  }

  /** Lower-casing twice is lower-casing once. */
  lemma LowerIdempotent(s: string)
    ensures Lower(Lower(s)) == Lower(s)
  {
  }

  /** `s.split('\n')`: the pieces between newlines; always at least one piece. */
  function Split(s: string): (r: seq<string>)
    ensures |r| >= 1
    ensures forall i :: 0 <= i < |r| ==> '\n' !in r[i]
    decreases |s|
  {
    if s == [] then [""]
    else
      var rest := Split(s[1..]);
      if s[0] == '\n' then [""] + rest
      else [[s[0]] + rest[0]] + rest[1..]
  }

  /** `"\n".join(parts)` */
  function JoinLines(parts: seq<string>): string
    decreases |parts|
  {
    if |parts| == 0 then ""
    else if |parts| == 1 then parts[0]
    else parts[0] + "\n" + JoinLines(parts[1..])
  }

  /** The first line of `s`, that is, everything before its first newline. */
  function FirstLine(s: string): string {
    Split(s)[0]
  }

  /** The `'\n'`-pieces of every string of `cs`, in order. */
  function Pieces(cs: seq<string>): (r: seq<string>)
    ensures forall x :: x in r ==> '\n' !in x
    decreases |cs|
  {
    if cs == [] then [] else Pieces(cs[..|cs| - 1]) + Split(cs[|cs| - 1])
  }

  /** The strings of `xs` that are not empty, in order. */
  function NonEmpty(xs: seq<string>): (r: seq<string>)
    ensures forall x :: x in r ==> x in xs && x != ""
    decreases |xs|
  {
    if xs == [] then []
    else if xs[0] == "" then NonEmpty(xs[1..])
    else [xs[0]] + NonEmpty(xs[1..])
  }

  /** `str(n)` for a natural number. */
  function NatToString(n: nat): (r: string)
    ensures |r| >= 1
    ensures forall i :: 0 <= i < |r| ==> '0' <= r[i] <= '9'
    ensures |r| > 1 ==> r[0] != '0'
    ensures DigitsValue(r) == n
    decreases n
  {
    var d := ['0' + (n % 10) as char];
    if n < 10 then d
    else
      var front := NatToString(n / 10);
      assert (front + d)[..|front + d| - 1] == front;
      front + d
  }

  /** The value of a decimal digit; other characters count as zero. */
  function DigitValue(c: char): nat {
    if '0' <= c <= '9' then c as int - '0' as int else 0
  }

  /** The number the decimal digits `ds` denote, most significant first. */
  function DigitsValue(ds: string): nat
    decreases |ds|
  {
    if ds == [] then 0 else 10 * DigitsValue(ds[..|ds| - 1]) + DigitValue(ds[|ds| - 1])
  }

  // ---------------------------------------------------------------- lemmas

  lemma {:induction false} JoinLinesAppend(a: seq<string>, b: seq<string>)
    requires a != [] && b != []
    ensures JoinLines(a + b) == JoinLines(a) + "\n" + JoinLines(b)
    decreases |a|
  {
    if |a| == 1 {
      assert (a + b)[1..] == b;
    } else {
      assert (a + b)[1..] == a[1..] + b;
      JoinLinesAppend(a[1..], b);
    }
  }

  /** Splitting at a newline splits the pieces there: `(a + "\n" + b).split('\n') == a.split('\n') + b.split('\n')`. */
  lemma {:induction false} SplitAtNewline(a: string, b: string)
    ensures Split(a + "\n" + b) == Split(a) + Split(b)
    decreases |a|
  {
    var s := a + "\n" + b;
    if a == [] {
      assert s[0] == '\n' && s[1..] == b;
    } else {
      assert s[0] == a[0] && s[1..] == a[1..] + "\n" + b;
      SplitAtNewline(a[1..], b);
    }
  }

  /** A string without newlines is its own single piece. */
  lemma {:induction false} SplitWithoutNewline(p: string)
    requires '\n' !in p
    ensures Split(p) == [p]
    decreases |p|
  {
    if p != [] {
      assert p[0] in p;
      assert forall c :: c in p[1..] ==> c in p;
      SplitWithoutNewline(p[1..]);
      assert [p[0]] + p[1..] == p;
    }
  }

  /** Joining the pieces of `s` with newlines gives `s` back. */
  lemma {:induction false} JoinSplit(s: string)
    ensures JoinLines(Split(s)) == s
    decreases |s|
  {
    if s != [] {
      var rest := Split(s[1..]);
      JoinSplit(s[1..]);
      if s[0] == '\n' {
        assert Split(s) == [""] + rest;
        JoinLinesAppend([""], rest);
      } else {
        var r := Split(s);
        assert r == [[s[0]] + rest[0]] + rest[1..];
        if |rest| == 1 {
          assert JoinLines(rest) == rest[0];
        } else {
          assert rest == [rest[0]] + rest[1..];
          JoinLinesAppend([rest[0]], rest[1..]);
          JoinLinesAppend([[s[0]] + rest[0]], rest[1..]);
        }
      }
    }
  }

  /** Splitting `"\n".join(cs)` gives the pieces of all of `cs`, in order. */
  lemma {:induction false} SplitJoinLines(cs: seq<string>)
    requires cs != []
    ensures Split(JoinLines(cs)) == Pieces(cs)
    decreases |cs|
  {
    var init := cs[..|cs| - 1];
    var last := cs[|cs| - 1];
    if |cs| == 1 {
      assert Pieces(cs) == Pieces([]) + Split(last);
    } else {
      assert cs == init + [last];
      JoinLinesAppend(init, [last]);
      SplitAtNewline(JoinLines(init), last);
      SplitJoinLines(init);
    }
  }

  /** `"\n".join` and `split('\n')` are inverse on newline-free, non-empty part lists. */
  lemma {:induction false} SplitJoinLinesExact(cs: seq<string>)
    requires cs != []
    requires forall i :: 0 <= i < |cs| ==> '\n' !in cs[i]
    ensures Split(JoinLines(cs)) == cs
    decreases |cs|
  {
    SplitJoinLines(cs);
    PiecesOfLines(cs);
  }

  lemma {:induction false} PiecesOfLines(cs: seq<string>)
    requires forall i :: 0 <= i < |cs| ==> '\n' !in cs[i]
    ensures Pieces(cs) == cs
    decreases |cs|
  {
    if cs != [] {
      PiecesOfLines(cs[..|cs| - 1]);
      SplitWithoutNewline(cs[|cs| - 1]);
    }
  }

  lemma PiecesAppend(cs: seq<string>, c: string)
    ensures Pieces(cs + [c]) == Pieces(cs) + Split(c)
  {
    assert (cs + [c])[..|cs|] == cs;
  }

  /** Joining the pieces of several strings gives the strings joined. */
  lemma {:induction false} JoinPieces(cs: seq<string>)
    requires cs != []
    ensures JoinLines(Pieces(cs)) == JoinLines(cs)
    decreases |cs|
  {
    SplitJoinLines(cs);
    JoinSplit(JoinLines(cs));
  }

  lemma FirstLineAppend(a: string, b: string)
    ensures FirstLine(a + "\n" + b) == FirstLine(a)
  {
    SplitAtNewline(a, b);
  }

  lemma NonEmptyAppend(xs: seq<string>, ys: seq<string>)
    ensures NonEmpty(xs + ys) == NonEmpty(xs) + NonEmpty(ys)
    decreases |xs|
  {
    if xs != [] {
      assert (xs + ys)[0] == xs[0];
      assert (xs + ys)[1..] == xs[1..] + ys;
      NonEmptyAppend(xs[1..], ys);
      if xs[0] == "" {
        assert NonEmpty(xs + ys) == NonEmpty(xs[1..] + ys);
      } else {
        assert NonEmpty(xs + ys) == [xs[0]] + NonEmpty(xs[1..] + ys);
      }
    } else {
      assert xs + ys == ys;
    }
  }
}
