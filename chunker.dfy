/**
 * `chunk_text`: greedy packing of the `'\n'`-separated lines of a text into chunks
 * of at most `maxSize` characters, never breaking a line.
 */
module Chunker {
  import opened Text

  /**
   * The loop of `chunk_text` as a function: `done` holds the chunks emitted so far,
   * `current` the chunk being filled, `lines` the lines not yet visited. A line that
   * does not fit closes the current chunk (when it is non-empty) and starts the next
   * one; an empty line reaching an empty current chunk leaves it empty.
   */
  function Pack(lines: seq<string>, maxSize: int, done: seq<string>, current: string): seq<string>
    decreases |lines|
  {
    if lines == [] then (if current != "" then done + [current] else done)
    else
      var p := lines[0];
      if |current| + |p| + 1 > maxSize then
        Pack(lines[1..], maxSize, if current != "" then done + [current] else done, p)
      else
        Pack(lines[1..], maxSize, done, if current != "" then current + "\n" + p else p)
  }

  /** `chunk_text(text, max_size)` */
  function Chunks(text: string, maxSize: int): seq<string> {
    Pack(Split(text), maxSize, [], "")
  }

  /** `chunk_text`, the loop as written. */
  method ChunkText(text: string, maxSize: int) returns (chunks: seq<string>)
    ensures chunks == Chunks(text, maxSize)
  {
    var paragraphs := Split(text);
    chunks := [];
    var current := "";
    for i := 0 to |paragraphs|
      invariant Pack(paragraphs[i..], maxSize, chunks, current) == Chunks(text, maxSize)
    {
      var p := paragraphs[i];
      assert paragraphs[i..][1..] == paragraphs[i + 1..];
      if |current| + |p| + 1 > maxSize {
        if current != "" {
          chunks := chunks + [current];
        }
        current := p;
      } else {
        if current != "" {
          current := current + "\n" + p;
        } else {
          current := p;
        }
      }
    }
    if current != "" {
      chunks := chunks + [current];
    }
  }

  // ------------------------------------------------------------ specification

  /** Each chunk is closed early: the first line of the next chunk would not have fitted. */
  ghost predicate Greedy(cs: seq<string>, maxSize: int) {
    forall i :: 0 <= i < |cs| - 1 ==> |cs[i]| + |FirstLine(cs[i + 1])| + 1 > maxSize
  }

  /** `xs` is `ys` with some of its empty strings deleted. */
  ghost predicate Thinned(xs: seq<string>, ys: seq<string>)
    decreases |ys|
  {
    if ys == [] then xs == []
    else
      || (ys[0] == "" && Thinned(xs, ys[1..]))
      || (xs != [] && xs[0] == ys[0] && Thinned(xs[1..], ys[1..]))
  }

  /** The pieces the current chunk contributes once emitted. */
  function CurrentPieces(current: string): seq<string> {
    if current == "" then [] else Split(current)
  }

  // ------------------------------------------------------- lemmas about Pack

  lemma {:induction false} PackLeadingLine(lines: seq<string>, maxSize: int, done: seq<string>, current: string)
    requires forall i :: 0 <= i < |lines| ==> '\n' !in lines[i]
    requires forall c :: c in done ==> FirstLine(c) != ""
    requires current == "" || FirstLine(current) != ""
    ensures forall c :: c in Pack(lines, maxSize, done, current) ==> FirstLine(c) != ""
    decreases |lines|
  {
    if lines != [] {
      var p := lines[0];
      SplitWithoutNewline(p);
      if |current| + |p| + 1 > maxSize {
        PackLeadingLine(lines[1..], maxSize, if current != "" then done + [current] else done, p);
      } else {
        if current != "" {
          FirstLineAppend(current, p);
        }
        PackLeadingLine(lines[1..], maxSize, done, if current != "" then current + "\n" + p else p);
      }
    }
  }

  lemma {:induction false} PackBounded(lines: seq<string>, maxSize: int, done: seq<string>, current: string)
    requires forall i :: 0 <= i < |lines| ==> '\n' !in lines[i]
    requires forall c :: c in done ==> '\n' in c ==> |c| <= maxSize
    requires '\n' in current ==> |current| <= maxSize
    ensures forall c :: c in Pack(lines, maxSize, done, current) ==> '\n' in c ==> |c| <= maxSize
    decreases |lines|
  {
    if lines != [] {
      var p := lines[0];
      if |current| + |p| + 1 > maxSize {
        PackBounded(lines[1..], maxSize, if current != "" then done + [current] else done, p);
      } else {
        PackBounded(lines[1..], maxSize, done, if current != "" then current + "\n" + p else p);
      }
    }
  }

  lemma {:induction false} PackGreedy(lines: seq<string>, maxSize: int, done: seq<string>, current: string)
    requires forall i :: 0 <= i < |lines| ==> '\n' !in lines[i]
    requires Greedy(done + [current], maxSize)
    ensures Greedy(Pack(lines, maxSize, done, current), maxSize)
    decreases |lines|
  {
    if lines == [] {
      if current == "" {
        var s := done + [current];
        assert forall i :: 0 <= i < |done| ==> done[i] == s[i];
      }
    } else {
      var p := lines[0];
      GreedyStep(done, current, p, maxSize);
      PackGreedy(lines[1..], maxSize, DoneAfter(done, current, p, maxSize), CurrentAfter(current, p, maxSize));
    }
  }

  /** Visiting one line keeps the closed chunks and the current one greedy. */
  lemma GreedyStep(done: seq<string>, current: string, p: string, maxSize: int)
    requires '\n' !in p
    requires Greedy(done + [current], maxSize)
    ensures Greedy(DoneAfter(done, current, p, maxSize) + [CurrentAfter(current, p, maxSize)], maxSize)
  {
    var s := done + [current];
    SplitWithoutNewline(p);
    assert FirstLine(p) == p;
    if |current| + |p| + 1 > maxSize && current != "" {
      var t := done + [current] + [p];
      assert forall i :: 0 <= i < |s| ==> t[i] == s[i];
    } else if current != "" {
      var c := current + "\n" + p;
      FirstLineAppend(current, p);
      var t := done + [c];
      assert DoneAfter(done, current, p, maxSize) + [CurrentAfter(current, p, maxSize)] == t;
      forall i | 0 <= i < |t| - 1
        ensures |t[i]| + |FirstLine(t[i + 1])| + 1 > maxSize
      {
        assert t[i] == s[i] && FirstLine(t[i + 1]) == FirstLine(s[i + 1]);
      }
    } else {
      SplitWithoutNewline("");
      var t := done + [p];
      assert DoneAfter(done, current, p, maxSize) + [CurrentAfter(current, p, maxSize)] == t;
      forall i | 0 <= i < |t| - 1
        ensures |t[i]| + |FirstLine(t[i + 1])| + 1 > maxSize
      {
        assert t[i] == s[i] && |FirstLine(s[i + 1])| <= |FirstLine(t[i + 1])|;
      }
    }
  }

  lemma {:induction false} ThinnedReflexive(xs: seq<string>)
    ensures Thinned(xs, xs)
    decreases |xs|
  {
    if xs != [] {
      ThinnedReflexive(xs[1..]);
    }
  }

  lemma {:induction false} ThinnedInsertEmpty(xs: seq<string>, a: seq<string>, b: seq<string>)
    requires Thinned(xs, a + b)
    ensures Thinned(xs, a + [""] + b)
    decreases |a|
  {
    if a == [] {
      assert a + b == b;
      assert (a + [""] + b)[1..] == b;
    } else {
      var ys := a + b;
      var zs := a + [""] + b;
      assert ys[0] == a[0] && ys[1..] == a[1..] + b;
      assert zs[0] == a[0] && zs[1..] == a[1..] + [""] + b;
      if a[0] == "" && Thinned(xs, ys[1..]) {
        ThinnedInsertEmpty(xs, a[1..], b);
      } else {
        ThinnedInsertEmpty(xs[1..], a[1..], b);
      }
    }
  }

  /** The done chunk state after visiting line `p`. */
  function DoneAfter(done: seq<string>, current: string, p: string, maxSize: int): seq<string> {
    if |current| + |p| + 1 > maxSize && current != "" then done + [current] else done
  }

  /** The current chunk after visiting line `p`. */
  function CurrentAfter(current: string, p: string, maxSize: int): string {
    if |current| + |p| + 1 > maxSize then p else if current != "" then current + "\n" + p else p
  }

  /** One step of the loop adds the visited line to the pieces, unless it is an empty line it drops. */
  lemma StepPieces(done: seq<string>, current: string, p: string, maxSize: int)
    requires '\n' !in p
    ensures var a := Pieces(done) + CurrentPieces(current);
      var b := Pieces(DoneAfter(done, current, p, maxSize)) + CurrentPieces(CurrentAfter(current, p, maxSize));
      b == a + [p] || (p == "" && b == a)
  {
    SplitWithoutNewline(p);
    if |current| + |p| + 1 > maxSize && current != "" {
      PiecesAppend(done, current);
    } else if current != "" {
      SplitAtNewline(current, p);
    }
  }

  /** Emitting the last chunk adds its pieces. */
  lemma FlushPieces(done: seq<string>, current: string)
    ensures Pieces(Pack([], 0, done, current)) == Pieces(done) + CurrentPieces(current)
  {
    if current != "" {
      PiecesAppend(done, current);
    } else {
      assert Pieces(done) + [] == Pieces(done);
    }
  }

  lemma {:induction false} PackPieces(lines: seq<string>, maxSize: int, done: seq<string>, current: string)
    requires forall i :: 0 <= i < |lines| ==> '\n' !in lines[i]
    ensures Thinned(Pieces(Pack(lines, maxSize, done, current)), Pieces(done) + CurrentPieces(current) + lines)
    decreases |lines|
  {
    var a := Pieces(done) + CurrentPieces(current);
    if lines == [] {
      FlushPieces(done, current);
      assert a + lines == a;
      ThinnedReflexive(a);
    } else {
      var p := lines[0];
      var rest := lines[1..];
      var done', current' := DoneAfter(done, current, p, maxSize), CurrentAfter(current, p, maxSize);
      assert Pack(lines, maxSize, done, current) == Pack(rest, maxSize, done', current');
      var r := Pieces(Pack(rest, maxSize, done', current'));
      PackPieces(rest, maxSize, done', current');
      StepPieces(done, current, p, maxSize);
      var b := Pieces(done') + CurrentPieces(current');
      assert a + lines == a + [p] + rest;
      if b == a + [p] {
        assert Thinned(r, a + [p] + rest);
      } else {
        ThinnedInsertEmpty(r, a, rest);
      }
    }
  }

  lemma {:induction false} ThinnedKeepsNonEmpty(xs: seq<string>, ys: seq<string>)
    requires Thinned(xs, ys)
    ensures NonEmpty(xs) == NonEmpty(ys)
    ensures forall x :: x in xs ==> x in ys
    decreases |ys|
  {
    if ys != [] {
      if ys[0] == "" && Thinned(xs, ys[1..]) {
        ThinnedKeepsNonEmpty(xs, ys[1..]);
      } else {
        ThinnedKeepsNonEmpty(xs[1..], ys[1..]);
        assert xs == [xs[0]] + xs[1..];
      }
    }
  }

  lemma {:induction false} ThinnedWithoutEmpty(xs: seq<string>, ys: seq<string>)
    requires Thinned(xs, ys)
    requires forall i :: 0 <= i < |ys| ==> ys[i] != ""
    ensures xs == ys
    decreases |ys|
  {
    if ys != [] {
      assert ys[0] != "";
      ThinnedWithoutEmpty(xs[1..], ys[1..]);
      assert xs == [xs[0]] + xs[1..];
    }
  }

  // ------------------------------------------ what chunk_text guarantees

  /** No chunk is empty; indeed every chunk starts with a non-empty line. */
  lemma ChunksNonEmpty(text: string, maxSize: int)
    ensures forall c :: c in Chunks(text, maxSize) ==> c != "" && FirstLine(c) != ""
  {
    PackLeadingLine(Split(text), maxSize, [], "");
  }

  /** The empty text has no chunks. */
  lemma ChunksOfEmptyText(maxSize: int)
    ensures Chunks("", maxSize) == []
  {
    assert Split("") == [""];
    assert Pack([""], maxSize, [], "") == Pack([], maxSize, [], "");
  }

  /** A chunk holding several lines fits in `maxSize`; so a longer chunk is one whole input line. */
  lemma ChunksFit(text: string, maxSize: int)
    ensures forall c :: c in Chunks(text, maxSize) && '\n' in c ==> |c| <= maxSize
    ensures forall c :: c in Chunks(text, maxSize) && |c| > maxSize ==> c in Split(text)
  {
    var lines := Split(text);
    var cs := Chunks(text, maxSize);
    PackBounded(lines, maxSize, [], "");
    ChunksKeepLines(text, maxSize);
    forall c | c in cs && |c| > maxSize ensures c in lines {
      SplitWithoutNewline(c);
      var k :| 0 <= k < |cs| && cs[k] == c;
      PiecesIncludes(cs, k);
    }
  }

  lemma {:induction false} PiecesIncludes(cs: seq<string>, k: nat)
    requires k < |cs|
    ensures forall x :: x in Split(cs[k]) ==> x in Pieces(cs)
    decreases |cs|
  {
    if k < |cs| - 1 {
      PiecesIncludes(cs[..|cs| - 1], k);
    }
  }

  /** Whenever a chunk is closed, the first line of the next one would have overflowed it. */
  lemma ChunksGreedy(text: string, maxSize: int)
    ensures Greedy(Chunks(text, maxSize), maxSize)
  {
    PackGreedy(Split(text), maxSize, [], "");
  }

  /**
   * Lines are never broken: every piece of every chunk is an input line, and the
   * non-empty pieces, in order, are exactly the non-empty input lines, in order.
   */
  lemma ChunksKeepLines(text: string, maxSize: int)
    ensures Thinned(Pieces(Chunks(text, maxSize)), Split(text))
    ensures NonEmpty(Pieces(Chunks(text, maxSize))) == NonEmpty(Split(text))
    ensures forall x :: x in Pieces(Chunks(text, maxSize)) ==> x in Split(text)
  {
    PackPieces(Split(text), maxSize, [], "");
    assert Pieces([]) + CurrentPieces("") + Split(text) == Split(text);
    ThinnedKeepsNonEmpty(Pieces(Chunks(text, maxSize)), Split(text));
  }

  /** Without empty lines, joining the chunks with newlines gives the text back. */
  lemma ChunksRejoin(text: string, maxSize: int)
    requires forall i :: 0 <= i < |Split(text)| ==> Split(text)[i] != ""
    ensures JoinLines(Chunks(text, maxSize)) == text
  {
    var cs := Chunks(text, maxSize);
    ChunksKeepLines(text, maxSize);
    ThinnedWithoutEmpty(Pieces(cs), Split(text));
    assert cs != [];
    JoinPieces(cs);
    JoinSplit(text);
  }
}
