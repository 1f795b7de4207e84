/**
 * Content-line folding (`splitField`, index.php): walk the text code point by
 * code point, adding each one's UTF-8 byte length to a running count; when the
 * count would pass the limit, emit the break and the indent first and restart
 * the count at the bytes of the indent plus that code point.
 */
module Folding {
  import opened Utf8
  import opened PhysicalLines

  /** The accumulated text and byte counter after the loop has consumed s. */
  function FoldState(s: string, length: int, indent: string, brk: string): (string, int)
    decreases |s|
  {
    if s == [] then ("", 0)
    else
      var prev := FoldState(s[..|s| - 1], length, indent, brk);
      var c := s[|s| - 1];
      if prev.1 + Utf8Len(c) > length then (prev.0 + brk + indent + [c], Bytes(indent) + Utf8Len(c))
      else (prev.0 + [c], prev.1 + Utf8Len(c))
  }

  /** The folded text `splitField` returns. */
  function Fold(s: string, length: int, indent: string, brk: string): string {
    FoldState(s, length, indent, brk).0
  }

  /** `splitField($field, $length, $indent, $break)`. */
  method SplitField(field: string, length: int, indent: string, brk: string) returns (str: string)
    ensures str == Fold(field, length, indent, brk)
  {
    var bytes := 0;
    str := "";
    for i := 0 to |field|
      invariant (str, bytes) == FoldState(field[..i], length, indent, brk)
    {
      var c := field[i];
      bytes := bytes + Utf8Len(c);
      if bytes > length {
        bytes := Bytes(indent + [c]);
        str := str + brk + indent;
      }
      str := str + [c];
      assert field[..i + 1][..i] == field[..i];
      assert (indent + [c])[..|indent|] == indent;
    }
    assert field[..|field|] == field;
  }

  /** The lines of a fold with the '\n' break. */
  function FoldLines(s: string, length: int, indent: string): seq<string> {
    Lines(Fold(s, length, indent, "\n"))
  }

  /** The byte counter always equals the bytes of the current (last) line. */
  lemma {:induction false} FoldCounter(s: string, length: int, indent: string)
    requires '\n' !in s && '\n' !in indent
    ensures FoldState(s, length, indent, "\n").1 == Bytes(Last(FoldLines(s, length, indent)))
    decreases |s|
  {
    if s != [] {
      var p := s[..|s| - 1];
      var c := s[|s| - 1];
      assert '\n' !in p;
      assert c in s;
      FoldCounter(p, length, indent);
      var (r0, b0) := FoldState(p, length, indent, "\n");
      if b0 + Utf8Len(c) > length {
        assert r0 + "\n" + indent + [c] == r0 + "\n" + (indent + [c]);
        LinesAppendBreak(r0, indent + [c]);
        assert (indent + [c])[..|indent|] == indent;
      } else {
        LinesAppendText(r0, [c]);
        var l0 := Last(Lines(r0));
        assert (l0 + [c])[..|l0|] == l0;
      }
    }
  }

  /** Every line after the first is the indent followed by at least one code point. */
  predicate Continued(ls: seq<string>, indent: string) {
    forall k :: 1 <= k < |ls| ==> |indent| < |ls[k]| && ls[k][..|indent|] == indent
  }

  /** No line is longer than the limit in bytes. */
  predicate Bounded(ls: seq<string>, length: int) {
    forall k :: 0 <= k < |ls| ==> Bytes(ls[k]) <= length
  }

  /** Every line after the first starts, after its indent, with a code point that
      would have taken the line before it past the limit. */
  predicate Greedy(ls: seq<string>, length: int, indent: string) {
    forall k :: 1 <= k < |ls| ==>
      |indent| < |ls[k]| && Bytes(ls[k - 1]) + Utf8Len(ls[k][|indent|]) > length
  }

  /** The text after the last code point was consumed, in terms of the text before. */
  lemma FoldStep(s: string, length: int, indent: string)
    requires s != [] && '\n' !in s && '\n' !in indent
    ensures var p, c := s[..|s| - 1], s[|s| - 1];
      var (r0, b0) := FoldState(p, length, indent, "\n");
      var l0 := FoldLines(p, length, indent);
      '\n' !in p && c != '\n' &&
      (b0 + Utf8Len(c) > length ==> FoldLines(s, length, indent) == l0 + [indent + [c]]) &&
      (b0 + Utf8Len(c) <= length ==>
         FoldLines(s, length, indent) == l0[..|l0| - 1] + [Last(l0) + [c]])
  {
    var p, c := s[..|s| - 1], s[|s| - 1];
    assert c in s;
    assert forall x :: x in p ==> x in s;
    var (r0, b0) := FoldState(p, length, indent, "\n");
    if b0 + Utf8Len(c) > length {
      assert Fold(s, length, indent, "\n") == r0 + "\n" + (indent + [c]);
      LinesAppendBreak(r0, indent + [c]);
    } else {
      assert Fold(s, length, indent, "\n") == r0 + [c];
      LinesAppendText(r0, [c]);
    }
  }

  lemma {:induction false} FoldContinuation(s: string, length: int, indent: string)
    requires '\n' !in s && '\n' !in indent
    ensures Continued(FoldLines(s, length, indent), indent)
    decreases |s|
  {
    if s != [] {
      var p, c := s[..|s| - 1], s[|s| - 1];
      FoldStep(s, length, indent);
      FoldContinuation(p, length, indent);
      var (r0, b0) := FoldState(p, length, indent, "\n");
      var l0 := FoldLines(p, length, indent);
      var ls := FoldLines(s, length, indent);
      if b0 + Utf8Len(c) > length {
        assert (indent + [c])[..|indent|] == indent;
        forall k | 1 <= k < |ls|
          ensures |indent| < |ls[k]| && ls[k][..|indent|] == indent
        {
          if k < |l0| {
            assert ls[k] == l0[k];
          }
        }
      } else {
        forall k | 1 <= k < |ls|
          ensures |indent| < |ls[k]| && ls[k][..|indent|] == indent
        {
          if k == |ls| - 1 {
            assert ls[k] == l0[k] + [c];
            assert (l0[k] + [c])[..|indent|] == l0[k][..|indent|];
          } else {
            assert ls[k] == l0[k];
          }
        }
      }
    }
  }

  /** Fold bound: when the indent and any one code point fit in the limit,
      no line of the fold is longer than the limit in bytes. */
  lemma {:induction false} FoldBound(s: string, length: int, indent: string)
    requires '\n' !in s && '\n' !in indent
    requires Bytes(indent) + 4 <= length
    ensures Bounded(FoldLines(s, length, indent), length)
    decreases |s|
  {
    if s != [] {
      var p, c := s[..|s| - 1], s[|s| - 1];
      FoldStep(s, length, indent);
      FoldBound(p, length, indent);
      FoldCounter(p, length, indent);
      var (r0, b0) := FoldState(p, length, indent, "\n");
      var l0 := FoldLines(p, length, indent);
      var ls := FoldLines(s, length, indent);
      if b0 + Utf8Len(c) > length {
        BytesConcat(indent, [c]);
        forall k | 0 <= k < |ls|
          ensures Bytes(ls[k]) <= length
        {
          if k < |l0| {
            assert ls[k] == l0[k];
          }
        }
      } else {
        BytesConcat(Last(l0), [c]);
        forall k | 0 <= k < |ls|
          ensures Bytes(ls[k]) <= length
        {
          if k < |ls| - 1 {
            assert ls[k] == l0[k];
          }
        }
      }
    }
  }

  /** Fold round trip: deleting each break and the indent after it gives the input back. */
  lemma {:induction false} FoldUnfold(s: string, length: int, indent: string)
    requires '\n' !in s && '\n' !in indent
    ensures Unfolded(Fold(s, length, indent, "\n"), indent) == s
    decreases |s|
  {
    if s != [] {
      var p, c := s[..|s| - 1], s[|s| - 1];
      FoldStep(s, length, indent);
      FoldUnfold(p, length, indent);
      FoldContinuation(p, length, indent);
      var b0 := FoldState(p, length, indent, "\n").1;
      var l0 := FoldLines(p, length, indent);
      assert s == p + [c];
      if b0 + Utf8Len(c) > length {
        UnfoldNewLine(l0, indent, c);
      } else {
        UnfoldExtendLast(l0, indent, c);
      }
    }
  }

  /** A new line of the indent and one code point unfolds to that code point. */
  lemma UnfoldNewLine(l0: seq<string>, indent: string, c: char)
    requires |l0| >= 1
    ensures Unfold(l0 + [indent + [c]], indent) == Unfold(l0, indent) + [c]
  {
    var ls := l0 + [indent + [c]];
    assert ls[..|ls| - 1] == l0;
    assert (indent + [c])[..|indent|] == indent;
    assert Dedent(indent + [c], indent) == [c];
  }

  /** A code point added to the last line is added to the unfolded text. */
  lemma UnfoldExtendLast(l0: seq<string>, indent: string, c: char)
    requires |l0| >= 1 && Continued(l0, indent)
    ensures Unfold(l0[..|l0| - 1] + [Last(l0) + [c]], indent) == Unfold(l0, indent) + [c]
  {
    var last := Last(l0);
    var ls := l0[..|l0| - 1] + [last + [c]];
    if |l0| > 1 {
      assert |indent| < |last| && last[..|indent|] == indent;
      assert ls[..|ls| - 1] == l0[..|l0| - 1];
      assert (last + [c])[..|indent|] == last[..|indent|];
      assert Dedent(last + [c], indent) == Dedent(last, indent) + [c];
    }
  }

  /** Breaks are inserted only when needed: every line but the last would pass
      the limit if the first code point of the next line were added to it. */
  lemma {:induction false} FoldGreedy(s: string, length: int, indent: string)
    requires '\n' !in s && '\n' !in indent
    ensures Greedy(FoldLines(s, length, indent), length, indent)
    decreases |s|
  {
    if s != [] {
      var p, c := s[..|s| - 1], s[|s| - 1];
      FoldStep(s, length, indent);
      FoldGreedy(p, length, indent);
      FoldCounter(p, length, indent);
      FoldContinuation(p, length, indent);
      var (r0, b0) := FoldState(p, length, indent, "\n");
      var l0 := FoldLines(p, length, indent);
      var ls := FoldLines(s, length, indent);
      if b0 + Utf8Len(c) > length {
        assert (indent + [c])[|indent|] == c;
        forall k | 1 <= k < |ls|
          ensures |indent| < |ls[k]| && Bytes(ls[k - 1]) + Utf8Len(ls[k][|indent|]) > length
        {
          if k < |l0| {
            assert ls[k] == l0[k] && ls[k - 1] == l0[k - 1];
          } else {
            assert ls[k - 1] == Last(l0);
          }
        }
      } else {
        forall k | 1 <= k < |ls|
          ensures |indent| < |ls[k]| && Bytes(ls[k - 1]) + Utf8Len(ls[k][|indent|]) > length
        {
          assert ls[k - 1] == l0[k - 1];
          if k == |ls| - 1 {
            assert ls[k] == l0[k] + [c];
            assert ls[k][|indent|] == l0[k][|indent|];
          } else {
            assert ls[k] == l0[k];
          }
        }
      }
    }
  }

  /** Text that fits in the limit is left as it is. */
  lemma {:induction false} FoldShort(s: string, length: int, indent: string, brk: string)
    requires Bytes(s) <= length
    ensures FoldState(s, length, indent, brk) == (s, Bytes(s))
    decreases |s|
  {
    if s != [] {
      var p := s[..|s| - 1];
      FoldShort(p, length, indent, brk);
      assert p + [s[|s| - 1]] == s;
    }
  }

  /** Folding a prefix gives a prefix of the fold. */
  lemma {:induction false} FoldPrefix(s: string, i: nat, length: int, indent: string, brk: string)
    requires i <= |s|
    ensures Fold(s[..i], length, indent, brk) <= Fold(s, length, indent, brk)
    decreases |s|
  {
    if i == |s| {
      assert s[..i] == s;
    } else {
      var p := s[..|s| - 1];
      assert p[..i] == s[..i];
      FoldPrefix(p, i, length, indent, brk);
      var f := Fold(p, length, indent, brk);
      assert f <= Fold(s, length, indent, brk);
    }
  }

  /** The fold adds nothing but the break and the indent. */
  lemma {:induction false} FoldChars(s: string, length: int, indent: string, brk: string)
    ensures forall x :: x in Fold(s, length, indent, brk) ==> x in s || x in indent || x in brk
    decreases |s|
  {
    if s != [] {
      var p := s[..|s| - 1];
      FoldChars(p, length, indent, brk);
      assert forall x :: x in p ==> x in s;
      assert s[|s| - 1] in s;
    }
  }
}
