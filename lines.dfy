/**
 * Physical lines of a string: the pieces between its '\n' characters.
 * The folded output of the field encoder is read through these.
 */
module PhysicalLines {
  import opened Php

  /** The pieces of s between its '\n' characters (`explode("\n", $s)`). */
  function Lines(s: string): (ls: seq<string>)
    ensures |ls| >= 1
    decreases |s|
  {
    if s == [] then [""]
    else
      var prev := Lines(s[..|s| - 1]);
      if s[|s| - 1] == '\n' then prev + [""]
      else prev[..|prev| - 1] + [prev[|prev| - 1] + [s[|s| - 1]]]
  }

  function Last(ls: seq<string>): string
    requires |ls| >= 1
  {
    ls[|ls| - 1]
  }

  /** No piece holds a '\n'. */
  lemma {:induction false} LinesNoBreak(s: string)
    ensures forall k :: 0 <= k < |Lines(s)| ==> '\n' !in Lines(s)[k]
    decreases |s|
  {
    if s != [] {
      var p := s[..|s| - 1];
      LinesNoBreak(p);
      var prev := Lines(p);
      if s[|s| - 1] != '\n' {
        var ls := Lines(s);
        forall k | 0 <= k < |ls|
          ensures '\n' !in ls[k]
        {
          if k < |ls| - 1 {
            assert ls[k] == prev[k];
          } else {
            assert ls[k] == prev[|prev| - 1] + [s[|s| - 1]];
          }
        }
      }
    }
  }

  /** Joining the lines with '\n' gives the string back. */
  lemma {:induction false} LinesJoin(s: string)
    ensures Join("\n", Lines(s)) == s
    decreases |s|
  {
    if s != [] {
      var p := s[..|s| - 1];
      var c := s[|s| - 1];
      var prev := Lines(p);
      LinesJoin(p);
      assert s == p + [c];
      if c == '\n' {
        assert Lines(s) == prev + [""];
        JoinAppend("\n", prev, "");
      } else {
        var init := prev[..|prev| - 1];
        var last := prev[|prev| - 1];
        assert Lines(s) == init + [last + [c]];
        assert init + [last] == prev;
        JoinExtendLast("\n", init, last, [c]);
      }
    }
  }

  /** Text added to the last element is added to the joined string. */
  lemma JoinExtendLast(sep: string, init: seq<string>, last: string, w: string)
    ensures Join(sep, init + [last + w]) == Join(sep, init + [last]) + w
  {
    if init == [] {
      assert init + [last + w] == [last + w];
      assert init + [last] == [last];
    } else {
      JoinAppend(sep, init, last + w);
      JoinAppend(sep, init, last);
    }
  }

  /** Appending text without a line break extends the last line. */
  lemma {:induction false} LinesAppendText(x: string, w: string)
    requires '\n' !in w
    ensures Lines(x + w) == Lines(x)[..|Lines(x)| - 1] + [Last(Lines(x)) + w]
    decreases |w|
  {
    var lx := Lines(x);
    if w == [] {
      assert x + w == x;
      assert Last(lx) + w == Last(lx);
      assert lx[..|lx| - 1] + [Last(lx)] == lx;
    } else {
      var v := w[..|w| - 1];
      assert (x + w)[..|x + w| - 1] == x + v;
      assert w[|w| - 1] in w;
      LinesAppendText(x, v);
      var lv := Lines(x + v);
      assert lv[..|lv| - 1] == lx[..|lx| - 1];
      assert Last(lv) + [w[|w| - 1]] == Last(lx) + w;
    }
  }

  /** Appending a line break and then text starts a new last line holding that text. */
  lemma LinesAppendBreak(x: string, w: string)
    requires '\n' !in w
    ensures Lines(x + "\n" + w) == Lines(x) + [w]
  {
    var xb := x + "\n";
    assert xb[..|xb| - 1] == x;
    assert xb[|xb| - 1] == '\n';
    var lb := Lines(xb);
    assert lb == Lines(x) + [""];
    LinesAppendText(xb, w);
    assert lb[..|lb| - 1] == Lines(x);
    assert Last(lb) + w == w;
  }

  /** A continuation line without its indent. */
  function Dedent(line: string, indent: string): (r: string)
    ensures |indent| <= |line| && line[..|indent|] == indent ==> line == indent + r
  {
    if |indent| <= |line| && line[..|indent|] == indent then line[|indent|..] else line
  }

  /** Rejoins folded lines: the first line as it is, each later line without its indent. */
  function Unfold(lines: seq<string>, indent: string): string
    decreases |lines|
  {
    if |lines| == 0 then ""
    else if |lines| == 1 then lines[0]
    else Unfold(lines[..|lines| - 1], indent) + Dedent(lines[|lines| - 1], indent)
  }

  /** A folded string with every "\n" and the indent after it deleted. */
  function Unfolded(r: string, indent: string): string {
    Unfold(Lines(r), indent)
  }
}
