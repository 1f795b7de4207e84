/**
 * The PHP string and array built-ins the serialiser relies on, on strings.
 * A JSON null or a missing key reads as "" here: `empty`, truthiness, `trim`
 * and concatenation treat null exactly as they treat "".
 */
module Php {

  /** `empty($s)` for a string, and equally its falsiness in `?:`, `if` and
      `array_filter`: only "" and "0" are empty. */
  predicate Empty(s: string) {
    s == "" || s == "0"
  }

  /** The string PHP makes of a boolean: "1" for true, "" for false. */
  function BoolToString(b: bool): (r: string)
    ensures b <==> !Empty(r)
  {
    if b then "1" else ""
  }

  /** `implode($sep, $xs)`. */
  function Join(sep: string, xs: seq<string>): string
    decreases |xs|
  {
    if |xs| == 0 then ""
    else if |xs| == 1 then xs[0]
    else Join(sep, xs[..|xs| - 1]) + sep + xs[|xs| - 1]
  }

  lemma JoinAppend(sep: string, xs: seq<string>, y: string)
    requires xs != []
    ensures Join(sep, xs + [y]) == Join(sep, xs) + sep + y
  {
    assert (xs + [y])[..|xs|] == xs;
  }

  lemma {:induction false} JoinConcat(sep: string, xs: seq<string>, ys: seq<string>)
    requires xs != [] && ys != []
    ensures Join(sep, xs + ys) == Join(sep, xs) + sep + Join(sep, ys)
    decreases |ys|
  {
    if |ys| == 1 {
      JoinAppend(sep, xs, ys[0]);
    } else {
      var init := ys[..|ys| - 1];
      JoinConcat(sep, xs, init);
      assert (xs + ys)[..|xs + ys| - 1] == xs + init;
    }
  }

  /** The values of `array_filter($xs)` (no callback), in order: the elements
      that are not empty. */
  function NonEmpty(xs: seq<string>): seq<string>
    decreases |xs|
  {
    if xs == [] then []
    else if Empty(xs[|xs| - 1]) then NonEmpty(xs[..|xs| - 1])
    else NonEmpty(xs[..|xs| - 1]) + [xs[|xs| - 1]]
  }

  /** The filter keeps only non-empty elements, all taken from the input, and
      every non-empty element of the input survives. */
  lemma {:induction false} NonEmptySpec(xs: seq<string>)
    ensures |NonEmpty(xs)| <= |xs|
    ensures forall k :: 0 <= k < |NonEmpty(xs)| ==> !Empty(NonEmpty(xs)[k])
    ensures forall x :: x in NonEmpty(xs) <==> x in xs && !Empty(x)
    decreases |xs|
  {
    if xs != [] {
      var p := xs[..|xs| - 1];
      NonEmptySpec(p);
      assert xs == p + [xs[|xs| - 1]];
    }
  }

  lemma {:induction false} NonEmptyConcat(a: seq<string>, b: seq<string>)
    ensures NonEmpty(a + b) == NonEmpty(a) + NonEmpty(b)
    decreases |b|
  {
    if b == [] {
      assert a + b == a;
    } else {
      assert (a + b)[..|a + b| - 1] == a + b[..|b| - 1];
      NonEmptyConcat(a, b[..|b| - 1]);
    }
  }

  lemma NonEmptySingle(x: string)
    ensures NonEmpty([x]) == if Empty(x) then [] else [x]
  {
    assert [x][..0] == [];
  }

  /** A list with no empty element passes the filter unchanged. */
  lemma {:induction false} NonEmptyKeepsAll(xs: seq<string>)
    requires forall k :: 0 <= k < |xs| ==> !Empty(xs[k])
    ensures NonEmpty(xs) == xs
    decreases |xs|
  {
    if xs != [] {
      NonEmptyKeepsAll(xs[..|xs| - 1]);
      assert xs[..|xs| - 1] + [xs[|xs| - 1]] == xs;
    }
  }

  /** The characters `trim` strips by default: " \t\n\r\0\x0B". */
  predicate IsTrimmed(c: char) {
    c == ' ' || c == '\t' || c == '\n' || c == '\r' || c == '\0' || c == '\U{B}'
  }

  /** `ltrim($s)`. */
  function TrimLeft(s: string): string
    decreases |s|
  {
    if s != [] && IsTrimmed(s[0]) then TrimLeft(s[1..]) else s
  }

  /** `ltrim` keeps the longest suffix that does not start with a stripped character. */
  lemma {:induction false} TrimLeftSpec(s: string)
    ensures var r := TrimLeft(s);
      |r| <= |s| && r == s[|s| - |r|..]
      && (forall k :: 0 <= k < |s| - |r| ==> IsTrimmed(s[k]))
      && (r == [] || !IsTrimmed(r[0]))
    decreases |s|
  {
    if s != [] && IsTrimmed(s[0]) {
      TrimLeftSpec(s[1..]);
    }
  }

  /** `rtrim($s)`. */
  function TrimRight(s: string): string
    decreases |s|
  {
    if s != [] && IsTrimmed(s[|s| - 1]) then TrimRight(s[..|s| - 1]) else s
  }

  /** `rtrim` keeps the longest prefix that does not end with a stripped character. */
  lemma {:induction false} TrimRightSpec(s: string)
    ensures var r := TrimRight(s);
      |r| <= |s| && r == s[..|r|]
      && (forall k :: |r| <= k < |s| ==> IsTrimmed(s[k]))
      && (r == [] || !IsTrimmed(r[|r| - 1]))
    decreases |s|
  {
    if s != [] && IsTrimmed(s[|s| - 1]) {
      TrimRightSpec(s[..|s| - 1]);
    }
  }

  /** `trim($s)`. */
  function Trim(s: string): string {
    TrimRight(TrimLeft(s))
  }

  /** `trim` gives the part of s between the stripped characters at either end. */
  lemma TrimSpec(s: string)
    ensures exists i, j :: (0 <= i <= j <= |s| && Trim(s) == s[i..j]
      && (forall k :: 0 <= k < i ==> IsTrimmed(s[k]))
      && (forall k :: j <= k < |s| ==> IsTrimmed(s[k])))
    ensures Trim(s) == [] || (!IsTrimmed(Trim(s)[0]) && !IsTrimmed(Trim(s)[|Trim(s)| - 1]))
  {
    TrimLeftSpec(s);
    var l := TrimLeft(s);
    TrimRightSpec(l);
    var r := TrimRight(l);
    var i := |s| - |l|;
    var j := i + |r|;
    assert r == s[i..j];
    forall k | j <= k < |s|
      ensures IsTrimmed(s[k])
    {
      assert s[k] == l[k - i];
    }
  }

  /** `str_replace($c, $w, $s)` for a one-character search string. */
  function ReplaceChar(s: string, c: char, w: string): string
    decreases |s|
  {
    if s == [] then []
    else (if s[0] == c then w else [s[0]]) + ReplaceChar(s[1..], c, w)
  }

  /** Every character of the result is an unreplaced one of s or one of w;
      a string without c is left as it is. */
  lemma {:induction false} ReplaceCharChars(s: string, c: char, w: string)
    ensures forall x :: x in ReplaceChar(s, c, w) ==> (x in s && x != c) || x in w
    ensures c !in s ==> ReplaceChar(s, c, w) == s
    decreases |s|
  {
    if s != [] {
      ReplaceCharChars(s[1..], c, w);
      assert forall x :: x in s[1..] ==> x in s;
      assert s == [s[0]] + s[1..];
    }
  }

  lemma {:induction false} ReplaceCharConcat(a: string, b: string, c: char, w: string)
    ensures ReplaceChar(a + b, c, w) == ReplaceChar(a, c, w) + ReplaceChar(b, c, w)
    decreases |a|
  {
    if a == [] {
      assert a + b == b;
    } else {
      assert (a + b)[1..] == a[1..] + b;
      ReplaceCharConcat(a[1..], b, c, w);
    }
  }

  /** The decimal digit for d. */
  function Digit(d: nat): (c: char)
    requires d < 10
    ensures '0' <= c <= '9'
  {
    (('0' as int) + d) as char
  }

  /** The decimal string PHP makes of a non-negative integer. */
  function NatToString(n: nat): (r: string)
    ensures |r| >= 1
    decreases n
  {
    if n < 10 then [Digit(n)] else NatToString(n / 10) + [Digit(n % 10)]
  }

  /** Decimal strings consist of digits only. */
  lemma {:induction false} NatToStringDigits(n: nat)
    ensures forall k :: 0 <= k < |NatToString(n)| ==> '0' <= NatToString(n)[k] <= '9'
    decreases n
  {
    if n >= 10 {
      NatToStringDigits(n / 10);
    }
  }

  /** The value of a string of decimal digits. */
  function ParseDecimal(s: string): nat
    requires forall k :: 0 <= k < |s| ==> '0' <= s[k] <= '9'
    decreases |s|
  {
    if s == [] then 0
    else 10 * ParseDecimal(s[..|s| - 1]) + ((s[|s| - 1] as int) - ('0' as int))
  }

  /** The decimal string of n reads back as n. */
  lemma {:induction false} NatToStringRoundTrip(n: nat)
    ensures (forall k :: 0 <= k < |NatToString(n)| ==> '0' <= NatToString(n)[k] <= '9')
      && ParseDecimal(NatToString(n)) == n
    decreases n
  {
    NatToStringDigits(n);
    if n >= 10 {
      var r := NatToString(n);
      assert r[..|r| - 1] == NatToString(n / 10);
      NatToStringRoundTrip(n / 10);
    }
  }
}
