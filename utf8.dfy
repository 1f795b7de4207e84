/** Byte lengths of text under UTF-8, as PHP's `strlen` sees them. */
module Utf8 {

  /** Bytes in the UTF-8 encoding of one code point (one piece of `mb_str_split`). */
  function Utf8Len(c: char): (n: nat)
    ensures 1 <= n <= 4
  {
    if (c as int) < 0x80 then 1
    else if (c as int) < 0x800 then 2
    else if (c as int) < 0x10000 then 3
    else 4
  }

  /** `strlen` of a UTF-8 string: the sum of the byte lengths of its code points. */
  function Bytes(s: string): (b: nat)
    ensures |s| <= b <= 4 * |s|
    decreases |s|
  {
    if s == [] then 0 else Bytes(s[..|s| - 1]) + Utf8Len(s[|s| - 1])
  }

  lemma {:induction false} BytesConcat(a: string, b: string)
    ensures Bytes(a + b) == Bytes(a) + Bytes(b)
    decreases |b|
  {
    if b == [] {
      assert a + b == a;
    } else {
      assert (a + b)[..|a + b| - 1] == a + b[..|b| - 1];
      BytesConcat(a, b[..|b| - 1]);
    }
  }
}
