/** UTF-8 text and its character boundaries. */
module Utf8 {
  import opened Parts

  predicate IsContinuation(b: Byte) {
    0x80 <= b < 0xC0
  }

  /** Bytes that follow in a character that starts with `b`; zero for bytes that start none. */
  function Width(b: Byte): (w: nat)
    ensures w <= 4
    ensures IsContinuation(b) ==> w == 0
  {
    if b < 0x80 then 1
    else if 0xC2 <= b < 0xE0 then 2
    else if 0xE0 <= b < 0xF0 then 3
    else if 0xF0 <= b < 0xF5 then 4
    else 0
  }

  /** The second bytes that rule out overlong forms, surrogates and values past U+10FFFF. */
  predicate SecondByteFits(lead: Byte, b: Byte) {
    && (lead == 0xE0 ==> b >= 0xA0) && (lead == 0xED ==> b < 0xA0)
    && (lead == 0xF0 ==> b >= 0x90) && (lead == 0xF4 ==> b < 0x90)
  }

  /** The well-formed byte sequences of one code point, Table 3-7 of the Unicode Standard. */
  predicate IsChar(c: Text) {
    && c != [] && |c| == Width(c[0])
    && (forall i | 1 <= i < |c| :: IsContinuation(c[i]))
    && (|c| > 1 ==> SecondByteFits(c[0], c[1]))
  }

  predicate IsUtf8(t: Text) {
    t == [] || (1 <= Width(t[0]) <= |t| && IsChar(t[..Width(t[0])]) && IsUtf8(t[Width(t[0])..]))
  }

  /** Where a string may be cut. */
  predicate IsBoundary(t: Text, i: nat) {
    i == 0 || i == |t| || (i < |t| && !IsContinuation(t[i]))
  }

  lemma FirstChar(t: Text) returns (c: Text, rest: Text)
    requires IsUtf8(t) && t != []
    ensures t == c + rest && IsChar(c) && IsUtf8(rest) && |rest| < |t|
    ensures forall i | 1 <= i < |c| :: !IsBoundary(t, i) || i == |t|
  {
    c, rest := t[..Width(t[0])], t[Width(t[0])..];
  }

  lemma Prepend(c: Text, rest: Text)
    requires IsChar(c) && IsUtf8(rest)
    ensures IsUtf8(c + rest)
  {
    var t := c + rest;
    assert t[..Width(t[0])] == c && t[Width(t[0])..] == rest;
  }

  /** Cutting well-formed text at a boundary leaves two well-formed texts. */
  lemma {:induction false} CutAtBoundary(t: Text, i: nat)
    requires IsUtf8(t) && i <= |t| && IsBoundary(t, i)
    ensures IsUtf8(t[..i]) && IsUtf8(t[i..])
    decreases |t|
  {
    if i == 0 {
      assert t[0..] == t;
    } else if i == |t| {
      assert t[..i] == t;
    } else {
      var c, rest := FirstChar(t);
      var j := i - |c|;
      assert t[i] == rest[j];
      CutAtBoundary(rest, j);
      Prepend(c, rest[..j]);
      assert t[..i] == c + rest[..j] && t[i..] == rest[j..];
    }
  }

  /** No four bytes in a row are all inside characters. */
  lemma {:induction false} BoundaryNear(t: Text, i: nat)
    requires IsUtf8(t) && 3 <= i < |t|
    ensures IsBoundary(t, i) || IsBoundary(t, i - 1) || IsBoundary(t, i - 2) || IsBoundary(t, i - 3)
  {
    var w := Width(t[0]);
    var rest := t[w..];
    if i >= w + 3 {
      BoundaryNear(rest, i - w);
      assert forall k | i - 3 <= k <= i :: rest[k - w] == t[k];
    } else if i >= w {
      assert rest[0] == t[w];
      assert rest == [] || !IsContinuation(rest[0]);
    }
  }
}
