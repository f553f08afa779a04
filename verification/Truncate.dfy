/** Byte caps that respect lines and characters: `smart_truncate` and the diff scanner's `truncate`. */
module Truncate {
  import opened Lines
  import opened Utf8
  import opened Decimal

  /** The character U+2026. */
  const ELLIPSIS: Bytes := [0xE2, 0x80, 0xA6]

  function Trailer(dropped: nat): (r: Bytes)
    ensures |r| == 22 + |Digits(dropped)|
  {
    Ascii("\n[") + ELLIPSIS + Ascii("truncated ") + Ascii(Digits(dropped)) + Ascii(" bytes]")
  }

  /** The trailer names the bytes dropped: a newline, "[\u2026truncated ", a numeral that reads back to them, and " bytes]". */
  lemma TrailerReads(dropped: nat)
    ensures var t, n := Trailer(dropped), |Digits(dropped)|;
      && t[..15] == [10, 91, 0xE2, 0x80, 0xA6, 116, 114, 117, 110, 99, 97, 116, 101, 100, 32]
      && t[15..15 + n] == Ascii(Digits(dropped)) && Value(Digits(dropped)) == dropped
      && t[15 + n..] == [32, 98, 121, 116, 101, 115, 93]
  {
    ValueOfDigits(dropped);
    assert Ascii("\n[") == [10, 91];
    assert Ascii("truncated ") == [116, 114, 117, 110, 99, 97, 116, 101, 100, 32];
    assert Ascii(" bytes]") == [32, 98, 121, 116, 101, 115, 93];
  }

  lemma {:induction false} AsciiValid(s: string)
    requires IsAscii(s)
    ensures Utf8.Valid(Ascii(s))
  {
    if s != "" {
      AsciiValid(s[1..]);
      var r := Ascii(s);
      assert CharLen(r) == 1 && r[1..] == Ascii(s[1..]);
    }
  }

  lemma EllipsisValid()
    ensures Utf8.Valid(ELLIPSIS)
  {
    assert CharLen(ELLIPSIS) == 3 && ELLIPSIS[3..] == [];
  }

  predicate IsAscii(s: string) {
    forall i :: 0 <= i < |s| ==> s[i] as int < 0x80
  }

  lemma PiecesValid(a: string, mark: Bytes, b: string, c: string, d: string)
    requires IsAscii(a) && Utf8.Valid(mark) && IsAscii(b) && IsAscii(c) && IsAscii(d)
    ensures Utf8.Valid(Ascii(a) + mark + Ascii(b) + Ascii(c) + Ascii(d))
  {
    AsciiValid(a);
    AsciiValid(b);
    AsciiValid(c);
    AsciiValid(d);
    ValidAppend(Ascii(a), mark);
    ValidAppend(Ascii(a) + mark, Ascii(b));
    ValidAppend(Ascii(a) + mark + Ascii(b), Ascii(c));
    ValidAppend(Ascii(a) + mark + Ascii(b) + Ascii(c), Ascii(d));
  }

  lemma TrailerValid(dropped: nat)
    ensures Utf8.Valid(Trailer(dropped))
  {
    EllipsisValid();
    PiecesValid("\n[", ELLIPSIS, "truncated ", Digits(dropped), " bytes]");
  }

  predicate EndsLine(s: Bytes, c: nat) {
    0 < c <= |s| && s[c - 1] == LF
  }

  /** `cut` is the longest newline-ended prefix within the cap or, failing any, the longest whole-character one. */
  ghost predicate BestCut(s: Bytes, cap: nat, cut: nat) {
    && cut <= cap <= |s|
    && (if exists c :: 0 <= c <= cap && EndsLine(s, c)
        then EndsLine(s, cut) && forall c :: cut < c <= cap ==> !EndsLine(s, c)
        else IsBoundary(s, cut) && forall c :: cut < c <= cap ==> !IsBoundary(s, c))
  }

  /** A text within the cap is unchanged; a longer one is cut, and the trailer accounts for every byte dropped. */
  ghost predicate CutTo(s: Bytes, cap: nat, cut: nat, out: Bytes) {
    if |s| <= cap then out == s && cut == |s|
    else BestCut(s, cap, cut) && out == s[..cut] + Trailer(|s| - cut)
  }

  /** The end of the last whole line within the cap, or 0. */
  function LineCut(s: Bytes, cap: nat): (c: nat)
    requires cap <= |s|
    ensures c <= cap && (c > 0 ==> EndsLine(s, c)) && forall d :: c < d <= cap ==> !EndsLine(s, d)
  {
    if cap == 0 || s[cap - 1] == LF then cap else LineCut(s, cap - 1)
  }

  /** The text fits, or its whole lines within the cap leave room for the trailer. */
  predicate Roomy(s: Bytes, cap: nat) {
    |s| <= cap ||
    var c := LineCut(s, cap);
    c > 0 && c + 22 + |Digits(|s| - c)| <= cap
  }

  lemma CutAtLine(s: Bytes, cap: nat, cut: nat)
    requires BestCut(s, cap, cut)
    ensures EndsLine(s, cut) <==> LineCut(s, cap) > 0
    ensures EndsLine(s, cut) ==> cut == LineCut(s, cap)
    ensures Utf8.Valid(s) && !EndsLine(s, cut) ==> cap <= cut + 3
  {
    if LineCut(s, cap) > 0 {
      assert EndsLine(s, LineCut(s, cap));
    } else if Utf8.Valid(s) {
      var near := BoundaryNear(s, cap);
    }
  }

  /** The cap holds if and only if there is room for the trailer behind the last whole line within it. */
  lemma CapHoldsIffRoomy(s: Bytes, cap: nat, cut: nat, out: Bytes)
    requires Utf8.Valid(s) && CutTo(s, cap, cut, out)
    ensures |out| <= cap <==> Roomy(s, cap)
  {
    if |s| > cap {
      CutAtLine(s, cap, cut);
    }
  }

  /** A first line longer than the cap is split, and the cap exceeded by at least twenty bytes. */
  lemma LongLineExceedsCap(s: Bytes, cap: nat, cut: nat, out: Bytes)
    requires Utf8.Valid(s) && |s| > cap && LF !in s[..cap] && CutTo(s, cap, cut, out)
    ensures |out| >= cap + 20 && !EndsLine(s, cut)
  {
    CutAtLine(s, cap, cut);
  }

  /** `smart_truncate`. */
  method SmartTruncate(input: Bytes, cap: nat) returns (out: Bytes, ghost cut: nat)
    ensures CutTo(input, cap, cut, out)
    ensures exists c: nat :: CutTo(input, cap, c, out)
    ensures |out| <= cap + 22 + |Digits(|input| - cut)|
    ensures Utf8.Valid(input) ==> Utf8.Valid(out) && Utf8.Valid(input[..cut])
    ensures Utf8.Valid(input) ==> (|out| <= cap <==> Roomy(input, cap))
    ensures Utf8.Valid(input) && |input| > cap && !EndsLine(input, cut) ==>
              forall c :: cut < c <= cap ==> !Utf8.Valid(input[..c])
  {
    if |input| <= cap {
      assert input[..|input|] == input;
      out, cut := input, |input|;
      assert CutTo(input, cap, cut, out);
      return;
    }
    var c: nat := cap;
    while c > 0 && input[c - 1] != LF
      invariant c <= cap
      invariant forall d :: c < d <= cap ==> !EndsLine(input, d)
    {
      c := c - 1;
    }
    if c == 0 {
      c := cap;
      while c > 0 && !IsBoundary(input, c)
        invariant c <= cap
        invariant forall d :: c < d <= cap ==> !IsBoundary(input, d)
      {
        c := c - 1;
      }
    } else {
      assert EndsLine(input, c);
    }
    cut := c;
    out := input[..c] + Trailer(|input| - c);
    assert CutTo(input, cap, cut, out);
    if Utf8.Valid(input) {
      CutIsSafe(input, cap, c);
      CapHoldsIffRoomy(input, cap, c, out);
      TrailerValid(|input| - c);
      ValidAppend(input[..c], Trailer(|input| - c));
    }
  }

  lemma CutIsSafe(s: Bytes, cap: nat, cut: nat)
    requires Utf8.Valid(s) && BestCut(s, cap, cut)
    ensures Utf8.Valid(s[..cut])
    ensures !EndsLine(s, cut) ==> forall c :: cut < c <= cap ==> !Utf8.Valid(s[..c])
  {
    if EndsLine(s, cut) {
      NewlineSplits(s, cut - 1);
      assert s[..cut - 1 + 1] == s[..cut];
    } else {
      BoundarySplits(s, cut);
      forall c | cut < c <= cap
        ensures !Utf8.Valid(s[..c])
      {
        if Utf8.Valid(s[..c]) {
          SafeCutIsBoundary(s, c);
        }
      }
    }
  }

  // ----- the diff scanner's detail text -------------------------------------------------------

  const MAX_DETAIL: nat := 200

  /** The scanner's `truncate`: at most one character is given up, and the result fits in 202 bytes. */
  method TruncateDetail(s: Bytes) returns (out: Bytes, ghost end: nat)
    ensures |s| <= 200 ==> out == s
    ensures |s| > 200 ==> end < 200 && out == s[..end] + [0xE2, 0x80, 0xA6]
    ensures |out| <= 202
    ensures Utf8.Valid(s) ==> Utf8.Valid(out)
    ensures Utf8.Valid(s) && |s| > 200 ==> 196 <= end && forall c :: end < c < 200 ==> !Utf8.Valid(s[..c])
  {
    if |s| <= MAX_DETAIL {
      return s, |s|;
    }
    var e: nat := MAX_DETAIL - 1;
    while e > 0 && !IsBoundary(s, e)
      invariant e <= MAX_DETAIL - 1
      invariant forall c :: e < c < MAX_DETAIL ==> !IsBoundary(s, c)
    {
      e := e - 1;
    }
    end := e;
    out := s[..e] + ELLIPSIS;
    if Utf8.Valid(s) {
      ghost var near := BoundaryNear(s, MAX_DETAIL - 1);
      BoundarySplits(s, e);
      EllipsisValid();
      ValidAppend(s[..e], ELLIPSIS);
      forall c | e < c < MAX_DETAIL
        ensures !Utf8.Valid(s[..c])
      {
        if Utf8.Valid(s[..c]) {
          SafeCutIsBoundary(s, c);
        }
      }
    }
  }
}
