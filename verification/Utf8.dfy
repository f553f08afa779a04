/** Well-formed UTF-8 as byte sequences, by the grammar in section 4 of RFC 3629, and its character boundaries. */
module Utf8 {
  import opened Lines

  predicate IsCont(b: Byte) {
    0x80 <= b <= 0xBF
  }

  /** The length of the character at the front, or 0 when there is no well-formed one. */
  function CharLen(s: Bytes): (n: nat)
    ensures n <= 4 && n <= |s|
    ensures forall i :: 1 <= i < n ==> IsCont(s[i])
    ensures n > 0 ==> !IsCont(s[0])
  {
    if s == [] then 0
    else if 0 <= s[0] <= 0x7F then 1
    else if 0xC2 <= s[0] <= 0xDF && |s| >= 2 && IsCont(s[1]) then 2
    else if 0xE0 <= s[0] <= 0xEF && |s| >= 3 && IsCont(s[1]) && IsCont(s[2])
            && (s[0] == 0xE0 ==> s[1] >= 0xA0) && (s[0] == 0xED ==> s[1] <= 0x9F) then 3
    else if 0xF0 <= s[0] <= 0xF4 && |s| >= 4 && IsCont(s[1]) && IsCont(s[2]) && IsCont(s[3])
            && (s[0] == 0xF0 ==> s[1] >= 0x90) && (s[0] == 0xF4 ==> s[1] <= 0x8F) then 4
    else 0
  }

  predicate Valid(s: Bytes) {
    s == [] || (CharLen(s) > 0 && Valid(s[CharLen(s)..]))
  }

  /** `str::is_char_boundary`. */
  predicate IsBoundary(s: Bytes, b: nat) {
    b == 0 || b == |s| || (b < |s| && !IsCont(s[b]))
  }

  lemma CharLenPrefix(a: Bytes, b: Bytes)
    requires CharLen(a) > 0
    ensures CharLen(a + b) == CharLen(a)
  {
  }

  lemma {:induction false} ValidAppend(a: Bytes, b: Bytes)
    requires Valid(a) && Valid(b)
    ensures Valid(a + b)
    decreases |a|
  {
    if a == [] {
      assert a + b == b;
    } else {
      var n := CharLen(a);
      CharLenPrefix(a, b);
      assert (a + b)[n..] == a[n..] + b;
      ValidAppend(a[n..], b);
    }
  }

  /** Cutting at a boundary leaves well-formed text on both sides. */
  lemma {:induction false} BoundarySplits(s: Bytes, b: nat)
    requires Valid(s) && b <= |s| && IsBoundary(s, b)
    ensures Valid(s[..b]) && Valid(s[b..])
    decreases |s|
  {
    if b == 0 {
      assert s[..b] == [] && s[b..] == s;
    } else if b == |s| {
      assert s[..b] == s && s[b..] == [];
    } else {
      var n := CharLen(s);
      BoundaryBehind(s, n, b);
      BoundarySplits(s[n..], b - n);
      CharInFront(s, n, b);
    }
  }

  /** A character in front of a well-formed split. */
  lemma CharInFront(s: Bytes, n: nat, b: nat)
    requires n == CharLen(s) > 0 && n <= b <= |s| && Valid(s[n..][..b - n]) && Valid(s[n..][b - n..])
    ensures Valid(s[..b]) && Valid(s[b..])
  {
    var rest := s[n..];
    assert s[..b] == s[..n] + rest[..b - n] && s[b..] == rest[b - n..];
    ValidChar(s, n);
    ValidAppend(s[..n], rest[..b - n]);
  }

  /** A boundary inside a text is not inside its first character. */
  lemma BoundaryBehind(s: Bytes, n: nat, b: nat)
    requires n == CharLen(s) > 0 && 0 < b < |s| && IsBoundary(s, b)
    ensures n <= b && IsBoundary(s[n..], b - n)
  {
    assert n <= b ==> s[n..][b - n] == s[b];
  }

  lemma ValidChar(s: Bytes, n: nat)
    requires n == CharLen(s) && n > 0
    ensures Valid(s[..n])
  {
    assert s == s[..n] + s[n..];
    assert CharLen(s[..n]) == n;
    assert s[..n][n..] == [];
  }

  /** A well-formed prefix of well-formed text ends at a boundary, so boundaries are exactly the safe cuts. */
  lemma {:induction false} SafeCutIsBoundary(s: Bytes, b: nat)
    requires Valid(s) && b <= |s| && Valid(s[..b])
    ensures IsBoundary(s, b)
    decreases |s|
  {
    if 0 < b < |s| {
      var n := CharLen(s[..b]);
      assert s == s[..b] + s[b..];
      CharLenPrefix(s[..b], s[b..]);
      assert s[..b][n..] == s[n..][..b - n];
      SafeCutIsBoundary(s[n..], b - n);
      if b == n {
        assert s[n..] == s[b..];
        assert CharLen(s[b..]) > 0;
      } else {
        assert s[n..][b - n] == s[b];
      }
    }
  }

  /** There is a boundary within three bytes of any position. */
  lemma {:induction false} BoundaryNear(s: Bytes, b: nat) returns (c: nat)
    requires Valid(s) && b <= |s|
    ensures c <= b <= c + 3 && IsBoundary(s, c)
    decreases |s|
  {
    var n := CharLen(s);
    if b < n || s == [] {
      c := 0;
    } else {
      var c' := BoundaryNear(s[n..], b - n);
      c := n + c';
      if c < |s| {
        if c' == 0 {
          assert s[n..] != [] && s[n..][0] == s[c];
          assert CharLen(s[n..]) > 0;
        } else {
          assert s[n..][c'] == s[c];
        }
      }
    }
  }

  /** A newline is a character of its own. */
  lemma NewlineSplits(s: Bytes, k: nat)
    requires Valid(s) && k < |s| && s[k] == LF
    ensures Valid(s[..k]) && Valid(s[k + 1..]) && Valid(s[..k + 1])
  {
    BoundarySplits(s, k);
    var t := s[k..];
    assert CharLen(t) == 1 && t[1..] == s[k + 1..];
    ValidAppend(s[..k], [LF]);
    assert s[..k] + [LF] == s[..k + 1];
    assert Valid([LF]) by { assert CharLen([LF]) == 1; }
  }

  // ----- against the encoding -----------------------------------------------------------------

  /** A Unicode scalar value: any code point but the surrogates. */
  predicate IsScalar(c: int) {
    0 <= c < 0xD800 || 0xE000 <= c < 0x110000
  }

  /** The encoding of a scalar value, by the table in section 3 of RFC 3629. */
  function Encoded(c: int): Bytes
    requires IsScalar(c)
  {
    if c < 0x80 then [c]
    else if c < 0x800 then [0xC0 + c / 64, 0x80 + c % 64]
    else if c < 0x10000 then [0xE0 + c / 4096, 0x80 + c / 64 % 64, 0x80 + c % 64]
    else [0xF0 + c / 262144, 0x80 + c / 4096 % 64, 0x80 + c / 64 % 64, 0x80 + c % 64]
  }

  function EncodedAll(cs: seq<int>): Bytes
    requires forall i :: 0 <= i < |cs| ==> IsScalar(cs[i])
  {
    if cs == [] then [] else Encoded(cs[0]) + EncodedAll(cs[1..])
  }

  lemma EncodedBytes(c: int)
    requires IsScalar(c)
    ensures 0x80 <= c < 0x800 ==> 0xC2 <= 0xC0 + c / 64 <= 0xDF
    ensures 0x800 <= c < 0x10000 ==> 0xE0 <= 0xE0 + c / 4096 <= 0xEF && IsCont(0x80 + c / 64 % 64)
    ensures 0x800 <= c < 0x1000 ==> c / 4096 == 0 && c / 64 % 64 >= 0x20
    ensures 0xD000 <= c < 0xD800 ==> c / 64 % 64 <= 0x1F
    ensures 0xE000 <= c < 0x10000 ==> c / 4096 >= 0xE
    ensures 0x10000 <= c ==> 0xF0 <= 0xF0 + c / 262144 <= 0xF4 && IsCont(0x80 + c / 4096 % 64)
    ensures 0x10000 <= c < 0x40000 ==> c / 262144 == 0 && c / 4096 % 64 >= 0x10
    ensures 0x100000 <= c ==> c / 262144 == 4 && c / 4096 % 64 <= 0x0F
    ensures IsCont(0x80 + c / 64 % 64) && IsCont(0x80 + c % 64)
  {
  }

  lemma EncodedIsChar(c: int, rest: Bytes)
    requires IsScalar(c)
    ensures CharLen(Encoded(c) + rest) == |Encoded(c)| > 0
  {
    EncodedBytes(c);
    var e, s := Encoded(c), Encoded(c) + rest;
    assert forall i :: 0 <= i < |e| ==> s[i] == e[i];
  }

  /** The character at the front is the encoding of a scalar value. */
  lemma CharIsEncoded(s: Bytes) returns (c: int)
    requires CharLen(s) > 0
    ensures IsScalar(c) && Encoded(c) == s[..CharLen(s)]
  {
    var n := CharLen(s);
    if n == 1 {
      c := s[0];
    } else if n == 2 {
      c := (s[0] - 0xC0) * 64 + (s[1] - 0x80);
    } else if n == 3 {
      c := ThreeBytes(s[0], s[1], s[2]);
    } else {
      c := FourBytes(s[0], s[1], s[2], s[3]);
    }
  }

  lemma ThreeBytes(a: int, b: int, d: int) returns (c: int)
    requires 0xE0 <= a <= 0xEF && IsCont(b) && IsCont(d) && (a == 0xE0 ==> b >= 0xA0) && (a == 0xED ==> b <= 0x9F)
    ensures IsScalar(c) && Encoded(c) == [a, b, d]
  {
    c := (a - 0xE0) * 4096 + (b - 0x80) * 64 + (d - 0x80);
    assert c / 64 == (a - 0xE0) * 64 + (b - 0x80);
  }

  lemma FourBytes(a: int, b: int, d: int, e: int) returns (c: int)
    requires 0xF0 <= a <= 0xF4 && IsCont(b) && IsCont(d) && IsCont(e) && (a == 0xF0 ==> b >= 0x90) && (a == 0xF4 ==> b <= 0x8F)
    ensures IsScalar(c) && Encoded(c) == [a, b, d, e]
  {
    c := (a - 0xF0) * 262144 + (b - 0x80) * 4096 + (d - 0x80) * 64 + (e - 0x80);
    assert c / 64 == (a - 0xF0) * 4096 + (b - 0x80) * 64 + (d - 0x80);
    assert c / 4096 == (a - 0xF0) * 64 + (b - 0x80);
  }

  lemma {:induction false} EncodedIsValid(cs: seq<int>)
    requires forall i :: 0 <= i < |cs| ==> IsScalar(cs[i])
    ensures Valid(EncodedAll(cs))
  {
    if cs != [] {
      EncodedIsValid(cs[1..]);
      EncodedIsChar(cs[0], EncodedAll(cs[1..]));
      var s := EncodedAll(cs);
      assert s[|Encoded(cs[0])|..] == EncodedAll(cs[1..]);
    }
  }

  /** Well-formed texts are exactly the encodings of sequences of scalar values. */
  lemma {:induction false} ValidIsEncoded(s: Bytes) returns (cs: seq<int>)
    requires Valid(s)
    ensures forall i :: 0 <= i < |cs| ==> IsScalar(cs[i])
    ensures EncodedAll(cs) == s
    decreases |s|
  {
    cs := [];
    if s != [] {
      var n := CharLen(s);
      var c := CharIsEncoded(s);
      var rest := ValidIsEncoded(s[n..]);
      cs := [c] + rest;
      assert cs[1..] == rest && s == s[..n] + s[n..];
    }
  }
}
