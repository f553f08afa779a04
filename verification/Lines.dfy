/** Newline-delimited byte streams: terminated lines, the unterminated tail, and how they recompose. */
module Lines {
  import opened Prelude

  /** One unit of a stream; nothing about lines depends on its range. */
  type Byte = int

  type Bytes = seq<Byte>

  const LF: Byte := 10
  const CR: Byte := 13

  /** The newline-terminated lines of a stream, without their newlines. */
  function Terminated(s: Bytes): (ls: seq<Bytes>)
    ensures forall l :: l in ls ==> LF !in l
  {
    var k := IndexOf(s, LF);
    if k == |s| then [] else [s[..k]] + Terminated(s[k + 1..])
  }

  /** What follows the last newline. */
  function Tail(s: Bytes): (t: Bytes)
    ensures LF !in t && |t| <= |s|
  {
    var k := IndexOf(s, LF);
    if k == |s| then s else Tail(s[k + 1..])
  }

  /** Lines written one after another, each with its newline. */
  function Wire(ls: seq<Bytes>): Bytes {
    if ls == [] then [] else ls[0] + [LF] + Wire(ls[1..])
  }

  predicate LineFree(ls: seq<Bytes>) {
    forall l :: l in ls ==> LF !in l
  }

  lemma SplitFirst(l: Bytes, rest: Bytes)
    requires LF !in l
    ensures Terminated(l + [LF] + rest) == [l] + Terminated(rest)
    ensures Tail(l + [LF] + rest) == Tail(rest)
  {
    var s := l + [LF] + rest;
    IndexOfAppend(l, rest, LF);
    assert s[|l| + 1..] == rest && s[..|l|] == l;
  }

  lemma SplitNone(s: Bytes)
    requires LF !in s
    ensures Terminated(s) == [] && Tail(s) == s
  {
  }

  /** A stream is either one unterminated piece, or a first line and the rest. */
  lemma FirstLine(s: Bytes)
    requires LF in s
    ensures var k := IndexOf(s, LF); s == s[..k] + [LF] + s[k + 1..] && LF !in s[..k]
  {
  }

  lemma WireFirst(ls: seq<Bytes>, t: Bytes)
    requires ls != []
    ensures Wire(ls) + t == ls[0] + [LF] + (Wire(ls[1..]) + t)
  {
    Associate(ls[0] + [LF], Wire(ls[1..]), t);
  }

  lemma {:induction false} SplitWire(ls: seq<Bytes>, t: Bytes)
    requires LineFree(ls) && LF !in t
    ensures Terminated(Wire(ls) + t) == ls && Tail(Wire(ls) + t) == t
  {
    if ls == [] {
      assert Wire(ls) + t == t;
      SplitNone(t);
    } else {
      var first, rest := ls[0], ls[1..];
      assert first in ls && forall l :: l in rest ==> l in ls;
      SplitWire(rest, t);
      WireFirst(ls, t);
      SplitFirst(first, Wire(rest) + t);
      assert ls == [first] + rest;
    }
  }

  lemma {:induction false} WireSplit(s: Bytes)
    ensures Wire(Terminated(s)) + Tail(s) == s
    decreases |s|
  {
    if LF in s {
      var k := IndexOf(s, LF);
      FirstLine(s);
      WireSplit(s[k + 1..]);
      WireCons(s[..k], Terminated(s[k + 1..]));
    }
  }

  lemma WireCons(l: Bytes, ls: seq<Bytes>)
    ensures Wire([l] + ls) == l + [LF] + Wire(ls)
  {
    assert ([l] + ls)[1..] == ls;
  }

  /** Reading more input continues where the tail left off. */
  lemma {:induction false} SplitAppend(a: Bytes, b: Bytes)
    ensures Terminated(a + b) == Terminated(a) + Terminated(Tail(a) + b)
    ensures Tail(a + b) == Tail(Tail(a) + b)
    decreases |a|
  {
    if LF in a {
      var k := IndexOf(a, LF);
      FirstLine(a);
      assert a + b == a[..k] + [LF] + (a[k + 1..] + b);
      SplitFirst(a[..k], a[k + 1..] + b);
      SplitAppend(a[k + 1..], b);
    }
  }

  lemma {:induction false} WireAppend(a: seq<Bytes>, b: seq<Bytes>)
    ensures Wire(a + b) == Wire(a) + Wire(b)
  {
    if a == [] {
      assert a + b == b;
    } else {
      assert (a + b)[1..] == a[1..] + b;
      WireAppend(a[1..], b);
    }
  }

  // ----- texts as lines -----------------------------------------------------------------------

  /** ASCII text as bytes. */
  function Ascii(s: string): (r: Bytes)
    ensures |r| == |s| && forall i :: 0 <= i < |s| ==> r[i] == s[i] as int
  {
    seq(|s|, i requires 0 <= i < |s| => s[i] as int)
  }

  /** `split('\n')`: always at least one line. */
  function Split(s: Bytes): (ls: seq<Bytes>)
    ensures ls != [] && LineFree(ls)
  {
    Terminated(s) + [Tail(s)]
  }

  function Join(ls: seq<Bytes>): Bytes {
    if ls == [] then []
    else if |ls| == 1 then ls[0]
    else ls[0] + [LF] + Join(ls[1..])
  }

  lemma {:induction false} JoinIsWire(ls: seq<Bytes>, last: Bytes)
    ensures Join(ls + [last]) == Wire(ls) + last
  {
    if ls == [] {
      assert ls + [last] == [last];
    } else {
      assert (ls + [last])[1..] == ls[1..] + [last];
      JoinIsWire(ls[1..], last);
    }
  }

  lemma JoinSplit(s: Bytes)
    ensures Join(Split(s)) == s
  {
    JoinIsWire(Terminated(s), Tail(s));
    WireSplit(s);
  }

  lemma SplitJoin(ls: seq<Bytes>)
    requires ls != [] && LineFree(ls)
    ensures Split(Join(ls)) == ls
  {
    var init, last := ls[..|ls| - 1], ls[|ls| - 1];
    assert ls == init + [last];
    JoinIsWire(init, last);
    SplitWire(init, last);
  }
}
