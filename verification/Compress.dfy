/** Folding runs of identical lines: `dedup_lines` and `compress`. */
module Compress {
  import opened Prelude
  import opened Lines
  import opened Utf8
  import opened Decimal
  import opened Truncate

  // ----- runs ---------------------------------------------------------------------------------

  function Repeat(l: Bytes, n: nat): (ls: seq<Bytes>)
    ensures |ls| == n && forall i :: 0 <= i < n ==> ls[i] == l
  {
    if n == 0 then [] else [l] + Repeat(l, n - 1)
  }

  /** The length of the run of identical lines at the front. */
  function RunLength(ls: seq<Bytes>): (n: nat)
    requires ls != []
    ensures 1 <= n <= |ls|
    ensures ls[..n] == Repeat(ls[0], n)
    ensures n < |ls| ==> ls[n] != ls[0]
  {
    if |ls| > 1 && ls[1] == ls[0] then
      var n := RunLength(ls[1..]);
      assert ls[..n + 1] == [ls[0]] + ls[1..][..n];
      n + 1
    else 1
  }

  /** "…×" in UTF-8. */
  const MARK: Bytes := [0xE2, 0x80, 0xA6, 0xC3, 0x97]

  function Marker(n: nat): Bytes {
    MARK + Ascii(Digits(n))
  }

  function Folded(l: Bytes, run: nat): seq<Bytes> {
    if run > 2 then [l, Marker(run - 1)] else Repeat(l, run)
  }

  function Fold(ls: seq<Bytes>): seq<Bytes> {
    if ls == [] then [] else Folded(ls[0], RunLength(ls)) + Fold(ls[RunLength(ls)..])
  }

  function Dedup(s: Bytes): Bytes {
    Join(Fold(Split(s)))
  }

  // ----- unfolding ----------------------------------------------------------------------------

  /** The mark and a numeral. */
  predicate HasCount(l: Bytes) {
    MARK <= l && |l| > |MARK| && forall i :: |MARK| <= i < |l| ==> 48 <= l[i] <= 57
  }

  function CountOf(l: Bytes): nat
    requires HasCount(l)
  {
    Value(Numeral(l[|MARK|..]))
  }

  /** A line as folding writes it: the marker of two or more repeats. */
  predicate IsMarker(l: Bytes) {
    HasCount(l) && CountOf(l) >= 2 && l == Marker(CountOf(l))
  }

  function Unfold(ls: seq<Bytes>): seq<Bytes> {
    if ls == [] then []
    else if |ls| > 1 && IsMarker(ls[1]) then Repeat(ls[0], 1 + CountOf(ls[1])) + Unfold(ls[2..])
    else [ls[0]] + Unfold(ls[1..])
  }

  function Expand(s: Bytes): Bytes {
    Join(Unfold(Split(s)))
  }

  lemma MarkerReads(n: nat)
    ensures HasCount(Marker(n)) && CountOf(Marker(n)) == n && LF !in Marker(n)
  {
    var m := Marker(n);
    assert m[|MARK|..] == Ascii(Digits(n));
    assert forall i :: |MARK| <= i < |m| ==> m[i] == Digits(n)[i - |MARK|] as int;
    assert Numeral(m[|MARK|..]) == Digits(n);
    ValueOfDigits(n);
  }

  lemma MarkersDiffer(m: nat, n: nat)
    ensures Marker(m) == Marker(n) <==> m == n
  {
    MarkerReads(m);
    MarkerReads(n);
  }

  lemma MarkersExactly(l: Bytes)
    ensures IsMarker(l) <==> exists n: nat :: n >= 2 && l == Marker(n)
  {
    if n: nat :| n >= 2 && l == Marker(n) {
      MarkerReads(n);
    }
  }

  lemma FoldHead(ls: seq<Bytes>)
    requires ls != []
    ensures Fold(ls) != [] && Fold(ls)[0] == ls[0]
  {
  }

  /** A text is a run and then a text that starts differently, folded or not. */
  lemma FirstRun(ls: seq<Bytes>)
    requires ls != []
    ensures var n := RunLength(ls); var rest := ls[n..];
      && ls == Repeat(ls[0], n) + rest && Fold(ls) == Folded(ls[0], n) + Fold(rest)
      && (rest == [] <==> Fold(rest) == []) && (rest != [] ==> Fold(rest)[0] == rest[0] != ls[0])
  {
    var rest := ls[RunLength(ls)..];
    if rest != [] {
      FoldHead(rest);
    }
  }

  lemma UnfoldOne(l: Bytes, ls: seq<Bytes>)
    requires ls != [] ==> !IsMarker(ls[0])
    ensures Unfold([l] + ls) == [l] + Unfold(ls)
  {
    assert ([l] + ls)[1..] == ls;
  }

  lemma UnfoldMarked(l: Bytes, ls: seq<Bytes>)
    requires ls != [] && IsMarker(ls[0])
    ensures Unfold([l] + ls) == Repeat(l, 1 + CountOf(ls[0])) + Unfold(ls[1..])
  {
    assert ([l] + ls)[2..] == ls[1..];
  }

  /** Where a run of n lines may stand: no two lines of it, nor its last and the next, look like a line and its marker. */
  predicate Clear(l: Bytes, n: nat, rest: seq<Bytes>) {
    && (n == 2 ==> !IsMarker(l))
    && (n <= 2 && rest != [] ==> !IsMarker(rest[0]))
  }

  lemma UnfoldFolded(l: Bytes, n: nat, more: seq<Bytes>)
    requires n > 0 && Clear(l, n, more)
    ensures Unfold(Folded(l, n) + more) == Repeat(l, n) + Unfold(more)
  {
    if n > 2 {
      MarkerReads(n - 1);
      var ls := [Marker(n - 1)] + more;
      assert Folded(l, n) + more == [l] + ls && ls[1..] == more;
      UnfoldMarked(l, ls);
    } else if n == 2 {
      UnfoldTwo(l, more);
    } else {
      UnfoldOne(l, more);
      assert Repeat(l, 1) == [l];
    }
  }

  lemma UnfoldTwo(l: Bytes, more: seq<Bytes>)
    requires Clear(l, 2, more)
    ensures Unfold(Repeat(l, 2) + more) == Repeat(l, 2) + Unfold(more)
  {
    var two := Repeat(l, 2);
    assert two == [l] + [l];
    UnfoldOne(l, more);
    UnfoldOne(l, [l] + more);
    assert two + more == [l] + ([l] + more);
    assert two + Unfold(more) == [l] + ([l] + Unfold(more));
  }

  /** Otherwise the decoder makes the run longer than it was. */
  lemma Misread(l: Bytes, n: nat, rest: seq<Bytes>, more: seq<Bytes>)
    requires n > 0 && !Clear(l, n, more) && (rest == [] <==> more == []) && (rest != [] ==> more[0] == rest[0] != l)
    ensures Unfold(Folded(l, n) + more) != Repeat(l, n) + rest
  {
    var u := Unfold(Repeat(l, n) + more);
    assert n < |u| && u[n] == l by {
      if n == 1 {
        assert Repeat(l, 1) == [l];
        UnfoldMarked(l, more);
      } else {
        assert Repeat(l, 2) + more == [l] + ([l] + more);
        if IsMarker(l) {
          UnfoldMarked(l, [l] + more);
        } else {
          UnfoldOne(l, [l] + more);
          UnfoldMarked(l, more);
        }
      }
    }
  }

  /** Every run stands where the decoder reads it as it was written. */
  predicate Readable(ls: seq<Bytes>)
    decreases |ls|
  {
    ls == [] ||
    var n := RunLength(ls);
    Clear(ls[0], n, ls[n..]) && Readable(ls[n..])
  }

  lemma {:induction false} UnfoldFold(ls: seq<Bytes>)
    ensures Unfold(Fold(ls)) == ls <==> Readable(ls)
    decreases |ls|
  {
    if ls != [] {
      var n := RunLength(ls);
      var l, rest := ls[0], ls[n..];
      FirstRun(ls);
      if Clear(l, n, rest) {
        UnfoldFold(rest);
        UnfoldFolded(l, n, Fold(rest));
        assert ls[n..] == rest && (Repeat(l, n) + Unfold(Fold(rest)))[n..] == Unfold(Fold(rest));
      } else {
        Misread(l, n, rest, Fold(rest));
      }
    }
  }

  lemma {:induction false} FoldLineFree(ls: seq<Bytes>)
    requires LineFree(ls)
    ensures LineFree(Fold(ls)) && (ls != [] ==> Fold(ls) != [])
    decreases |ls|
  {
    if ls != [] {
      var n := RunLength(ls);
      assert ls[0] in ls && forall l :: l in ls[n..] ==> l in ls;
      FoldLineFree(ls[n..]);
      MarkerReads(n - 1);
    }
  }

  lemma {:induction false} UnfoldLineFree(ls: seq<Bytes>)
    requires LineFree(ls)
    ensures LineFree(Unfold(ls)) && (ls != [] ==> Unfold(ls) != [])
    decreases |ls|
  {
    if ls != [] {
      assert ls[0] in ls && forall l :: l in ls[1..] ==> l in ls;
      UnfoldLineFree(ls[1..]);
      if |ls| > 1 {
        assert forall l :: l in ls[2..] ==> l in ls;
        UnfoldLineFree(ls[2..]);
      }
    }
  }

  /** Expanding the markers of a deduplicated text restores it exactly when every run of it is readable. */
  lemma Lossless(s: Bytes)
    ensures Expand(Dedup(s)) == s <==> Readable(Split(s))
  {
    var ls := Split(s);
    FoldLineFree(ls);
    SplitJoin(Fold(ls));
    UnfoldFold(ls);
    UnfoldLineFree(Fold(ls));
    SplitJoin(Unfold(Fold(ls)));
    JoinSplit(s);
  }

  lemma JoinTwo(l: Bytes, m: Bytes)
    ensures Join([l, m]) == l + [10] + m
  {
    assert [l, m][1..] == [m];
  }

  lemma DedupRun(l: Bytes, n: nat)
    requires n > 0 && LF !in l
    ensures Dedup(Join(Repeat(l, n))) == Join(Folded(l, n))
  {
    var ls := Repeat(l, n);
    SplitJoin(ls);
    FoldRun(l, n, []);
    assert ls + [] == ls && Folded(l, n) + [] == Folded(l, n);
  }

  /** A run of one line, written out: up to two lines stay, more become the line and a marker that names the repeats. */
  lemma RunText(l: Bytes, n: nat)
    requires n > 0 && LF !in l
    ensures n <= 2 ==> Dedup(Join(Repeat(l, n))) == Join(Repeat(l, n))
    ensures n > 2 ==> Dedup(Join(Repeat(l, n))) == l + [10] + ([0xE2, 0x80, 0xA6, 0xC3, 0x97] + Ascii(Digits(n - 1)))
    ensures n > 2 ==> Value(Digits(n - 1)) == n - 1
  {
    DedupRun(l, n);
    if n > 2 {
      ValueOfDigits(n - 1);
      JoinTwo(l, Marker(n - 1));
    }
  }

  /** Runs are folded one by one. */
  lemma RunByRun(l: Bytes, n: nat, rest: seq<Bytes>)
    requires n > 0 && LF !in l && rest != [] && LineFree(rest) && rest[0] != l
    ensures Dedup(Join(Repeat(l, n) + rest)) == Dedup(Join(Repeat(l, n))) + [10] + Dedup(Join(rest))
  {
    var ls := Repeat(l, n);
    SplitJoin(ls + rest);
    SplitJoin(ls);
    SplitJoin(rest);
    FoldRun(l, n, rest);
    FoldRun(l, n, []);
    assert ls + [] == ls && Folded(l, n) + [] == Folded(l, n);
    FoldHead(rest);
    JoinAppend(Folded(l, n), Fold(rest));
  }

  // ----- which texts have a decoder -----------------------------------------------------------

  ghost predicate Over(ls: seq<Bytes>, a: iset<Bytes>) {
    forall l :: l in ls ==> l in a
  }

  ghost predicate Unmarked(a: iset<Bytes>) {
    forall n: nat :: n >= 2 ==> Marker(n) !in a
  }

  /** No two texts over these lines are deduplicated alike, so some decoder restores them all. */
  ghost predicate Decodable(a: iset<Bytes>) {
    forall s, t :: Over(Split(s), a) && Over(Split(t), a) && Dedup(s) == Dedup(t) ==> s == t
  }

  lemma {:induction false} UnmarkedIsReadable(ls: seq<Bytes>, a: iset<Bytes>)
    requires Over(ls, a) && Unmarked(a)
    ensures Readable(ls)
    decreases |ls|
  {
    if ls != [] {
      var rest := ls[RunLength(ls)..];
      assert ls[0] in ls && forall l :: l in rest ==> l in ls;
      MarkersExactly(ls[0]);
      if rest != [] {
        assert rest[0] in rest;
        MarkersExactly(rest[0]);
      }
      UnmarkedIsReadable(rest, a);
    }
  }

  lemma RunLengthIs(ls: seq<Bytes>, n: nat)
    requires ls != [] && 1 <= n <= |ls| && (forall i :: 0 <= i < n ==> ls[i] == ls[0]) && (n < |ls| ==> ls[n] != ls[0])
    ensures RunLength(ls) == n
  {
    var m := RunLength(ls);
    assert forall i :: 0 <= i < m ==> ls[i] == ls[..m][i];
  }

  lemma FoldRun(l: Bytes, n: nat, rest: seq<Bytes>)
    requires n > 0 && (rest != [] ==> rest[0] != l)
    ensures Fold(Repeat(l, n) + rest) == Folded(l, n) + Fold(rest) && RunLength(Repeat(l, n) + rest) == n
  {
    var ls := Repeat(l, n) + rest;
    RunLengthIs(ls, n);
    assert ls[n..] == rest;
  }

  lemma FoldSingle(l: Bytes, rest: seq<Bytes>)
    requires rest != [] ==> rest[0] != l
    ensures Fold([l] + rest) == [l] + Fold(rest)
  {
    FoldRun(l, 1, rest);
    assert Repeat(l, 1) == [l];
  }

  /** A repeated line and its own folded form fold alike. */
  lemma MarkedTextCollides(l: Bytes, n: nat)
    requires n > 2 && LF !in l
    ensures Split(Join(Repeat(l, n))) == Repeat(l, n) && Split(Join([l, Marker(n - 1)])) == [l, Marker(n - 1)]
    ensures Dedup(Join(Repeat(l, n))) == Dedup(Join([l, Marker(n - 1)]))
  {
    var a, m := Repeat(l, n), Marker(n - 1);
    MarkerReads(n - 1);
    SplitJoin(a);
    SplitJoin([l, m]);
    FoldRun(l, n, []);
    assert a + [] == a && Folded(l, n) + [] == [l, m];
    if l == m {
      FoldRun(l, 2, []);
      assert Repeat(l, 2) + [] == [l, m] == Folded(l, 2) + [];
    } else {
      FoldSingle(m, []);
      FoldSingle(l, [m]);
      assert [m] + [] == [m] && [l] + [m] == [l, m];
    }
  }

  lemma MarkedIsUndecodable(n: nat, a: iset<Bytes>)
    requires n >= 2 && Marker(n) in a
    ensures !Decodable(a)
  {
    var m := Marker(n);
    var s, t := Join(Repeat(m, n + 1)), Join([m, m]);
    MarkerReads(n);
    MarkedTextCollides(m, n + 1);
    assert Over(Split(s), a) && Over(Split(t), a);
    assert |Split(s)| != |Split(t)|;
  }

  /** For every set of lines: the texts over it can be decoded if and only if it holds no marker of two or more repeats. */
  lemma DecodableIffUnmarked(a: iset<Bytes>)
    ensures Decodable(a) <==> Unmarked(a)
  {
    if n: nat :| n >= 2 && Marker(n) in a {
      MarkedIsUndecodable(n, a);
    } else {
      forall s, t | Over(Split(s), a) && Over(Split(t), a) && Dedup(s) == Dedup(t)
        ensures s == t
      {
        UnmarkedIsReadable(Split(s), a);
        UnmarkedIsReadable(Split(t), a);
        Lossless(s);
        Lossless(t);
      }
    }
  }

  // ----- folding twice ------------------------------------------------------------------------

  lemma {:induction false} FoldShorter(ls: seq<Bytes>)
    ensures |Fold(ls)| <= |ls|
    decreases |ls|
  {
    if ls != [] {
      FoldShorter(ls[RunLength(ls)..]);
    }
  }

  /** A run of n lines writes a marker that becomes the third of a run: the next run is of that marker, two or n times. */
  predicate Crowds(n: nat, rest: seq<Bytes>) {
    n > 2 && rest != [] && rest[0] == Marker(n - 1) && (RunLength(rest) == 2 || RunLength(rest) == n)
  }

  predicate Settled(ls: seq<Bytes>)
    decreases |ls|
  {
    ls == [] ||
    var n := RunLength(ls);
    !Crowds(n, ls[n..]) && Settled(ls[n..])
  }

  /** Nothing is left to fold. */
  predicate Stable(ls: seq<Bytes>) {
    Fold(ls) == ls
  }

  /** A run of one or two lines in front is kept, a run of three is folded. */
  lemma StableRun(l: Bytes, n: nat, rest: seq<Bytes>)
    requires 1 <= n <= 3 && (rest != [] ==> rest[0] != l)
    ensures Stable(Repeat(l, n) + rest) <==> n <= 2 && Stable(rest)
  {
    FoldRun(l, n, rest);
    if n <= 2 {
      PrefixCancels(Repeat(l, n), Fold(rest), rest);
    } else {
      FoldShorter(rest);
    }
  }

  lemma StableSingle(l: Bytes, rest: seq<Bytes>)
    requires rest != [] ==> rest[0] != l
    ensures Stable([l] + rest) <==> Stable(rest)
  {
    StableRun(l, 1, rest);
    assert Repeat(l, 1) == [l];
  }

  /** A folded run with its marker in front of another text. */
  lemma MarkerJoins(m: Bytes, k: nat, more: seq<Bytes>)
    requires k > 0 && (more != [] ==> more[0] != m)
    ensures Stable([m] + (Folded(m, k) + more)) <==>
            Stable(Folded(m, k) + more) && k != 2 && (k > 2 ==> Marker(k - 1) != m)
  {
    if k == 1 {
      assert Folded(m, 1) == [m];
      assert [m] + ([m] + more) == Repeat(m, 2) + more;
      StableRun(m, 2, more);
      StableSingle(m, more);
    } else if k == 2 || Marker(k - 1) == m {
      assert Folded(m, k) == [m, m];
      assert [m] + ([m, m] + more) == Repeat(m, 3) + more;
      StableRun(m, 3, more);
    } else {
      MarkerStays(m, k, more);
    }
  }

  lemma MarkerStays(m: Bytes, k: nat, more: seq<Bytes>)
    requires k > 2 && Marker(k - 1) != m
    ensures Stable([m] + (Folded(m, k) + more)) <==> Stable(Folded(m, k) + more)
  {
    var tail := [Marker(k - 1)] + more;
    assert Folded(m, k) + more == [m] + tail;
    assert [m] + ([m] + tail) == Repeat(m, 2) + tail;
    StableRun(m, 2, tail);
    StableSingle(m, tail);
  }

  lemma FoldsTwiceJoined(n: nat, rest: seq<Bytes>)
    requires n > 2 && rest != [] && rest[0] == Marker(n - 1)
    ensures Stable([rest[0]] + Fold(rest)) <==> Stable(Fold(rest)) && !Crowds(n, rest)
  {
    var k := RunLength(rest);
    FirstRun(rest);
    MarkerJoins(rest[0], k, Fold(rest[k..]));
    if k > 2 {
      MarkersDiffer(n - 1, k - 1);
    }
  }

  lemma StableTwo(l: Bytes, m: Bytes, more: seq<Bytes>)
    requires more != [] ==> more[0] != l
    ensures Stable([l, m] + more) <==> Stable(if l == m then more else [m] + more)
  {
    if l == m {
      assert [l, m] == Repeat(l, 2);
      StableRun(l, 2, more);
    } else {
      assert [l, m] + more == [l] + ([m] + more);
      StableSingle(l, [m] + more);
    }
  }

  lemma FoldsTwiceMarked(l: Bytes, n: nat, rest: seq<Bytes>)
    requires n > 2 && (rest != [] ==> rest[0] != l && Fold(rest) != [] && Fold(rest)[0] == rest[0])
    ensures Stable(Folded(l, n) + Fold(rest)) <==> Stable(Fold(rest)) && !Crowds(n, rest)
  {
    StableTwo(l, Marker(n - 1), Fold(rest));
    if l != Marker(n - 1) {
      if rest != [] && rest[0] == Marker(n - 1) {
        FoldsTwiceJoined(n, rest);
      } else {
        StableSingle(Marker(n - 1), Fold(rest));
      }
    }
  }

  /** Folding twice is folding once exactly on settled texts. */
  lemma {:induction false} FoldTwice(ls: seq<Bytes>)
    ensures Stable(Fold(ls)) <==> Settled(ls)
    decreases |ls|
  {
    if ls != [] {
      var n := RunLength(ls);
      var l, rest := ls[0], ls[n..];
      FirstRun(ls);
      FoldTwice(rest);
      if n > 2 {
        FoldsTwiceMarked(l, n, rest);
      } else {
        StableRun(l, n, Fold(rest));
      }
    }
  }

  lemma DedupIdempotent(s: Bytes)
    ensures Dedup(Dedup(s)) == Dedup(s) <==> Settled(Split(s))
  {
    var ls := Split(s);
    FoldLineFree(ls);
    SplitJoin(Fold(ls));
    FoldTwice(ls);
    FoldLineFree(Fold(ls));
    SplitJoin(Fold(Fold(ls)));
  }

  ghost predicate IdempotentOver(a: iset<Bytes>) {
    forall s :: Over(Split(s), a) ==> Dedup(Dedup(s)) == Dedup(s)
  }

  lemma {:induction false} UnmarkedIsSettled(ls: seq<Bytes>, a: iset<Bytes>)
    requires Over(ls, a) && Unmarked(a)
    ensures Settled(ls)
    decreases |ls|
  {
    if ls != [] {
      var rest := ls[RunLength(ls)..];
      assert forall l :: l in rest ==> l in ls;
      assert rest != [] ==> rest[0] in rest;
      UnmarkedIsSettled(rest, a);
    }
  }

  /** n lines and two copies of the marker they fold to: folding again folds more. */
  lemma MarkedTextFoldsTwice(l: Bytes, n: nat)
    requires n > 2 && l != Marker(n - 1)
    ensures !Settled(Repeat(l, n) + Repeat(Marker(n - 1), 2))
  {
    var two := Repeat(Marker(n - 1), 2);
    FoldRun(l, n, two);
    FoldRun(Marker(n - 1), 2, []);
    assert two + [] == two && (Repeat(l, n) + two)[n..] == two;
  }

  lemma MarkedIsNotIdempotent(l: Bytes, n: nat, a: iset<Bytes>)
    requires n >= 2 && Marker(n) in a && l in a && l != Marker(n) && LF !in l
    ensures !IdempotentOver(a)
  {
    var ls := Repeat(l, n + 1) + Repeat(Marker(n), 2);
    MarkerReads(n);
    SplitJoin(ls);
    MarkedTextFoldsTwice(l, n + 1);
    DedupIdempotent(Join(ls));
    assert Over(Split(Join(ls)), a);
  }

  ghost predicate OneLine(a: iset<Bytes>) {
    forall x, y :: x in a && y in a ==> x == y
  }

  /** For every set of lines: deduplicating texts over it is idempotent if and only if it holds no marker, or nothing else. */
  lemma IdempotentIffUnmarked(a: iset<Bytes>)
    requires forall l :: l in a ==> LF !in l
    ensures IdempotentOver(a) <==> Unmarked(a) || OneLine(a)
  {
    if Unmarked(a) || OneLine(a) {
      forall s | Over(Split(s), a)
        ensures Dedup(Dedup(s)) == Dedup(s)
      {
        DedupIdempotent(s);
        if Unmarked(a) {
          UnmarkedIsSettled(Split(s), a);
        } else {
          OneLineIsSettled(Split(s));
        }
      }
    } else {
      var n: nat :| n >= 2 && Marker(n) in a;
      var x, y :| x in a && y in a && x != y;
      MarkedIsNotIdempotent(if x == Marker(n) then y else x, n, a);
    }
  }

  lemma OneLineIsSettled(ls: seq<Bytes>)
    requires ls != [] && forall x, y :: x in ls && y in ls ==> x == y
    ensures Settled(ls)
  {
    assert forall i :: 0 <= i < |ls| ==> ls[i] in ls;
  }

  // ----- size ---------------------------------------------------------------------------------

  /** Bytes of the lines, each with a separator. */
  function Weight(ls: seq<Bytes>): nat {
    if ls == [] then 0 else |ls[0]| + 1 + Weight(ls[1..])
  }

  lemma {:induction false} JoinLength(ls: seq<Bytes>)
    requires ls != []
    ensures |Join(ls)| == Weight(ls) - 1
  {
    if |ls| > 1 {
      JoinLength(ls[1..]);
    }
  }

  lemma {:induction false} WeightAppend(a: seq<Bytes>, b: seq<Bytes>)
    ensures Weight(a + b) == Weight(a) + Weight(b)
  {
    if a == [] {
      assert a + b == b;
    } else {
      assert (a + b)[1..] == a[1..] + b;
      WeightAppend(a[1..], b);
    }
  }

  /** So a run is worthwhile when (run - 1) * (length + 1) reaches the marker's cost. */
  lemma {:induction false} WeightRepeat(l: Bytes, n: nat)
    ensures Weight(Repeat(l, n)) == n * (|l| + 1)
  {
    if n > 0 {
      assert Repeat(l, n)[1..] == Repeat(l, n - 1);
      WeightRepeat(l, n - 1);
    }
  }

  /** Folding this run does not cost bytes: the repeats weigh at least their marker, six bytes and a numeral. */
  predicate Worthwhile(l: Bytes, run: nat) {
    run <= 2 || 6 + |Digits(run - 1)| <= Weight(Repeat(l, run - 1))
  }

  lemma FoldedWeight(l: Bytes, run: nat)
    requires run > 0
    ensures Weight(Folded(l, run)) <= Weight(Repeat(l, run)) <==> Worthwhile(l, run)
    ensures run > 2 ==> Weight(Folded(l, run)) == |l| + 7 + |Digits(run - 1)|
    ensures Weight(Repeat(l, run)) == |l| + 1 + Weight(Repeat(l, run - 1))
  {
    assert Repeat(l, run)[1..] == Repeat(l, run - 1);
    if run > 2 {
      var m := Marker(run - 1);
      assert Weight([l, m]) == |l| + 1 + Weight([m]) && [l, m][1..] == [m] && [m][1..] == [];
    }
  }

  /** A run of one line on its own shrinks or keeps its size exactly when it is worthwhile. */
  lemma SingleRunSize(l: Bytes, run: nat)
    requires run > 0 && LF !in l
    ensures |Dedup(Join(Repeat(l, run)))| <= |Join(Repeat(l, run))| <==> Worthwhile(l, run)
  {
    var ls := Repeat(l, run);
    SplitJoin(ls);
    FoldRun(l, run, []);
    assert ls + [] == ls && Folded(l, run) + [] == Folded(l, run);
    JoinLength(ls);
    JoinLength(Folded(l, run));
    FoldedWeight(l, run);
  }

  /** Every run in the text is worthwhile to fold. */
  predicate AllWorthwhile(ls: seq<Bytes>)
    decreases |ls|
  {
    ls == [] || (Worthwhile(ls[0], RunLength(ls)) && AllWorthwhile(ls[RunLength(ls)..]))
  }

  /** What folding saves, run by run: the repeats of each folded run less its marker. */
  function Saved(ls: seq<Bytes>): int
    decreases |ls|
  {
    if ls == [] then 0
    else
      var n := RunLength(ls);
      (if n > 2 then (n - 1) * (|ls[0]| + 1) - 6 - |Digits(n - 1)| else 0) + Saved(ls[n..])
  }

  lemma {:induction false} FoldWeight(ls: seq<Bytes>)
    ensures Weight(ls) - Weight(Fold(ls)) == Saved(ls)
    ensures AllWorthwhile(ls) ==> Saved(ls) >= 0
    decreases |ls|
  {
    if ls != [] {
      var n := RunLength(ls);
      FoldWeight(ls[n..]);
      FirstRun(ls);
      FoldedWeight(ls[0], n);
      WeightRepeat(ls[0], n - 1);
      WeightAppend(Folded(ls[0], n), Fold(ls[n..]));
      WeightAppend(Repeat(ls[0], n), ls[n..]);
    }
  }

  /** The exact change in size, and so exactly when the text does not grow. */
  lemma SizeChange(s: Bytes)
    ensures |s| - |Dedup(s)| == Saved(Split(s))
  {
    FoldWeight(Split(s));
    FoldLineFree(Split(s));
    JoinLength(Split(s));
    JoinLength(Fold(Split(s)));
    JoinSplit(s);
  }

  lemma NeverLengthens(s: Bytes)
    ensures |Dedup(s)| <= |s| <==> Saved(Split(s)) >= 0
    ensures AllWorthwhile(Split(s)) ==> |Dedup(s)| <= |s|
  {
    SizeChange(s);
    FoldWeight(Split(s));
  }

  lemma {:induction false} HeavyRepeat(l: Bytes, n: nat)
    requires |l| >= 3
    ensures Weight(Repeat(l, n)) >= 4 * n
  {
    if n > 0 {
      assert Repeat(l, n)[1..] == Repeat(l, n - 1);
      HeavyRepeat(l, n - 1);
    }
  }

  lemma ThreeBytesSuffice(l: Bytes, run: nat)
    requires |l| >= 3
    ensures Worthwhile(l, run)
  {
    if run > 2 {
      DigitsShort(run - 1);
      HeavyRepeat(l, run - 1);
    }
  }

  /** Three equal lines in a row at position i. */
  predicate TripleAt(ls: seq<Bytes>, i: nat) {
    i + 2 < |ls| && ls[i] == ls[i + 1] == ls[i + 2]
  }

  lemma {:induction false} LongTriplesWorthwhile(ls: seq<Bytes>)
    requires forall i :: 0 <= i < |ls| && TripleAt(ls, i) ==> |ls[i]| >= 3
    ensures AllWorthwhile(ls)
    decreases |ls|
  {
    if ls != [] {
      var n := RunLength(ls);
      if n > 2 {
        assert ls[0] == ls[..n][0] && ls[1] == ls[..n][1] && ls[2] == ls[..n][2];
        assert TripleAt(ls, 0);
        ThreeBytesSuffice(ls[0], n);
      }
      var rest := ls[n..];
      forall i | 0 <= i < |rest| && TripleAt(rest, i)
        ensures |rest[i]| >= 3
      {
        assert TripleAt(ls, n + i);
      }
      LongTriplesWorthwhile(rest);
    }
  }

  // ----- well-formedness ----------------------------------------------------------------------

  predicate AllValid(ls: seq<Bytes>) {
    forall l :: l in ls ==> Utf8.Valid(l)
  }

  lemma {:induction false} SplitValid(s: Bytes)
    requires Utf8.Valid(s)
    ensures AllValid(Terminated(s)) && Utf8.Valid(Tail(s))
    decreases |s|
  {
    if LF in s {
      var k := IndexOf(s, LF);
      FirstLine(s);
      NewlineSplits(s, k);
      SplitFirst(s[..k], s[k + 1..]);
      SplitValid(s[k + 1..]);
    }
  }

  lemma {:induction false} JoinValid(ls: seq<Bytes>)
    requires AllValid(ls)
    ensures Utf8.Valid(Join(ls))
  {
    if |ls| == 1 {
      assert ls[0] in ls;
    } else if |ls| > 1 {
      assert ls[0] in ls && CharLen([LF]) == 1 && [LF][1..] == [];
      JoinValid(ls[1..]);
      ValidAppend(ls[0], [LF]);
      ValidAppend(ls[0] + [LF], Join(ls[1..]));
    }
  }

  lemma MarkerValid(n: nat)
    ensures Utf8.Valid(Marker(n))
  {
    assert CharLen(MARK) == 3 && MARK[3..] == [0xC3, 0x97];
    assert CharLen([0xC3, 0x97]) == 2 && [0xC3, 0x97][2..] == [];
    AsciiValid(Digits(n));
    ValidAppend(MARK, Ascii(Digits(n)));
  }

  lemma {:induction false} FoldValid(ls: seq<Bytes>)
    requires AllValid(ls)
    ensures AllValid(Fold(ls))
    decreases |ls|
  {
    if ls != [] {
      var n := RunLength(ls);
      assert ls[0] in ls && forall l :: l in ls[n..] ==> l in ls;
      FoldValid(ls[n..]);
      MarkerValid(n - 1);
    }
  }

  lemma DedupValid(s: Bytes)
    requires Utf8.Valid(s)
    ensures Utf8.Valid(Dedup(s))
  {
    SplitValid(s);
    FoldValid(Split(s));
    JoinValid(Fold(Split(s)));
  }

  // ----- the loops ----------------------------------------------------------------------------

  lemma {:induction false} JoinAppend(a: seq<Bytes>, b: seq<Bytes>)
    requires a != [] && b != []
    ensures Join(a + b) == Join(a) + [LF] + Join(b)
  {
    if |a| == 1 {
      assert (a + b)[1..] == b;
    } else {
      assert (a + b)[1..] == a[1..] + b;
      JoinAppend(a[1..], b);
    }
  }

  /** The text of one folded run. */
  function Piece(l: Bytes, run: nat): Bytes {
    if run > 2 then l + ([LF] + Marker(run - 1)) else if run == 2 then l + ([LF] + l) else l
  }

  lemma PieceIsFolded(l: Bytes, run: nat)
    requires run > 0
    ensures Join(Folded(l, run)) == Piece(l, run)
  {
    if run > 2 {
      assert [l, Marker(run - 1)][1..] == [Marker(run - 1)];
    } else if run == 2 {
      assert Repeat(l, 2) == [l, l] && [l, l][1..] == [l];
    }
  }

  lemma FoldStep(ls: seq<Bytes>, i: nat, run: nat)
    requires i < |ls| && run == RunLength(ls[i..])
    ensures Join(Fold(ls[i..])) ==
              Piece(ls[i], run) + (if i + run < |ls| then [LF] + Join(Fold(ls[i + run..])) else [])
  {
    var rest := ls[i..][run..];
    assert rest == ls[i + run..];
    PieceIsFolded(ls[i], run);
    if rest == [] {
      assert Folded(ls[i], run) + [] == Folded(ls[i], run);
    } else {
      FoldHead(rest);
      JoinAppend(Folded(ls[i], run), Fold(rest));
    }
  }

  /** Writing out one run: the line, then a marker or the remaining copy. */
  method EmitRun(out: Bytes, cur: Bytes, run: nat) returns (r: Bytes)
    requires run > 0
    ensures r == out + Piece(cur, run)
  {
    r := out + cur;
    if run > 2 {
      r := r + ([LF] + Marker(run - 1));
    } else {
      for k := 1 to run
        invariant r == out + (if k == 1 then cur else cur + ([LF] + cur))
      {
        r := r + ([LF] + cur);
      }
    }
  }

  method CountRun(lines: seq<Bytes>, i: nat) returns (run: nat)
    requires i < |lines|
    ensures run == RunLength(lines[i..])
  {
    run := 1;
    while i + run < |lines| && lines[i + run] == lines[i]
      invariant 1 <= run <= |lines| - i
      invariant forall k :: i <= k < i + run ==> lines[k] == lines[i]
    {
      run := run + 1;
    }
    RunLengthIs(lines[i..], run);
  }

  /** What is still to be written from line i on. */
  function Todo(lines: seq<Bytes>, i: nat): Bytes
    requires i <= |lines|
  {
    Join(Fold(lines[i..]))
  }

  lemma Written(lines: seq<Bytes>, i: nat, run: nat, out: Bytes)
    requires i < |lines| && run == RunLength(lines[i..])
    ensures i + run < |lines| ==> out + Todo(lines, i) == ((out + Piece(lines[i], run)) + [LF]) + Todo(lines, i + run)
    ensures i + run == |lines| ==> out + Todo(lines, i) == (out + Piece(lines[i], run)) + Todo(lines, i + run)
  {
    FoldStep(lines, i, run);
    if i + run < |lines| {
      Regroup(out, Piece(lines[i], run), Todo(lines, i + run));
    } else {
      assert lines[i + run..] == [];
    }
  }

  lemma Regroup(a: Bytes, b: Bytes, c: Bytes)
    ensures a + (b + ([LF] + c)) == ((a + b) + [LF]) + c
  {
  }

  lemma NothingTodo(lines: seq<Bytes>, i: nat, out: Bytes)
    requires i == |lines|
    ensures out + Todo(lines, i) == out
  {
    assert lines[i..] == [];
  }

  /** `dedup_lines`. */
  method DedupLines(input: Bytes) returns (out: Bytes)
    ensures out == Dedup(input)
    ensures Expand(out) == input <==> Readable(Split(input))
  {
    var lines := Split(input);
    out := [];
    var i := 0;
    assert lines[0..] == lines;
    while i < |lines|
      invariant i <= |lines|
      invariant Dedup(input) == out + Todo(lines, i)
    {
      var run := CountRun(lines, i);
      Written(lines, i, run, out);
      out := EmitRun(out, lines[i], run);
      if i + run < |lines| {
        out := out + [LF];
      }
      i := i + run;
    }
    NothingTodo(lines, i, out);
    Lossless(input);
  }

  /** `compress`. */
  method Compress(input: Bytes, cap: nat) returns (text: Bytes, textLen: nat, saved: nat)
    ensures textLen == |text|
    ensures saved == if |text| < |input| then |input| - |text| else 0
    ensures exists cut: nat :: CutTo(Dedup(input), cap, cut, text)
    ensures Utf8.Valid(input) ==> Utf8.Valid(text)
  {
    var deduped := DedupLines(input);
    ghost var cut;
    text, cut := SmartTruncate(deduped, cap);
    textLen := |text|;
    saved := if |input| >= textLen then |input| - textLen else 0;
    if Utf8.Valid(input) {
      DedupValid(input);
    }
  }
}
