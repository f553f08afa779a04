/** The capped newline framing of the ACP read loops. */
module Framing {
  import opened Prelude
  import opened Lines

  const SINK_BYTES: nat := 8192

  /** How many bytes a read of at most `limit` bytes takes, stopping after a newline. */
  function ReadUntil(s: Bytes, limit: nat): (n: nat)
    ensures n <= |s| && n <= limit
    ensures s != [] && limit > 0 ==> n > 0
    ensures n > 0 ==> (s[n - 1] == LF <==> LF in s && n == IndexOf(s, LF) + 1)
    ensures n > 0 && s[n - 1] != LF ==> n == |s| || n == limit
  {
    var k := IndexOf(s, LF);
    var line := if k < |s| then k + 1 else |s|;
    if line <= limit then line else assert limit > 0 ==> s[limit - 1] == s[..k][limit - 1]; limit
  }

  /** All trailing newlines and carriage returns dropped. */
  function TrimLineEnd(s: Bytes): Bytes {
    if s != [] && (s[|s| - 1] == LF || s[|s| - 1] == CR) then TrimLineEnd(s[..|s| - 1]) else s
  }

  /** Only line-end bytes are dropped, and all of them. */
  lemma {:induction false} TrimEndExact(s: Bytes)
    ensures TrimLineEnd(s) <= s
    ensures forall i :: |TrimLineEnd(s)| <= i < |s| ==> s[i] == LF || s[i] == CR
    ensures TrimLineEnd(s) != [] ==> var last := TrimLineEnd(s)[|TrimLineEnd(s)| - 1]; last != LF && last != CR
  {
    if s != [] && (s[|s| - 1] == LF || s[|s| - 1] == CR) {
      TrimEndExact(s[..|s| - 1]);
    }
  }

  /** One trailing carriage return dropped. */
  function StripCr(s: Bytes): Bytes {
    if s != [] && s[|s| - 1] == CR then s[..|s| - 1] else s
  }

  /** One carriage return goes, and only one at the end. */
  lemma StripCrExact(l: Bytes)
    ensures StripCr(l + [13]) == l
    ensures (l == [] || l[|l| - 1] != 13) ==> StripCr(l) == l
  {
    assert (l + [CR])[..|l|] == l;
  }

  // ----- client -------------------------------------------------------------------------------

  /** Lines up to the first that does not fit, with its newline, into `cap` bytes; if all fit, also an unterminated end. */
  function Deliverable(ls: seq<Bytes>, tail: Bytes, cap: nat): seq<Bytes> {
    if ls == [] then (if 0 < |tail| < cap then [tail] else [])
    else if |ls[0]| >= cap then []
    else [ls[0]] + Deliverable(ls[1..], tail, cap)
  }

  /** What a client hands to the decoder. */
  function ClientFrames(s: Bytes, cap: nat): seq<Bytes> {
    Deliverable(Terminated(s), Tail(s), cap)
  }

  /** The number of leading lines that fit. */
  function Fitting(ls: seq<Bytes>, cap: nat): (n: nat)
    ensures n <= |ls|
    ensures forall i :: 0 <= i < n ==> |ls[i]| < cap
    ensures n < |ls| ==> |ls[n]| >= cap
  {
    if ls == [] || |ls[0]| >= cap then 0 else 1 + Fitting(ls[1..], cap)
  }

  /** The client delivers exactly the lines before the first oversized one. */
  lemma {:induction false} DeliverableIsPrefix(ls: seq<Bytes>, tail: Bytes, cap: nat)
    ensures var n := Fitting(ls, cap);
      Deliverable(ls, tail, cap) == ls[..n] + (if n == |ls| && 0 < |tail| < cap then [tail] else [])
  {
    if ls != [] && |ls[0]| < cap {
      DeliverableIsPrefix(ls[1..], tail, cap);
      var n := Fitting(ls[1..], cap);
      assert ls[..n + 1] == [ls[0]] + ls[1..][..n];
    }
  }

  /** On a stream of fitting, terminated lines the client delivers exactly those lines. */
  lemma ClientExact(ls: seq<Bytes>, cap: nat)
    requires LineFree(ls) && forall l :: l in ls ==> |l| < cap
    ensures ClientFrames(Wire(ls), cap) == ls
  {
    SplitWire(ls, []);
    assert Wire(ls) + [] == Wire(ls);
    DeliverableIsPrefix(ls, [], cap);
  }

  lemma ClientFramesLine(l: Bytes, rest: Bytes, cap: nat)
    requires LF !in l
    ensures ClientFrames(l + [LF] + rest, cap) == if |l| < cap then [l] + ClientFrames(rest, cap) else []
  {
    SplitFirst(l, rest);
    assert ([l] + Terminated(rest))[1..] == Terminated(rest);
  }

  /** An oversized line ends the client's stream after exactly the lines before it. */
  lemma {:induction false} ClientStopsAtOversize(before: seq<Bytes>, big: Bytes, rest: Bytes, cap: nat)
    requires LineFree(before) && (forall l :: l in before ==> |l| < cap)
    requires LF !in big && |big| >= cap
    ensures ClientFrames(Wire(before) + (big + [LF] + rest), cap) == before
  {
    var over := big + [LF] + rest;
    if before == [] {
      assert Wire(before) + over == over;
      ClientFramesLine(big, rest, cap);
    } else {
      assert Wire(before) + over == before[0] + [LF] + (Wire(before[1..]) + over);
      ClientFramesLine(before[0], Wire(before[1..]) + over, cap);
      ClientStopsAtOversize(before[1..], big, rest, cap);
    }
  }

  lemma TrimEndOfLine(l: Bytes)
    ensures TrimLineEnd(l + [LF]) == TrimLineEnd(l)
  {
    assert (l + [LF])[..|l|] == l;
  }

  /** One turn of the client's loop, as seen by the frames still to come. */
  lemma ClientTurn(rest: Bytes, cap: nat)
    requires rest != [] && cap > 0
    ensures var n := ReadUntil(rest, cap);
      Map(TrimLineEnd, ClientFrames(rest, cap)) ==
        if rest[n - 1] != LF && n >= cap then []
        else [TrimLineEnd(rest[..n])] + Map(TrimLineEnd, ClientFrames(rest[n..], cap))
  {
    var n := ReadUntil(rest, cap);
    if LF in rest {
      FirstLine(rest);
      var k := IndexOf(rest, LF);
      var l := rest[..k];
      ClientFramesLine(l, rest[k + 1..], cap);
      if rest[n - 1] == LF {
        TrimEndOfLine(l);
        assert rest[..n] == l + [LF];
        MapCons(TrimLineEnd, l, ClientFrames(rest[n..], cap));
      }
    } else {
      SplitNone(rest);
      if n < cap {
        SplitNone(rest[n..]);
        assert rest[..n] == rest;
      }
    }
  }

  /** The lines the client's loop still has to deliver from `rest`. */
  function ClientLines(rest: Bytes, cap: nat): seq<Bytes>
    requires cap > 0
  {
    if rest == [] then []
    else
      var n := ReadUntil(rest, cap);
      if n >= cap && rest[n - 1] != LF then [] else [TrimLineEnd(rest[..n])] + ClientLines(rest[n..], cap)
  }

  lemma {:induction false} ClientLinesExact(rest: Bytes, cap: nat)
    requires cap > 0
    ensures ClientLines(rest, cap) == Map(TrimLineEnd, ClientFrames(rest, cap))
    decreases |rest|
  {
    if rest == [] {
      SplitNone(rest);
    } else {
      ClientTurn(rest, cap);
      ClientLinesExact(rest[ReadUntil(rest, cap)..], cap);
    }
  }

  lemma ClientLinesTurn(rest: Bytes, cap: nat, lines: seq<Bytes>)
    requires cap > 0 && rest != []
    requires var n := ReadUntil(rest, cap); n < cap || rest[n - 1] == LF
    ensures var n := ReadUntil(rest, cap);
      lines + ClientLines(rest, cap) == (lines + [TrimLineEnd(rest[..n])]) + ClientLines(rest[n..], cap)
  {
    var n := ReadUntil(rest, cap);
    Reassociate(lines, TrimLineEnd(rest[..n]), ClientLines(rest[n..], cap));
  }

  lemma ClientLinesStop(rest: Bytes, cap: nat, lines: seq<Bytes>)
    requires cap > 0
    requires rest != [] ==> var n := ReadUntil(rest, cap); n >= cap && rest[n - 1] != LF
    ensures lines + ClientLines(rest, cap) == lines
  {
    assert ClientLines(rest, cap) == [];
  }

  /** The client's read loop. */
  method ClientLoop(input: Bytes, cap: nat) returns (lines: seq<Bytes>)
    requires cap > 0
    ensures lines == ClientLines(input, cap)
  {
    lines := [];
    var rest := input;
    while true
      invariant ClientLines(input, cap) == lines + ClientLines(rest, cap)
      decreases |rest|
    {
      var n := ReadUntil(rest, cap);
      var buf := rest[..n];
      if |buf| == 0 {
        ClientLinesStop(rest, cap, lines);
        break;
      }
      if |buf| >= cap && buf[|buf| - 1] != LF {
        ClientLinesStop(rest, cap, lines);
        break;
      }
      ClientLinesTurn(rest, cap, lines);
      lines := lines + [TrimLineEnd(buf)];
      rest := rest[n..];
    }
  }

  /** It delivers the trimmed frames of the reference split. */
  method ClientRead(input: Bytes, cap: nat) returns (lines: seq<Bytes>)
    requires cap > 0
    ensures lines == Map(TrimLineEnd, ClientFrames(input, cap))
  {
    lines := ClientLoop(input, cap);
    ClientLinesExact(input, cap);
  }

  // ----- server -------------------------------------------------------------------------------

  /** How many bytes the next read into the sink returns, when the transport offers `offer` at this point. */
  function SinkRead(remaining: nat, offer: nat): (k: nat)
    ensures k <= remaining && k <= SINK_BYTES
    ensures remaining > 0 ==> k > 0
  {
    var most := if remaining < SINK_BYTES then remaining else SINK_BYTES;
    if most == 0 then 0 else if offer == 0 then 1 else if offer < most then offer else most
  }

  /** What is left after draining: whole reads are dropped until one held a newline. `offer` maps bytes left to read size. */
  function Drained(rest: Bytes, offer: nat -> nat): (left: Bytes)
    ensures |left| <= |rest| && left == rest[|rest| - |left|..]
    ensures rest != [] ==> |left| < |rest|
  {
    var k := SinkRead(|rest|, offer(|rest|));
    if k == 0 || LF in rest[..k] then rest[k..] else Drained(rest[k..], offer)
  }

  /** The frames the server's loop takes from `rest`. */
  function ServerFrames(rest: Bytes, cap: nat, offer: nat -> nat): seq<Bytes>
    decreases |rest|
  {
    if rest == [] then []
    else
      var n := ReadUntil(rest, cap + 1);
      if rest[n - 1] != LF then ServerFrames(Drained(rest[n..], offer), cap, offer)
      else [rest[..n - 1]] + ServerFrames(rest[n..], cap, offer)
  }

  /** The terminated lines of at most `cap` bytes. */
  function Survivors(ls: seq<Bytes>, cap: nat): seq<Bytes> {
    if ls == [] then []
    else if |ls[0]| <= cap then [ls[0]] + Survivors(ls[1..], cap)
    else Survivors(ls[1..], cap)
  }

  /** Every drain that an oversized line causes stops right after that line's newline. */
  ghost predicate DrainsExactly(rest: Bytes, cap: nat, offer: nat -> nat)
    decreases |rest|
  {
    LF in rest ==>
      var k := IndexOf(rest, LF);
      && (k > cap ==> Drained(rest[cap + 1..], offer) == rest[k + 1..])
      && DrainsExactly(rest[k + 1..], cap, offer)
  }

  /** The lines the server's loop still has to deliver from `rest`. */
  function ServerLines(rest: Bytes, cap: nat, offer: nat -> nat): seq<Bytes> {
    Map(StripCr, ServerFrames(rest, cap, offer))
  }

  lemma ServerTurn(rest: Bytes, cap: nat, offer: nat -> nat, lines: seq<Bytes>)
    requires rest != []
    ensures var n := ReadUntil(rest, cap + 1);
      lines + ServerLines(rest, cap, offer) ==
        if rest[n - 1] != LF then lines + ServerLines(Drained(rest[n..], offer), cap, offer)
        else (lines + [StripCr(rest[..n][..n - 1])]) + ServerLines(rest[n..], cap, offer)
  {
    var n := ReadUntil(rest, cap + 1);
    assert rest[..n][..n - 1] == rest[..n - 1];
    if rest[n - 1] == LF {
      MapCons(StripCr, rest[..n - 1], ServerFrames(rest[n..], cap, offer));
      Reassociate(lines, StripCr(rest[..n - 1]), ServerLines(rest[n..], cap, offer));
    }
  }

  lemma ServerStop(cap: nat, offer: nat -> nat, lines: seq<Bytes>)
    ensures lines + ServerLines([], cap, offer) == lines
  {
  }

  /** The server's read loop; `offer` stands for how the transport chunks what is being drained. */
  method ServerLoop(input: Bytes, cap: nat, offer: nat -> nat) returns (lines: seq<Bytes>)
    ensures lines == ServerLines(input, cap, offer)
  {
    lines := [];
    var rest := input;
    while true
      invariant ServerLines(input, cap, offer) == lines + ServerLines(rest, cap, offer)
      decreases |rest|
    {
      var n := ReadUntil(rest, cap + 1);
      if n == 0 {
        ServerStop(cap, offer, lines);
        break;
      }
      ServerTurn(rest, cap, offer, lines);
      var buf := rest[..n];
      rest := rest[n..];
      if buf[n - 1] != LF {
        rest := DrainLine(rest, offer);
        continue;
      }
      buf := buf[..n - 1];
      lines := lines + [StripCr(buf)];
    }
  }

  /** With drains that stop at the newline, exactly the fitting lines come through. */
  method ServerRead(input: Bytes, cap: nat, offer: nat -> nat) returns (lines: seq<Bytes>)
    ensures lines == ServerLines(input, cap, offer)
    ensures DrainsExactly(input, cap, offer) ==> lines == Map(StripCr, Survivors(Terminated(input), cap))
  {
    lines := ServerLoop(input, cap, offer);
    if DrainsExactly(input, cap, offer) {
      ServerRecovers(input, cap, offer);
    }
  }

  method DrainLine(from: Bytes, offer: nat -> nat) returns (rest: Bytes)
    ensures rest == Drained(from, offer)
  {
    rest := from;
    while true
      invariant Drained(rest, offer) == Drained(from, offer)
      decreases |rest|
    {
      var k := SinkRead(|rest|, offer(|rest|));
      var sink := rest[..k];
      rest := rest[k..];
      if k == 0 || LF in sink {
        break;
      }
    }
  }

  lemma {:induction false} DrainUnterminated(rest: Bytes, offer: nat -> nat)
    requires LF !in rest
    ensures Drained(rest, offer) == []
    decreases |rest|
  {
    var k := SinkRead(|rest|, offer(|rest|));
    if k != 0 {
      assert LF !in rest[..k];
      DrainUnterminated(rest[k..], offer);
    }
  }

  /** With exact drains the server loses oversized lines and an unterminated end, and nothing else. */
  lemma {:induction false} ServerRecovers(rest: Bytes, cap: nat, offer: nat -> nat)
    requires DrainsExactly(rest, cap, offer)
    ensures ServerFrames(rest, cap, offer) == Survivors(Terminated(rest), cap)
    decreases |rest|
  {
    if LF in rest {
      var k := IndexOf(rest, LF);
      FirstLine(rest);
      var l, more := rest[..k], rest[k + 1..];
      SplitFirst(l, more);
      assert ([l] + Terminated(more))[1..] == Terminated(more);
      ServerRecovers(more, cap, offer);
      ServerFirst(rest, cap, offer);
    } else if rest != [] {
      SplitNone(rest);
      var n := ReadUntil(rest, cap + 1);
      assert rest[n - 1] in rest;
      DrainUnterminated(rest[n..], offer);
    }
  }

  /** The server's first turn on a stream whose first line has k bytes. */
  lemma ServerFirst(rest: Bytes, cap: nat, offer: nat -> nat)
    requires LF in rest
    ensures var k := IndexOf(rest, LF);
      ServerFrames(rest, cap, offer) ==
        if k <= cap then [rest[..k]] + ServerFrames(rest[k + 1..], cap, offer)
        else ServerFrames(Drained(rest[cap + 1..], offer), cap, offer)
  {
    var k, n := IndexOf(rest, LF), ReadUntil(rest, cap + 1);
    if k <= cap {
      assert n == k + 1 && rest[n - 1] == LF;
      assert rest[..n - 1] == rest[..k];
    } else {
      assert n == cap + 1 && rest[n - 1] != LF;
    }
  }

  // ----- when a drain overshoots --------------------------------------------------------------

  ghost predicate FittingLines(ls: seq<Bytes>, cap: nat) {
    LineFree(ls) && forall l :: l in ls ==> |l| <= cap
  }

  lemma FittingRest(ls: seq<Bytes>, cap: nat)
    requires ls != [] && FittingLines(ls, cap)
    ensures LF !in ls[0] && |ls[0]| <= cap && FittingLines(ls[1..], cap)
  {
    assert ls[0] in ls && forall l :: l in ls[1..] ==> l in ls;
  }

  /** Fitting, terminated lines are taken whole, so the frames taken account for every byte read. */
  lemma ServerTakesAll(ls: seq<Bytes>, cap: nat, offer: nat -> nat)
    requires FittingLines(ls, cap)
    ensures ServerFrames(Wire(ls), cap, offer) == ls
  {
    ServerTakesFirst(ls, [], cap, offer);
    assert Wire(ls) + [] == Wire(ls) && ls + [] == ls;
  }

  lemma ServerLine(l: Bytes, rest: Bytes, cap: nat, offer: nat -> nat)
    requires LF !in l
    ensures ServerFrames(l + [LF] + rest, cap, offer) ==
              if |l| <= cap then [l] + ServerFrames(rest, cap, offer)
              else ServerFrames(Drained((l + [LF] + rest)[cap + 1..], offer), cap, offer)
  {
    var s := l + [LF] + rest;
    IndexOfAppend(l, rest, LF);
    assert s[|l|] == LF;
    ServerFirst(s, cap, offer);
    assert s[..|l|] == l && s[|l| + 1..] == rest;
  }

  /** Dropping bytes from the front of fitting, terminated lines shortens the first, or loses whole lines. */
  lemma {:induction false} SuffixFits(ls: seq<Bytes>, d: nat, cap: nat) returns (ls': seq<Bytes>)
    requires FittingLines(ls, cap) && d <= |Wire(ls)|
    ensures FittingLines(ls', cap) && Wire(ls') == Wire(ls)[d..]
    ensures ls == [] ==> ls' == []
    ensures ls != [] && d <= |ls[0]| ==> ls' == [ls[0][d..]] + ls[1..]
    ensures ls != [] && d > |ls[0]| ==> |ls'| < |ls|
  {
    if ls == [] {
      ls' := [];
    } else if d <= |ls[0]| {
      FittingRest(ls, cap);
      ls' := [ls[0][d..]] + ls[1..];
      WireCons(ls[0][d..], ls[1..]);
    } else {
      FittingRest(ls, cap);
      ls' := SuffixFits(ls[1..], d - |ls[0]| - 1, cap);
      assert Wire(ls)[d..] == Wire(ls[1..])[d - |ls[0]| - 1..];
    }
  }

  /** The bytes taken by the first t reads into the sink, when `size` bytes are to come. */
  function ReadTotal(size: nat, offer: nat -> nat, t: nat): (n: nat)
    ensures n <= size
    decreases t
  {
    if t == 0 then 0
    else
      var k := SinkRead(size, offer(size));
      k + ReadTotal(size - k, offer, t - 1)
  }

  /** One of the reads ends after exactly n bytes. */
  ghost predicate ReadsEndAt(size: nat, offer: nat -> nat, n: nat) {
    exists t: nat :: ReadTotal(size, offer, t) == n
  }

  /** The same, read by read. */
  predicate Lands(size: nat, offer: nat -> nat, n: nat)
    decreases n
  {
    n == 0 ||
    var k := SinkRead(size, offer(size));
    0 < k <= n && Lands(size - k, offer, n - k)
  }

  lemma {:induction false} LandsOn(size: nat, offer: nat -> nat, t: nat)
    ensures Lands(size, offer, ReadTotal(size, offer, t))
    decreases t
  {
    if t > 0 {
      LandsOn(size - SinkRead(size, offer(size)), offer, t - 1);
    }
  }

  lemma {:induction false} LandsAfter(size: nat, offer: nat -> nat, n: nat) returns (t: nat)
    requires Lands(size, offer, n)
    ensures ReadTotal(size, offer, t) == n
    decreases n
  {
    t := 0;
    if n > 0 {
      var k := SinkRead(size, offer(size));
      t := LandsAfter(size - k, offer, n - k);
      t := t + 1;
    }
  }

  lemma LandsIff(size: nat, offer: nat -> nat, n: nat)
    ensures Lands(size, offer, n) <==> ReadsEndAt(size, offer, n)
  {
    if Lands(size, offer, n) {
      var t := LandsAfter(size, offer, n);
    }
    if t: nat :| ReadTotal(size, offer, t) == n {
      LandsOn(size, offer, t);
    }
  }

  /** The first line, with its newline, takes n bytes. */
  predicate LineEndsAt(rest: Bytes, n: nat) {
    0 < n <= |rest| && rest[n - 1] == LF && forall i :: 0 <= i < n - 1 ==> rest[i] != LF
  }

  lemma NewlineRead(rest: Bytes, n: nat, k: nat)
    requires LineEndsAt(rest, n) && k <= |rest|
    ensures LF in rest[..k] <==> n <= k
    ensures k < n ==> LineEndsAt(rest[k..], n - k)
  {
    if n <= k {
      assert rest[..k][n - 1] == LF;
    }
  }

  /** One read of a drain. */
  lemma NextDrain(rest: Bytes, size: nat, n: nat, offer: nat -> nat)
    requires LineEndsAt(rest, n) && |rest| == size
    ensures var k := SinkRead(size, offer(size));
      Drained(rest, offer) == if k < n then Drained(rest[k..], offer) else rest[k..]
  {
    NewlineRead(rest, n, SinkRead(|rest|, offer(|rest|)));
  }

  lemma LandsNext(size: nat, offer: nat -> nat, n: nat, k: nat)
    requires n > 0 && k == SinkRead(size, offer(size)) > 0
    ensures Lands(size, offer, n) <==> k <= n && Lands(size - k, offer, n - k)
  {
  }

  /** m is the first end of a read at or behind n. */
  ghost predicate StopsAt(size: nat, offer: nat -> nat, n: nat, m: nat) {
    n <= m <= size && Lands(size, offer, m) && forall p :: n <= p < m ==> !Lands(size, offer, p)
  }

  lemma StopsLater(size: nat, offer: nat -> nat, n: nat, k: nat, m: nat)
    requires k == SinkRead(size, offer(size)) && 0 < k < n && k + m <= size && StopsAt(size - k, offer, n - k, m)
    ensures StopsAt(size, offer, n, k + m)
  {
    LandsNext(size, offer, k + m, k);
    forall p | n <= p < k + m
      ensures !Lands(size, offer, p)
    {
      LandsNext(size, offer, p, k);
      var q := p - k;
      assert n - k <= q < m;
    }
  }

  lemma StopsNow(size: nat, offer: nat -> nat, n: nat, k: nat)
    requires k == SinkRead(size, offer(size)) && 0 < n <= k
    ensures StopsAt(size, offer, n, k)
  {
    LandsNext(size, offer, k, k);
    forall p | n <= p < k
      ensures !Lands(size, offer, p)
    {
      LandsNext(size, offer, p, k);
    }
  }

  /** Draining stops where the first read ends that reaches the end of the first line. */
  lemma {:induction false} DrainStops(rest: Bytes, size: nat, n: nat, offer: nat -> nat, left: Bytes) returns (m: nat)
    requires LineEndsAt(rest, n) && |rest| == size && left == Drained(rest, offer)
    ensures StopsAt(size, offer, n, m) && left == rest[m..]
    decreases size
  {
    var k := SinkRead(size, offer(size));
    NextDrain(rest, size, n, offer);
    if k < n {
      NewlineRead(rest, n, k);
      var q := DrainStops(rest[k..], size - k, n - k, offer, left);
      m := k + q;
      DropDrop(rest, k, q);
      StopsLater(size, offer, n, k, q);
    } else {
      m := k;
      StopsNow(size, offer, n, k);
    }
  }

  lemma ServerTakesOne(l: Bytes, more: seq<Bytes>, rest: Bytes, frames: seq<Bytes>, cap: nat, offer: nat -> nat)
    requires LF !in l && |l| <= cap && ServerFrames(Wire(more) + rest, cap, offer) == more + frames
    ensures ServerFrames(l + [LF] + (Wire(more) + rest), cap, offer) == ([l] + more) + frames
  {
    ServerLine(l, Wire(more) + rest, cap, offer);
    Associate([l], more, frames);
  }

  /** Fitting lines in front come through whatever follows. */
  lemma {:induction false} ServerTakesFirst(before: seq<Bytes>, rest: Bytes, cap: nat, offer: nat -> nat)
    requires FittingLines(before, cap)
    ensures ServerFrames(Wire(before) + rest, cap, offer) == before + ServerFrames(rest, cap, offer)
  {
    if before == [] {
      assert Wire(before) + rest == rest;
    } else {
      FittingRest(before, cap);
      WireFirst(before, rest);
      ServerTakesFirst(before[1..], rest, cap, offer);
      ServerTakesOne(before[0], before[1..], rest, ServerFrames(rest, cap, offer), cap, offer);
      assert before == [before[0]] + before[1..];
    }
  }

  /** A stream with one oversized line between fitting ones. */
  function OversizeStream(before: seq<Bytes>, big: Bytes, after: seq<Bytes>): Bytes {
    Wire(before) + (big + [LF] + Wire(after))
  }

  /** What is left of an oversized line and what follows, once `cap + 1` bytes have been read. */
  lemma BehindCap(big: Bytes, more: Bytes, cap: nat, n: nat, size: nat) returns (rest: Bytes)
    requires LF !in big && |big| > cap && n == |big| - cap && size == n + |more|
    ensures rest == (big + [LF] + more)[cap + 1..] && |rest| == size
    ensures LineEndsAt(rest, n) && rest[n..] == more
  {
    rest := (big + [LF] + more)[cap + 1..];
    assert forall i :: 0 <= i < n - 1 ==> rest[i] == big[cap + 1 + i];
  }

  lemma OversizeFrames(before: seq<Bytes>, big: Bytes, after: seq<Bytes>, cap: nat, offer: nat -> nat, rest: Bytes)
    requires FittingLines(before, cap) && LF !in big && |big| > cap && rest == (big + [LF] + Wire(after))[cap + 1..]
    ensures ServerFrames(OversizeStream(before, big, after), cap, offer) == before + ServerFrames(Drained(rest, offer), cap, offer)
  {
    ServerTakesFirst(before, big + [LF] + Wire(after), cap, offer);
    ServerLine(big, Wire(after), cap, offer);
  }

  /** How far a drain overshoots the first line: not at all, or by one byte, in terms of where the reads end. */
  lemma Overshoot(rest: Bytes, n: nat, size: nat, offer: nat -> nat) returns (left: Bytes, d: nat)
    requires LineEndsAt(rest, n) && |rest| == size
    ensures left == Drained(rest, offer) && d <= size - n && left == rest[n..][d..]
    ensures d == 0 <==> ReadsEndAt(size, offer, n)
    ensures d == 1 ==> ReadsEndAt(size, offer, n + 1)
    ensures ReadsEndAt(size, offer, n + 1) ==> d <= 1
  {
    left := Drained(rest, offer);
    var m := DrainStops(rest, size, n, offer, left);
    d := m - n;
    DropDrop(rest, n, d);
    LandsIff(size, offer, n);
    LandsIff(size, offer, n + 1);
  }

  /** Dropping a byte from a line changes what is handed on, unless it is the carriage return of an otherwise empty line. */
  lemma StripShorter(l: Bytes, d: nat)
    requires 0 < d <= |l|
    ensures StripCr(l[d..]) == StripCr(l) <==> l == [CR]
  {
    if d < |l| {
      assert l[d..][|l| - d - 1] == l[|l| - 1];
      assert |StripCr(l[d..])| < |StripCr(l)|;
    } else {
      assert l[d..] == [];
      assert |l| == 1 ==> l[..0] == [];
    }
  }

  /** The lines handed on after an overshoot by d bytes are all of them exactly if nothing that shows was lost. */
  lemma SuffixDelivers(ls: seq<Bytes>, d: nat, cap: nat, offer: nat -> nat)
    requires FittingLines(ls, cap) && d <= |Wire(ls)|
    ensures ServerLines(Wire(ls)[d..], cap, offer) == Map(StripCr, ls) <==>
            d == 0 || (d == 1 && ls != [] && ls[0] == [CR])
    ensures ServerFrames(Wire(ls)[d..], cap, offer) == ls <==> d == 0
  {
    var ls' := SuffixFits(ls, d, cap);
    ServerTakesAll(ls', cap, offer);
    if ls == [] {
      assert d == 0;
    } else if 0 < d <= |ls[0]| {
      StripShorter(ls[0], d);
      MapCons(StripCr, ls[0][d..], ls[1..]);
      MapCons(StripCr, ls[0], ls[1..]);
      assert ls == [ls[0]] + ls[1..];
      HeadDecides(StripCr(ls[0][d..]), StripCr(ls[0]), Map(StripCr, ls[1..]));
      HeadDecides(ls[0][d..], ls[0], ls[1..]);
    } else if d == 0 {
      assert ls' == ls;
    }
  }

  lemma HeadDecides(x: Bytes, y: Bytes, more: seq<Bytes>)
    ensures [x] + more == [y] + more <==> x == y
  {
    assert ([x] + more)[0] == x && ([y] + more)[0] == y;
  }

  /**
   * With one oversized line between fitting ones, the server hands on all the others if and only if one of
   * its reads, while draining, ends exactly with the oversized line - or one byte later, when that byte is
   * the carriage return of a line that is empty but for it. When the drain starts, n bytes of the
   * oversized line and its newline are still to come, and `size` bytes in all.
   */
  lemma RecoversIffDrainExact(before: seq<Bytes>, big: Bytes, after: seq<Bytes>, cap: nat, offer: nat -> nat, n: nat, size: nat)
    requires FittingLines(before, cap) && LF !in big && |big| > cap && FittingLines(after, cap)
    requires n == |big| - cap && size == n + |Wire(after)|
    ensures ServerLines(OversizeStream(before, big, after), cap, offer) == Map(StripCr, before + after) <==>
            ReadsEndAt(size, offer, n) || (after != [] && after[0] == [CR] && ReadsEndAt(size, offer, n + 1))
    ensures ServerFrames(OversizeStream(before, big, after), cap, offer) == before + after <==> ReadsEndAt(size, offer, n)
  {
    var rest := BehindCap(big, Wire(after), cap, n, size);
    OversizeFrames(before, big, after, cap, offer, rest);
    var left, d := Overshoot(rest, n, size, offer);
    SuffixDelivers(after, d, cap, offer);
    PrefixCancels(before, ServerFrames(left, cap, offer), after);
    MapAppend(StripCr, before, ServerFrames(left, cap, offer));
    MapAppend(StripCr, before, after);
    PrefixCancels(Map(StripCr, before), ServerLines(left, cap, offer), Map(StripCr, after));
  }

  lemma DrainedAtOnce(rest: Bytes, n: nat, size: nat, offer: nat -> nat)
    requires LineEndsAt(rest, n) && |rest| == size <= SINK_BYTES && offer(size) >= size
    ensures Drained(rest, offer) == []
  {
    NextDrain(rest, size, n, offer);
  }

  /** A read that is offered enough takes 8192 bytes and no more, so up to 8191 bytes behind the newline go with it. */
  lemma DrainTakes8192(rest: Bytes, n: nat, size: nat, offer: nat -> nat)
    requires LineEndsAt(rest, n) && n <= 8192 <= size == |rest| && offer(size) >= 8192
    ensures Drained(rest, offer) == rest[8192..]
  {
    NextDrain(rest, size, n, offer);
  }

  /** The loss is real: when one read takes the rest of the stream, every line behind the oversized one is lost. */
  lemma OneReadLosesAll(before: seq<Bytes>, big: Bytes, after: seq<Bytes>, cap: nat, offer: nat -> nat, n: nat, size: nat)
    requires FittingLines(before, cap) && LF !in big && |big| > cap && n == |big| - cap && size == n + |Wire(after)|
    requires size <= 8192 && offer(size) >= size
    ensures ServerFrames(OversizeStream(before, big, after), cap, offer) == before
  {
    var rest := BehindCap(big, Wire(after), cap, n, size);
    OversizeFrames(before, big, after, cap, offer, rest);
    DrainedAtOnce(rest, n, size, offer);
    assert before + [] == before;
  }
}
