/** The task event stream: the line pump of `sseConnect` and the resume cursor of `streamTask`. */
module EventStream {
  import opened Prelude
  import opened Lines
  import opened ScriptText

  datatype TaskEvent = TaskEvent(ingestId: nat, body: Text)

  /** What `JSON.parse` makes of the data of a line, if anything. */
  type Parser = Text -> Option<TaskEvent>

  /** "data:" */
  const DATA: Text := [100, 97, 116, 97, 58]

  /** The event a received line carries, if any. */
  function Interpret(parse: Parser, raw: Text): Option<TaskEvent> {
    var line := Trim(raw);
    if !(DATA <= line) then None
    else
      var data := Trim(line[5..]);
      if data == [] then None else parse(data)
  }

  /** A data line, with or without a space after the colon, carries exactly what its payload parses to. */
  lemma DataLineCarries(parse: Parser, payload: Text)
    requires Trimmed(payload)
    ensures Interpret(parse, Ascii("data:") + payload) == parse(payload)
    ensures Interpret(parse, Ascii("data:") + ([32] + payload)) == parse(payload)
    ensures Interpret(parse, Ascii("data:") + payload + [13]) == parse(payload)
  {
    TrimBack(Ascii("data:") + payload, 13);
    assert Ascii("data:") == DATA;
    TrimmedStays(payload);
    DataLine(parse, payload, payload);
    DataLine(parse, [32] + payload, payload);
  }

  /** Any other line, a comment, an event name or an id, carries nothing. */
  lemma OtherLinesCarryNothing(parse: Parser, raw: Text)
    requires !(Ascii("data:") <= Trim(raw)) || Trim(Trim(raw)[5..]) == []
    ensures Interpret(parse, raw) == None
  {
    assert Ascii("data:") == DATA;
  }

  lemma DataLine(parse: Parser, tail: Text, payload: Text)
    requires tail != [] && !IsSpace(tail[|tail| - 1]) && Trim(tail) == payload && payload != []
    ensures Interpret(parse, DATA + tail) == parse(payload)
  {
    var line := DATA + tail;
    assert line[0] == 100 && line[|line| - 1] == tail[|tail| - 1];
    TrimmedStays(line);
    assert line[5..] == tail;
  }

  function LineEvents(parse: Parser, raw: Text): seq<TaskEvent> {
    var e := Interpret(parse, raw);
    if e.Some? then [e.value] else []
  }

  function EventsOf(parse: Parser, lines: seq<Text>): seq<TaskEvent> {
    if lines == [] then [] else LineEvents(parse, lines[0]) + EventsOf(parse, lines[1..])
  }

  /** The cursor after some events: the highest id seen. */
  function Advance(cursor: nat, events: seq<TaskEvent>): nat
    decreases |events|
  {
    if events == [] then cursor
    else Advance(if events[0].ingestId > cursor then events[0].ingestId else cursor, events[1..])
  }

  lemma EventsFirst(parse: Parser, line: Text, more: seq<Text>)
    ensures EventsOf(parse, [line] + more) == LineEvents(parse, line) + EventsOf(parse, more)
  {
    assert ([line] + more)[1..] == more;
  }

  lemma {:induction false} EventsAppend(parse: Parser, a: seq<Text>, b: seq<Text>)
    ensures EventsOf(parse, a + b) == EventsOf(parse, a) + EventsOf(parse, b)
  {
    if a == [] {
      assert a + b == b;
    } else {
      assert (a + b)[1..] == a[1..] + b;
      EventsAppend(parse, a[1..], b);
      Associate(LineEvents(parse, a[0]), EventsOf(parse, a[1..]), EventsOf(parse, b));
    }
  }

  lemma {:induction false} AdvanceAppend(cursor: nat, a: seq<TaskEvent>, b: seq<TaskEvent>)
    ensures Advance(cursor, a + b) == Advance(Advance(cursor, a), b)
    decreases |a|
  {
    if a == [] {
      assert a + b == b;
    } else {
      assert (a + b)[1..] == a[1..] + b;
      AdvanceAppend(if a[0].ingestId > cursor then a[0].ingestId else cursor, a[1..], b);
    }
  }

  function Flatten(chunks: seq<Text>): Text {
    if chunks == [] then [] else chunks[0] + Flatten(chunks[1..])
  }

  lemma {:induction false} FlattenSnoc(chunks: seq<Text>, c: Text)
    ensures Flatten(chunks + [c]) == Flatten(chunks) + c
  {
    if chunks == [] {
      assert chunks + [c] == [c];
      assert Flatten([c]) == c + Flatten([]);
    } else {
      assert (chunks + [c])[1..] == chunks[1..] + [c];
      FlattenSnoc(chunks[1..], c);
    }
  }

  /** What a reader that has handled some text holds: the incomplete line, the cursor and the events delivered. */
  datatype Reader = Reader(buf: Text, last: nat, delivered: seq<TaskEvent>)

  /** Reading more text. */
  function Fed(parse: Parser, r: Reader, text: Text): Reader {
    var events := EventsOf(parse, Terminated(r.buf + text));
    Reader(Tail(r.buf + text), Advance(r.last, events), r.delivered + events)
  }

  /** Chunk by chunk or all at once is the same. */
  lemma FedAppend(parse: Parser, r: Reader, a: Text, b: Text)
    ensures Fed(parse, Fed(parse, r, a), b) == Fed(parse, r, a + b)
  {
    var first := Terminated(r.buf + a);
    var second := Terminated(Tail(r.buf + a) + b);
    Associate(r.buf, a, b);
    SplitAppend(r.buf + a, b);
    EventsAppend(parse, first, second);
    Associate(r.delivered, EventsOf(parse, first), EventsOf(parse, second));
    AdvanceAppend(r.last, EventsOf(parse, first), EventsOf(parse, second));
  }

  lemma FedNothing(parse: Parser, r: Reader)
    requires LF !in r.buf
    ensures Fed(parse, r, Flatten([])) == r
  {
    assert r.buf + [] == r.buf;
    SplitNone(r.buf);
    assert r.delivered + [] == r.delivered;
  }

  lemma NextChunk(parse: Parser, r: Reader, chunks: seq<Text>, i: nat)
    requires i < |chunks|
    ensures Fed(parse, Fed(parse, r, Flatten(chunks[..i])), chunks[i]) == Fed(parse, r, Flatten(chunks[..i + 1]))
  {
    assert chunks[..i + 1] == chunks[..i] + [chunks[i]];
    FlattenSnoc(chunks[..i], chunks[i]);
    FedAppend(parse, r, Flatten(chunks[..i]), chunks[i]);
  }

  /** The reads whose chunks are handled when `close` is called during read `shutAt`: none after it. */
  function Seen(chunks: seq<Text>, shutAt: Option<nat>): seq<Text> {
    if shutAt.Some? && shutAt.value < |chunks| then chunks[..shutAt.value + 1] else chunks
  }

  lemma SeenIs(chunks: seq<Text>, shutAt: Option<nat>, i: nat)
    requires i <= |chunks| && (i == |chunks| || (shutAt.Some? && shutAt.value < i)) && (shutAt.Some? ==> i <= shutAt.value + 1)
    ensures chunks[..i] == Seen(chunks, shutAt)
  {
  }

  function Doubled(delay: nat): nat {
    if 2 * delay <= 5000 then 2 * delay else 5000
  }

  /** The stream handle: one object across all of its connections. */
  class TaskStream {
    const parse: Parser
    var closed: bool
    var backoff: nat
    var buf: Text
    var lastIngest: nat
    var delivered: seq<TaskEvent>

    ghost predicate Valid()
      reads this
    {
      LF !in buf && 500 <= backoff <= 5000
    }

    ghost function View(): Reader
      reads this
    {
      Reader(buf, lastIngest, delivered)
    }

    constructor (parse: Parser, after: nat)
      ensures Valid() && !closed && lastIngest == after && delivered == [] && buf == []
      ensures this.parse == parse && backoff == 500
    {
      this.parse, closed, backoff, buf, lastIngest, delivered := parse, false, 500, [], after, [];
    }

    /** A reconnect is scheduled: the delay doubles up to five seconds. */
    method Schedule() returns (delay: nat)
      requires Valid()
      modifies this`backoff
      ensures Valid() && delay == old(backoff) && backoff == Doubled(old(backoff))
    {
      delay := backoff;
      backoff := if backoff * 2 < 5000 then backoff * 2 else 5000;
    }

    /** A connection is accepted: nothing is buffered, and the delay starts over. */
    method Open()
      requires Valid()
      modifies this`backoff, this`buf
      ensures Valid() && backoff == 500 && buf == []
    {
      backoff := 500;
      buf := [];
    }

    /** The line callback: a data line that parses moves the cursor up and is passed on. */
    method OnLine(raw: Text)
      modifies this`lastIngest, this`delivered
      ensures delivered == old(delivered) + LineEvents(parse, raw)
      ensures lastIngest == Advance(old(lastIngest), LineEvents(parse, raw))
    {
      var e := Interpret(parse, raw);
      if e.Some? {
        if e.value.ingestId > lastIngest {
          lastIngest := e.value.ingestId;
        }
        delivered := delivered + [e.value];
      }
    }

    /** One chunk: every line it completes is handled in order, the rest stays buffered. */
    method Receive(chunk: Text)
      requires Valid()
      modifies this`buf, this`lastIngest, this`delivered
      ensures Valid() && View() == Fed(parse, old(View()), chunk)
    {
      buf := buf + chunk;
      ghost var all := EventsOf(parse, Terminated(buf));
      ghost var done: seq<TaskEvent> := [];
      while LF in buf
        invariant Tail(buf) == Tail(old(buf) + chunk)
        invariant all == done + EventsOf(parse, Terminated(buf))
        invariant delivered == old(delivered) + done
        invariant lastIngest == Advance(old(lastIngest), done)
        decreases |buf|
      {
        var idx := IndexOf(buf, LF);
        var line := buf[..idx];
        FirstLine(buf);
        buf := buf[idx + 1..];
        SplitFirst(line, buf);
        ghost var es := LineEvents(parse, line);
        EventsFirst(parse, line, Terminated(buf));
        Associate(done, es, EventsOf(parse, Terminated(buf)));
        Associate(old(delivered), done, es);
        AdvanceAppend(old(lastIngest), done, es);
        OnLine(line);
        done := done + es;
      }
      SplitNone(buf);
      assert done + [] == done;
    }

    /**
     * One connection's read loop, over however the transport chunked it. `shutAt` is the read during
     * which `close` is called, whether it is awaited or its lines are being handled; the end of the
     * connection counts as one more read.
     */
    method Pump(chunks: seq<Text>, shutAt: Option<nat>)
      requires Valid()
      modifies this`buf, this`lastIngest, this`delivered, this`closed
      ensures Valid() && closed == (old(closed) || shutAt.Some?)
      ensures View() == if old(closed) then old(View()) else Fed(parse, old(View()), Flatten(Seen(chunks, shutAt)))
    {
      ghost var start := View();
      FedNothing(parse, start);
      var i := 0;
      while !closed && i < |chunks|
        invariant i <= |chunks| && Valid() && View() == Fed(parse, start, Flatten(chunks[..i]))
        invariant closed == (old(closed) || (shutAt.Some? && shutAt.value < i)) && (old(closed) ==> i == 0)
        invariant shutAt.Some? ==> i <= shutAt.value + 1
      {
        NextChunk(parse, start, chunks, i);
        Handle(chunks[i], shutAt.Some? && shutAt.value == i);
        i := i + 1;
      }
      if !old(closed) {
        SeenIs(chunks, shutAt, i);
      }
      if shutAt.Some? {
        Shut();
      }
    }

    /** One read that brought a chunk. */
    method Handle(chunk: Text, shut: bool)
      requires Valid() && !closed
      modifies this`buf, this`lastIngest, this`delivered, this`closed
      ensures Valid() && closed == shut && View() == Fed(parse, old(View()), chunk)
    {
      if shut {
        Shut();
      }
      Receive(chunk);
    }

    /** `run`: one attempt to connect, the cursor it asks from, whether another one is scheduled, and after which delay. */
    method Run(a: Attempt) returns (asked: nat, again: bool, delay: nat)
      requires Valid()
      modifies this
      ensures Valid()
      ensures old(closed) ==> !again && closed && delivered == old(delivered) && lastIngest == old(lastIngest)
      ensures !old(closed) ==>
        && closed == Shuts(a) && delivered == old(delivered) + AllGot(parse, Took(a))
        && lastIngest == Advance(old(lastIngest), AllGot(parse, Took(a)))
        && again == !Ends(a)
        && (again ==> delay == (if a.Opened? then 500 else old(backoff)) && backoff == Doubled(delay))
      ensures asked == old(lastIngest)
      ensures !old(closed) && a == Failed(false) ==> again && delay == old(backoff)
      ensures !old(closed) && a.Opened? && a.shutAt.None? ==> again && delay == 500
      ensures a.LoggedOut? || a == Failed(true) || (a.Opened? && a.shutAt.Some?) ==> !again
    {
      asked, again, delay := lastIngest, false, 0;
      if closed {
        return;
      }
      match a {
        case Failed(shut) =>
          if shut {
            Shut();
          }
        case LoggedOut =>
          return;
        case Opened(conn, shutAt) =>
          Open();
          Pump(conn.chunks, shutAt);
          OneGot(parse, a, conn, shutAt);
      }
      if closed {
        return;
      }
      again := true;
      delay := Schedule();
    }

    /** `close`. */
    method Shut()
      modifies this`closed
      ensures closed
    {
      closed := true;
    }
  }

  // ----- resumption over any number of connections --------------------------------------------

  predicate Ascending(log: seq<TaskEvent>) {
    forall i, j :: 0 <= i < j < |log| ==> log[i].ingestId < log[j].ingestId
  }

  function Above(cursor: nat): TaskEvent -> bool {
    (e: TaskEvent) => e.ingestId > cursor
  }

  /** The part of the log above a cursor. */
  function After(log: seq<TaskEvent>, cursor: nat): seq<TaskEvent> {
    Keep(log, Above(cursor))
  }

  /** The log a connection is served from, all the text the server sends on it, and what arrives before it is cut. */
  datatype Connection = Connection(log: seq<TaskEvent>, sent: Text, chunks: seq<Text>)

  /** An attempt to connect: it fails, finds the login expired, or opens; `shut` and `shutAt` say when `close` is called. */
  datatype Attempt = Failed(shut: bool) | LoggedOut | Opened(conn: Connection, shutAt: Option<nat>)

  predicate Shuts(a: Attempt) {
    (a.Failed? && a.shut) || (a.Opened? && a.shutAt.Some?)
  }

  /** No further attempt is scheduled. */
  predicate Ends(a: Attempt) {
    a.LoggedOut? || Shuts(a)
  }

  /** The connection an attempt makes, as far as it is read. */
  function Took(a: Attempt): seq<Connection> {
    if a.Opened? then [a.conn.(chunks := Seen(a.conn.chunks, a.shutAt))] else []
  }

  function ConnsOf(attempts: seq<Attempt>): seq<Connection> {
    if attempts == [] then [] else Took(attempts[0]) + ConnsOf(attempts[1..])
  }

  /** The attempts that are made: up to and including the first that ends the stream. */
  function Made(attempts: seq<Attempt>): seq<Attempt> {
    if attempts == [] then []
    else if Ends(attempts[0]) then [attempts[0]]
    else [attempts[0]] + Made(attempts[1..])
  }

  /** The server sends, in order, events of the log above the requested cursor; other lines carry no event. */
  ghost predicate Replays(parse: Parser, log: seq<TaskEvent>, cursor: nat, sent: Text) {
    EventsOf(parse, Terminated(sent)) <= After(log, cursor)
  }

  /** What one connection delivers. */
  function Got(parse: Parser, c: Connection): seq<TaskEvent> {
    EventsOf(parse, Terminated(Flatten(c.chunks)))
  }

  /** The log only grows; each connection is cut at any point, chunked in any way, and resumes at the cursor. */
  ghost predicate Session(parse: Parser, cursor: nat, log: seq<TaskEvent>, conns: seq<Connection>)
    decreases |conns|
  {
    conns != [] ==>
      var c := conns[0];
      && Ascending(c.log) && log <= c.log
      && Replays(parse, c.log, cursor, c.sent) && Flatten(c.chunks) <= c.sent
      && Session(parse, Advance(cursor, Got(parse, c)), c.log, conns[1..])
  }

  function AllGot(parse: Parser, conns: seq<Connection>): seq<TaskEvent> {
    if conns == [] then [] else Got(parse, conns[0]) + AllGot(parse, conns[1..])
  }

  function FinalLog(log: seq<TaskEvent>, conns: seq<Connection>): seq<TaskEvent> {
    if conns == [] then log else conns[|conns| - 1].log
  }

  /** Cutting a stream at any point cuts its events to a prefix. */
  lemma CutIsPrefix(parse: Parser, got: Text, sent: Text)
    requires got <= sent
    ensures EventsOf(parse, Terminated(got)) <= EventsOf(parse, Terminated(sent))
  {
    var rest := sent[|got|..];
    assert sent == got + rest;
    SplitAppend(got, rest);
    EventsAppend(parse, Terminated(got), Terminated(Tail(got) + rest));
  }

  lemma {:induction false} AdvanceGrows(cursor: nat, events: seq<TaskEvent>)
    ensures Advance(cursor, events) >= cursor
    decreases |events|
  {
    if events != [] {
      AdvanceGrows(if events[0].ingestId > cursor then events[0].ingestId else cursor, events[1..]);
    }
  }

  lemma AscendingTail(log: seq<TaskEvent>)
    requires Ascending(log) && log != []
    ensures Ascending(log[1..]) && forall e :: e in log[1..] ==> e.ingestId > log[0].ingestId
  {
    forall e | e in log[1..]
      ensures e.ingestId > log[0].ingestId
    {
      var i :| 0 <= i < |log[1..]| && log[1..][i] == e;
      assert e == log[i + 1];
    }
  }

  lemma AscendingCons(first: TaskEvent, log: seq<TaskEvent>)
    requires Ascending(log)
    ensures (forall e :: e in log ==> e.ingestId > first.ingestId) ==> Ascending([first] + log)
  {
  }

  lemma ResumeFirst(log: seq<TaskEvent>, cursor: nat, got: seq<TaskEvent>)
    requires log != [] && got != [] && got[0] == log[0] && log[0].ingestId > cursor
    requires log[1..] == got[1..] + After(log[1..], Advance(log[0].ingestId, got[1..]))
    ensures log == got + After(log, Advance(cursor, got))
  {
    var at := Advance(log[0].ingestId, got[1..]);
    AdvanceGrows(log[0].ingestId, got[1..]);
    assert After(log, at) == After(log[1..], at);
    assert log == [log[0]] + log[1..] && got == [log[0]] + got[1..];
    Associate([log[0]], got[1..], After(log, at));
  }

  /** Resuming at the advanced cursor continues exactly where the delivered prefix stopped. */
  lemma {:induction false} ResumeSplits(log: seq<TaskEvent>, cursor: nat, got: seq<TaskEvent>)
    requires Ascending(log) && got <= After(log, cursor)
    ensures After(log, cursor) == got + After(log, Advance(cursor, got))
  {
    if log == [] || got == [] {
      assert got == [];
    } else {
      AscendingTail(log);
      if log[0].ingestId <= cursor {
        AdvanceGrows(cursor, got);
        ResumeSplits(log[1..], cursor, got);
      } else {
        KeepAll(log[1..], Above(cursor));
        KeepAll(log[1..], Above(log[0].ingestId));
        assert got[1..] <= log[1..];
        ResumeSplits(log[1..], log[0].ingestId, got[1..]);
        ResumeFirst(log, cursor, got);
        assert After(log, cursor) == [log[0]] + log[1..] == log;
      }
    }
  }

  lemma AfterNarrows(log: seq<TaskEvent>, low: nat, high: nat)
    requires low <= high
    ensures After(After(log, low), high) == After(log, high)
    ensures forall e :: e in After(log, high) ==> e.ingestId > high
  {
    KeepNarrows(log, Above(low), Above(high));
    KeepAmong(log, Above(high));
  }

  lemma {:induction false} AdvanceReaches(cursor: nat, events: seq<TaskEvent>, i: nat)
    requires i < |events|
    ensures Advance(cursor, events) >= events[i].ingestId
    decreases |events|
  {
    var next := if events[0].ingestId > cursor then events[0].ingestId else cursor;
    if i == 0 {
      AdvanceGrows(next, events[1..]);
    } else {
      AdvanceReaches(next, events[1..], i - 1);
    }
  }

  /** Resuming is seamless at every cut exactly when the ids served are ascending. */
  ghost predicate Seamless(log: seq<TaskEvent>, cursor: nat) {
    forall got :: got <= After(log, cursor) ==> After(log, cursor) == got + After(log, Advance(cursor, got))
  }

  lemma SeamlessIffAscending(log: seq<TaskEvent>, cursor: nat)
    ensures Seamless(log, cursor) <==> Ascending(After(log, cursor))
  {
    var all := After(log, cursor);
    if Ascending(all) {
      forall got | got <= all
        ensures all == got + After(log, Advance(cursor, got))
      {
        AdvanceGrows(cursor, got);
        AfterNarrows(log, cursor, cursor);
        AfterNarrows(log, cursor, Advance(cursor, got));
        ResumeSplits(all, cursor, got);
      }
    } else {
      var i, j :| 0 <= i < j < |all| && all[i].ingestId >= all[j].ingestId;
      SkipsEvent(log, cursor, i, j);
    }
  }

  /** A cut after a higher id hides every later event with a lower one. */
  lemma SkipsEvent(log: seq<TaskEvent>, cursor: nat, i: nat, j: nat)
    requires var all := After(log, cursor); i < j < |all| && all[i].ingestId >= all[j].ingestId
    ensures !Seamless(log, cursor)
  {
    var all := After(log, cursor);
    var got := all[..i + 1];
    var at := Advance(cursor, got);
    AdvanceReaches(cursor, got, i);
    AfterNarrows(log, at, at);
    assert all[j] == all[i + 1..][j - i - 1];
    assert all == got + all[i + 1..];
    assert all[j] !in After(log, at);
  }

  lemma ResumeExtends(cursor: nat, log: seq<TaskEvent>, final: seq<TaskEvent>, got: seq<TaskEvent>, rest: seq<TaskEvent>)
    requires Ascending(final) && log <= final && got <= After(log, cursor)
    requires After(final, Advance(cursor, got)) == rest + After(final, Advance(Advance(cursor, got), rest))
    ensures After(final, cursor) == (got + rest) + After(final, Advance(cursor, got + rest))
  {
    assert final == log + final[|log|..];
    KeepAppend(log, final[|log|..], Above(cursor));
    ResumeSplits(final, cursor, got);
    AdvanceAppend(cursor, got, rest);
    Associate(got, rest, After(final, Advance(Advance(cursor, got), rest)));
  }

  lemma FinalLogRest(log: seq<TaskEvent>, conns: seq<Connection>)
    requires conns != []
    ensures FinalLog(conns[0].log, conns[1..]) == FinalLog(log, conns)
  {
  }

  lemma GotIsPrefix(parse: Parser, cursor: nat, c: Connection)
    requires Replays(parse, c.log, cursor, c.sent) && Flatten(c.chunks) <= c.sent
    ensures Got(parse, c) <= After(c.log, cursor)
  {
    CutIsPrefix(parse, Flatten(c.chunks), c.sent);
  }

  /**
   * Exactly once: over any number of connections, each cut anywhere and chunked anyhow, the events
   * delivered are a gap-free, duplicate-free prefix of the log after the starting cursor.
   */
  lemma {:induction false} ExactlyOnce(parse: Parser, cursor: nat, log: seq<TaskEvent>, conns: seq<Connection>)
    requires Ascending(log) && Session(parse, cursor, log, conns)
    ensures log <= FinalLog(log, conns) && Ascending(FinalLog(log, conns))
    ensures AllGot(parse, conns) <= After(FinalLog(log, conns), cursor)
    ensures After(FinalLog(log, conns), cursor) ==
              AllGot(parse, conns) + After(FinalLog(log, conns), Advance(cursor, AllGot(parse, conns)))
    decreases |conns|
  {
    if conns != [] {
      var c, got := conns[0], Got(parse, conns[0]);
      ExactlyOnce(parse, Advance(cursor, got), c.log, conns[1..]);
      FinalLogRest(log, conns);
      GotIsPrefix(parse, cursor, c);
      ResumeExtends(cursor, c.log, FinalLog(log, conns), got, AllGot(parse, conns[1..]));
    }
  }

  /** A prefix of an ascending log repeats nothing, so no event is delivered twice. */
  lemma NothingTwice(parse: Parser, cursor: nat, log: seq<TaskEvent>, conns: seq<Connection>)
    requires Ascending(log) && Session(parse, cursor, log, conns)
    ensures Ascending(AllGot(parse, conns)) && forall e :: e in AllGot(parse, conns) ==> e.ingestId > cursor
  {
    ExactlyOnce(parse, cursor, log, conns);
    AfterAscends(FinalLog(log, conns), cursor);
  }

  lemma {:induction false} AfterAscends(log: seq<TaskEvent>, cursor: nat)
    requires Ascending(log)
    ensures Ascending(After(log, cursor)) && forall e :: e in After(log, cursor) ==> e.ingestId > cursor && e in log
  {
    if log != [] {
      AscendingTail(log);
      AfterAscends(log[1..], cursor);
      AscendingCons(log[0], After(log[1..], cursor));
    }
  }

  lemma {:induction false} AllGotAppend(parse: Parser, a: seq<Connection>, b: seq<Connection>)
    ensures AllGot(parse, a + b) == AllGot(parse, a) + AllGot(parse, b)
  {
    if a == [] {
      assert a + b == b;
    } else {
      assert (a + b)[1..] == a[1..] + b;
      AllGotAppend(parse, a[1..], b);
      Associate(Got(parse, a[0]), AllGot(parse, a[1..]), AllGot(parse, b));
    }
  }

  lemma OneGot(parse: Parser, a: Attempt, conn: Connection, shutAt: Option<nat>)
    requires a == Opened(conn, shutAt)
    ensures AllGot(parse, Took(a)) == EventsOf(parse, Terminated([] + Flatten(Seen(conn.chunks, shutAt))))
  {
    var text := Flatten(Seen(conn.chunks, shutAt));
    assert [] + text == text;
    var c := Took(a)[0];
    assert Took(a)[1..] == [] && Got(parse, c) + [] == Got(parse, c);
  }

  lemma {:induction false} ConnsSnoc(attempts: seq<Attempt>, a: Attempt)
    ensures ConnsOf(attempts + [a]) == ConnsOf(attempts) + Took(a)
  {
    if attempts == [] {
      assert attempts + [a] == [a] && [a][1..] == [] && Took(a) + [] == Took(a);
    } else {
      assert (attempts + [a])[1..] == attempts[1..] + [a];
      ConnsSnoc(attempts[1..], a);
    }
  }

  predicate GoesOn(attempts: seq<Attempt>) {
    forall i :: 0 <= i < |attempts| ==> !Ends(attempts[i])
  }

  lemma {:induction false} MadeFirst(attempts: seq<Attempt>, later: seq<Attempt>)
    requires GoesOn(attempts)
    ensures Made(attempts + later) == attempts + Made(later)
  {
    if attempts == [] {
      assert attempts + later == later;
    } else {
      assert (attempts + later)[1..] == attempts[1..] + later;
      MadeFirst(attempts[1..], later);
      assert attempts == [attempts[0]] + attempts[1..];
    }
  }

  lemma NextAttempt(parse: Parser, start: nat, attempts: seq<Attempt>, i: nat)
    requires i < |attempts|
    ensures var sofar, more, got := AllGot(parse, ConnsOf(attempts[..i])), AllGot(parse, ConnsOf(attempts[..i + 1])),
                                    AllGot(parse, Took(attempts[i]));
      more == sofar + got && Advance(start, more) == Advance(Advance(start, sofar), got)
  {
    assert attempts[..i + 1] == attempts[..i] + [attempts[i]];
    ConnsSnoc(attempts[..i], attempts[i]);
    AllGotAppend(parse, ConnsOf(attempts[..i]), Took(attempts[i]));
    AdvanceAppend(start, AllGot(parse, ConnsOf(attempts[..i])), AllGot(parse, Took(attempts[i])));
  }

  // ----- the delays between attempts ----------------------------------------------------------

  function Pow2(k: nat): nat {
    if k == 0 then 1 else 2 * Pow2(k - 1)
  }

  /** min(500 * 2^k, 5000). */
  function DelayAfter(k: nat): nat {
    if 500 * Pow2(k) <= 5000 then 500 * Pow2(k) else 5000
  }

  /** Half a second, then twice as long each time, up to five seconds. */
  lemma DelayTable(k: nat)
    ensures DelayAfter(k) == [500, 1000, 2000, 4000, 5000][if k < 4 then k else 4]
  {
    assert Pow2(4) == 16 && Pow2(3) == 8 && Pow2(2) == 4 && Pow2(1) == 2;
    if k >= 4 {
      Pow2Grows(k);
    }
  }

  lemma {:induction false} Pow2Grows(k: nat)
    requires k >= 4
    ensures Pow2(k) >= 16
  {
    if k > 4 {
      Pow2Grows(k - 1);
    } else {
      assert Pow2(4) == 2 * Pow2(3) && Pow2(3) == 2 * Pow2(2) && Pow2(2) == 2 * Pow2(1);
    }
  }

  lemma DelayDoubles(k: nat)
    ensures Doubled(DelayAfter(k)) == DelayAfter(k + 1)
  {
  }

  /** How many attempts have been made since the last that opened, or since the first. */
  function Streak(attempts: seq<Attempt>): nat {
    if |attempts| <= 1 || attempts[|attempts| - 1].Opened? then 0 else 1 + Streak(attempts[..|attempts| - 1])
  }

  lemma NextDelay(attempts: seq<Attempt>, i: nat, backoff: nat)
    requires i < |attempts| && backoff == if i == 0 then 500 else Doubled(DelayAfter(Streak(attempts[..i])))
    ensures DelayAfter(Streak(attempts[..i + 1])) == if attempts[i].Opened? then 500 else backoff
  {
    assert attempts[..i + 1][..i] == attempts[..i];
    if i > 0 {
      DelayDoubles(Streak(attempts[..i]));
    }
  }

  ghost predicate Delays(attempts: seq<Attempt>, delays: seq<nat>) {
    |delays| <= |attempts| && forall i :: 0 <= i < |delays| ==> delays[i] == DelayAfter(Streak(attempts[..i + 1]))
  }

  // ----- the whole life of a stream -----------------------------------------------------------

  /** After i attempts, all of which went on: what was delivered, where the cursor is, and the delays so far. */
  ghost predicate Lived(parse: Parser, after: nat, made: seq<Attempt>, delivered: seq<TaskEvent>, last: nat, delays: seq<nat>) {
    && delivered == AllGot(parse, ConnsOf(made)) && last == Advance(after, delivered)
    && Delays(made, delays)
  }

  ghost predicate Underway(attempts: seq<Attempt>, i: nat, backoff: nat) {
    && i <= |attempts| && GoesOn(attempts[..i])
    && backoff == if i == 0 then 500 else Doubled(DelayAfter(Streak(attempts[..i])))
  }

  lemma LivedNext(parse: Parser, after: nat, attempts: seq<Attempt>, i: nat, delivered: seq<TaskEvent>, last: nat, delays: seq<nat>)
    requires i < |attempts| && |delays| == i && Lived(parse, after, attempts[..i], delivered, last, delays)
    ensures var got := AllGot(parse, Took(attempts[i]));
      Lived(parse, after, attempts[..i + 1], delivered + got, Advance(last, got), delays)
  {
    NextAttempt(parse, after, attempts, i);
    DelaysStay(attempts, i, delays);
  }

  lemma DelaysStay(attempts: seq<Attempt>, i: nat, delays: seq<nat>)
    requires i < |attempts| && Delays(attempts[..i], delays)
    ensures Delays(attempts[..i + 1], delays)
  {
    forall k | 0 <= k < |delays|
      ensures delays[k] == DelayAfter(Streak(attempts[..i + 1][..k + 1]))
    {
      assert attempts[..i + 1][..k + 1] == attempts[..i][..k + 1];
    }
  }

  lemma DelaysNext(attempts: seq<Attempt>, i: nat, delays: seq<nat>, d: nat)
    requires i < |attempts| && |delays| == i && Delays(attempts[..i + 1], delays) && d == DelayAfter(Streak(attempts[..i + 1]))
    ensures Delays(attempts[..i + 1], delays + [d])
  {
    assert attempts[..i + 1][..i + 1] == attempts[..i + 1];
  }

  lemma UnderwayNext(attempts: seq<Attempt>, i: nat, backoff: nat, d: nat)
    requires i < |attempts| && Underway(attempts, i, backoff) && !Ends(attempts[i])
    requires d == if attempts[i].Opened? then 500 else backoff
    ensures Underway(attempts, i + 1, Doubled(d)) && d == DelayAfter(Streak(attempts[..i + 1]))
  {
    NextDelay(attempts, i, backoff);
    assert forall k :: 0 <= k < i ==> attempts[..i + 1][k] == attempts[..i][k];
  }

  /** The cursor after some attempts: the highest id they delivered. */
  function CursorAfter(parse: Parser, after: nat, made: seq<Attempt>): nat {
    Advance(after, AllGot(parse, ConnsOf(made)))
  }

  /** Each attempt asks for what follows the last event delivered before it. */
  ghost predicate Asks(parse: Parser, after: nat, made: seq<Attempt>, asked: seq<nat>) {
    |asked| == |made| && forall i :: 0 <= i < |made| ==> asked[i] == CursorAfter(parse, after, made[..i])
  }

  lemma PrefixOfPrefix(attempts: seq<Attempt>, i: nat, k: nat)
    requires k <= i <= |attempts|
    ensures attempts[..i][..k] == attempts[..k]
  {
  }

  lemma AsksNext(parse: Parser, after: nat, attempts: seq<Attempt>, i: nat, asked: seq<nat>, last: nat)
    requires i < |attempts| && Asks(parse, after, attempts[..i], asked) && last == CursorAfter(parse, after, attempts[..i])
    ensures Asks(parse, after, attempts[..i + 1], asked + [last])
  {
    forall k | 0 <= k < i + 1
      ensures (asked + [last])[k] == CursorAfter(parse, after, attempts[..i + 1][..k])
    {
      PrefixOfPrefix(attempts, i + 1, k);
      PrefixOfPrefix(attempts, i, k);
    }
  }

  lemma GotCons(parse: Parser, c: Connection, conns: seq<Connection>, cursor: nat)
    ensures Advance(cursor, AllGot(parse, [c] + conns)) == Advance(Advance(cursor, Got(parse, c)), AllGot(parse, conns))
  {
    assert ([c] + conns)[1..] == conns;
    AdvanceAppend(cursor, Got(parse, c), AllGot(parse, conns));
  }

  /** In a session each connection is served from that cursor. */
  lemma {:induction false} ServedFrom(parse: Parser, cursor: nat, log: seq<TaskEvent>, conns: seq<Connection>, i: nat)
    requires Session(parse, cursor, log, conns) && i < |conns|
    ensures Replays(parse, conns[i].log, Advance(cursor, AllGot(parse, conns[..i])), conns[i].sent)
    decreases |conns|
  {
    if i == 0 {
      assert conns[..0] == [];
    } else {
      var c, more := conns[0], conns[1..];
      ServedFrom(parse, Advance(cursor, Got(parse, c)), c.log, more, i - 1);
      assert conns[..i] == [c] + more[..i - 1];
      GotCons(parse, c, more[..i - 1], cursor);
    }
  }

  /** After i attempts that all went on: what was delivered, asked for and waited, and what comes next. */
  ghost predicate Going(parse: Parser, after: nat, attempts: seq<Attempt>, i: nat, stream: TaskStream, asked: seq<nat>, delays: seq<nat>)
    reads stream
  {
    && Underway(attempts, i, stream.backoff) && |delays| == i && stream.Valid() && !stream.closed && stream.parse == parse
    && Lived(parse, after, attempts[..i], stream.delivered, stream.lastIngest, delays)
    && Asks(parse, after, attempts[..i], asked)
  }

  lemma GoingStart(parse: Parser, after: nat, attempts: seq<Attempt>)
    ensures Underway(attempts, 0, 500) && Lived(parse, after, attempts[..0], [], after, []) && Asks(parse, after, attempts[..0], [])
  {
    assert attempts[..0] == [];
  }

  /** The attempt after which the stream ended. */
  ghost predicate Over(parse: Parser, after: nat, attempts: seq<Attempt>, i: nat, stream: TaskStream, asked: seq<nat>, delays: seq<nat>)
    reads stream
  {
    && i < |attempts| && Ends(attempts[i]) && |delays| == i && stream.closed == Shuts(attempts[i])
    && Lived(parse, after, attempts[..i + 1], stream.delivered, stream.lastIngest, delays)
    && Asks(parse, after, attempts[..i + 1], asked)
  }

  /** The next attempt of a stream that is still going. */
  method Next(parse: Parser, ghost after: nat, attempts: seq<Attempt>, i: nat, stream: TaskStream, asked0: seq<nat>, delays0: seq<nat>)
      returns (again: bool, asked: seq<nat>, delays: seq<nat>)
    requires i < |attempts| && Going(parse, after, attempts, i, stream, asked0, delays0)
    modifies stream
    ensures if again then Going(parse, after, attempts, i + 1, stream, asked, delays)
            else Over(parse, after, attempts, i, stream, asked, delays)
  {
    LivedNext(parse, after, attempts, i, stream.delivered, stream.lastIngest, delays0);
    AsksNext(parse, after, attempts, i, asked0, stream.lastIngest);
    ghost var backoff := stream.backoff;
    var cursor, d;
    cursor, again, d := stream.Run(attempts[i]);
    asked, delays := asked0 + [cursor], delays0;
    if again {
      UnderwayNext(attempts, i, backoff, d);
      DelaysNext(attempts, i, delays, d);
      delays := delays + [d];
    }
  }

  /** Connecting and reconnecting until an attempt ends the stream, or as long as attempts are made. */
  method Reconnect(parse: Parser, after: nat, attempts: seq<Attempt>)
      returns (stream: TaskStream, asked: seq<nat>, delays: seq<nat>)
    ensures Lived(parse, after, Made(attempts), stream.delivered, stream.lastIngest, delays)
    ensures Asks(parse, after, Made(attempts), asked)
    ensures stream.closed <==> Made(attempts) != [] && Shuts(Made(attempts)[|Made(attempts)| - 1])
    ensures |delays| == |Made(attempts)| - (if GoesOn(attempts) then 0 else 1)
  {
    stream := new TaskStream(parse, after);
    asked, delays := [], [];
    var i := 0;
    GoingStart(parse, after, attempts);
    while i < |attempts|
      invariant fresh(stream) && Going(parse, after, attempts, i, stream, asked, delays)
    {
      var again;
      again, asked, delays := Next(parse, after, attempts, i, stream, asked, delays);
      if !again {
        MadeSplits(attempts, i);
        return;
      }
      i := i + 1;
    }
    MadeAll(attempts);
  }

  lemma MadeAll(attempts: seq<Attempt>)
    requires GoesOn(attempts[..|attempts|])
    ensures GoesOn(attempts) && Made(attempts) == attempts[..|attempts|] == attempts
  {
    assert attempts[..|attempts|] == attempts;
    MadeFirst(attempts, []);
    assert attempts + [] == attempts;
  }

  lemma MadeSplits(attempts: seq<Attempt>, i: nat)
    requires i < |attempts| && GoesOn(attempts[..i]) && Ends(attempts[i])
    ensures Made(attempts) == attempts[..i + 1] && !GoesOn(attempts)
  {
    var later := attempts[i..];
    assert attempts == attempts[..i] + later && later[0] == attempts[i];
    MadeFirst(attempts[..i], later);
    assert attempts[..i + 1] == attempts[..i] + [attempts[i]];
  }

  /** Failing, and losing a connection, is no reason to stop: only a close or an expired login is. */
  predicate Persists(a: Attempt) {
    a == Failed(false) || (a.Opened? && a.shutAt.None?)
  }

  lemma PersistentAreMade(attempts: seq<Attempt>)
    requires forall i :: 0 <= i < |attempts| ==> Persists(attempts[i])
    ensures Made(attempts) == attempts && GoesOn(attempts)
  {
    assert attempts[..|attempts|] == attempts;
    MadeAll(attempts);
  }

  /** Anything else ends the stream there. */
  lemma OthersAreLast(before: seq<Attempt>, a: Attempt, later: seq<Attempt>)
    requires (forall i :: 0 <= i < |before| ==> Persists(before[i])) && !Persists(a)
    ensures Made(before + [a] + later) == before + [a]
  {
    assert GoesOn(before) && before + [a] + later == before + ([a] + later);
    MadeFirst(before, [a] + later);
  }

  function Failures(n: nat): seq<Attempt> {
    seq(n, _ => Failed(false))
  }

  lemma {:induction false} FailuresGetNothing(n: nat)
    ensures ConnsOf(Failures(n)) == []
  {
    if n > 0 {
      assert Failures(n)[1..] == Failures(n - 1);
      FailuresGetNothing(n - 1);
    }
  }

  lemma {:induction false} FailureStreak(n: nat)
    requires n > 0
    ensures Streak(Failures(n)) == n - 1
  {
    if n > 1 {
      assert Failures(n)[..n - 1] == Failures(n - 1);
      FailureStreak(n - 1);
    }
  }

  /** Failed attempts and then one that opens. */
  function FailuresThen(n: nat, c: Connection): seq<Attempt> {
    Failures(n) + [Opened(c, None)]
  }

  lemma FailuresConns(n: nat, c: Connection)
    ensures ConnsOf(FailuresThen(n, c)) == [c]
  {
    FailuresGetNothing(n);
    ConnsSnoc(Failures(n), Opened(c, None));
    assert c.(chunks := Seen(c.chunks, None)) == c;
  }

  lemma OneConnGot(parse: Parser, c: Connection)
    ensures AllGot(parse, [c]) == Got(parse, c)
  {
    assert [c][1..] == [] && Got(parse, c) + [] == Got(parse, c);
  }

  lemma FailuresStreaks(n: nat, c: Connection, k: nat)
    requires k <= n
    ensures Streak(FailuresThen(n, c)[..k + 1]) == if k < n then k else 0
  {
    var all := FailuresThen(n, c);
    if k < n {
      assert all[..k + 1] == Failures(k + 1);
      FailureStreak(k + 1);
    } else {
      assert all[..n + 1] == all;
    }
  }

  lemma FailuresMade(n: nat, c: Connection)
    ensures Made(FailuresThen(n, c)) == FailuresThen(n, c) && GoesOn(FailuresThen(n, c)) && |FailuresThen(n, c)| == n + 1
  {
    PersistentAreMade(FailuresThen(n, c));
  }

  /** n failed attempts and then a connection: what it carries is delivered, after delays of min(500 * 2^k, 5000). */
  lemma FailuresThenOpen(parse: Parser, after: nat, n: nat, c: Connection, delivered: seq<TaskEvent>, last: nat, delays: seq<nat>)
    requires Lived(parse, after, Made(FailuresThen(n, c)), delivered, last, delays)
    requires |delays| == |Made(FailuresThen(n, c))| - (if GoesOn(FailuresThen(n, c)) then 0 else 1)
    ensures delivered == Got(parse, c) && |delays| == n + 1 && delays[n] == 500
    ensures forall k :: 0 <= k < n ==> delays[k] == [500, 1000, 2000, 4000, 5000][if k < 4 then k else 4]
  {
    FailuresMade(n, c);
    FailuresConns(n, c);
    OneConnGot(parse, c);
    forall k | 0 <= k <= n
      ensures delays[k] == if k < n then [500, 1000, 2000, 4000, 5000][if k < 4 then k else 4] else 500
    {
      FailuresStreaks(n, c, k);
      DelayTable(k);
      DelayTable(0);
    }
  }

  /** Over its whole life the stream delivers each event of the log once and in order, and its cursor marks the rest. */
  method Follow(parse: Parser, after: nat, ghost log: seq<TaskEvent>, attempts: seq<Attempt>)
      returns (stream: TaskStream, asked: seq<nat>, delays: seq<nat>)
    requires Ascending(log) && Session(parse, after, log, ConnsOf(Made(attempts)))
    ensures stream.delivered == AllGot(parse, ConnsOf(Made(attempts))) && Delays(Made(attempts), delays)
    ensures Asks(parse, after, Made(attempts), asked)
    ensures After(FinalLog(log, ConnsOf(Made(attempts))), after) ==
              stream.delivered + After(FinalLog(log, ConnsOf(Made(attempts))), stream.lastIngest)
  {
    ExactlyOnce(parse, after, log, ConnsOf(Made(attempts)));
    stream, asked, delays := Reconnect(parse, after, attempts);
  }

  /** After `close` nothing is read: neither a later chunk of that connection nor any later attempt. */
  lemma ClosedIsFinal(before: seq<Attempt>, c: Connection, i: nat, late: seq<Text>, later: seq<Attempt>)
    requires GoesOn(before) && i < |c.chunks|
    ensures ConnsOf(Made(before + [Opened(c.(chunks := c.chunks + late), Some(i))] + later)) ==
              ConnsOf(before) + [c.(chunks := c.chunks[..i + 1])]
  {
    var a := Opened(c.(chunks := c.chunks + late), Some(i));
    assert before + [a] + later == before + ([a] + later);
    MadeFirst(before, [a] + later);
    ConnsSnoc(before, a);
    assert (c.chunks + late)[..i + 1] == c.chunks[..i + 1];
  }
}
