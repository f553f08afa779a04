/** Eval usage: paging the event log by ingest cursor against summing it in one pass. */
module UsagePaging {
  import opened Prelude

  /** `tokens` and `costCents` are the payload fields when present as unsigned integers. */
  datatype LogEvent = LogEvent(ingestId: nat, metric: bool, tokens: Option<nat>, costCents: Option<nat>)

  /** The tokens, and the cents, that an event reports if it is a metric. */
  function TokensOf(e: LogEvent): nat {
    if e.metric && e.tokens.Some? then e.tokens.value else 0
  }

  function CostOf(e: LogEvent): nat {
    if e.metric && e.costCents.Some? then e.costCents.value else 0
  }

  function TokenSum(log: seq<LogEvent>): nat {
    if log == [] then 0 else TokensOf(log[0]) + TokenSum(log[1..])
  }

  function CostSum(log: seq<LogEvent>): nat {
    if log == [] then 0 else CostOf(log[0]) + CostSum(log[1..])
  }

  /** The tokens reported by the metric events, one by one, and the cents. */
  lemma {:induction false} SumsAre(log: seq<LogEvent>)
    ensures TokenSum(log) == Sum(seq(|log|, i requires 0 <= i < |log| =>
              if log[i].metric && log[i].tokens.Some? then log[i].tokens.value else 0))
    ensures CostSum(log) == Sum(seq(|log|, i requires 0 <= i < |log| =>
              if log[i].metric && log[i].costCents.Some? then log[i].costCents.value else 0))
  {
    if log != [] {
      var more := log[1..];
      SumsAre(more);
      var ts := seq(|log|, i requires 0 <= i < |log| => if log[i].metric && log[i].tokens.Some? then log[i].tokens.value else 0);
      var cs := seq(|log|, i requires 0 <= i < |log| => if log[i].metric && log[i].costCents.Some? then log[i].costCents.value else 0);
      assert ts[1..] == seq(|more|, i requires 0 <= i < |more| =>
        if more[i].metric && more[i].tokens.Some? then more[i].tokens.value else 0);
      assert cs[1..] == seq(|more|, i requires 0 <= i < |more| =>
        if more[i].metric && more[i].costCents.Some? then more[i].costCents.value else 0);
    }
  }

  lemma {:induction false} SumsAppend(a: seq<LogEvent>, b: seq<LogEvent>)
    ensures TokenSum(a + b) == TokenSum(a) + TokenSum(b) && CostSum(a + b) == CostSum(a) + CostSum(b)
  {
    if a == [] {
      assert a + b == b;
    } else {
      assert (a + b)[1..] == a[1..] + b;
      SumsAppend(a[1..], b);
    }
  }

  lemma SumsSnoc(events: seq<LogEvent>, i: nat)
    requires i < |events|
    ensures TokenSum(events[..i + 1]) == TokenSum(events[..i]) + TokensOf(events[i])
    ensures CostSum(events[..i + 1]) == CostSum(events[..i]) + CostOf(events[i])
  {
    var last := [events[i]];
    assert events[..i + 1] == events[..i] + last;
    SumsAppend(events[..i], last);
    assert last[1..] == [];
  }

  method SumUsage(events: seq<LogEvent>) returns (tokens: nat, cost: nat)
    ensures tokens == TokenSum(events) && cost == CostSum(events)
  {
    tokens, cost := 0, 0;
    for i := 0 to |events|
      invariant tokens == TokenSum(events[..i]) && cost == CostSum(events[..i])
    {
      SumsSnoc(events, i);
      if !events[i].metric {
        continue;
      }
      tokens := tokens + OrZero(events[i].tokens);
      cost := cost + OrZero(events[i].costCents);
    }
    assert events[..|events|] == events;
  }

  /** Where the next page starts: `after_ingest`, if it is sent. */
  datatype Cursor = FromStart | Past(id: nat)

  function Above(after: Cursor): LogEvent -> bool {
    (e: LogEvent) => after.FromStart? || e.ingestId > after.id
  }

  function After(log: seq<LogEvent>, after: Cursor): seq<LogEvent> {
    Keep(log, Above(after))
  }

  /** The page a server returns: the first `limit` events above the cursor. */
  function Page(log: seq<LogEvent>, after: Cursor, limit: nat): seq<LogEvent> {
    var rest := After(log, after);
    if |rest| <= limit then rest else rest[..limit]
  }

  function Highest(events: seq<LogEvent>): nat {
    if events == [] then 0
    else
      var h := Highest(events[1..]);
      if events[0].ingestId >= h then events[0].ingestId else h
  }

  /** It is a maximum. */
  lemma {:induction false} HighestIsMax(events: seq<LogEvent>) returns (i: nat)
    requires events != []
    ensures i < |events| && events[i].ingestId == Highest(events)
    ensures forall k :: 0 <= k < |events| ==> events[k].ingestId <= Highest(events)
  {
    i := 0;
    if |events| > 1 {
      var rest := events[1..];
      var j := HighestIsMax(rest);
      assert forall k :: 0 < k < |events| ==> events[k] == rest[k - 1];
      i := if events[0].ingestId >= Highest(rest) then 0 else j + 1;
    }
  }

  /** Ids are positive and strictly ascending, as the global ingest counter assigns them. */
  predicate Numbered(log: seq<LogEvent>) {
    && (forall i :: 0 <= i < |log| ==> log[i].ingestId > 0)
    && (forall i, j :: 0 <= i < j < |log| ==> log[i].ingestId < log[j].ingestId)
  }

  /** A server that never filled in ingest ids. */
  predicate Unnumbered(log: seq<LogEvent>) {
    forall i :: 0 <= i < |log| ==> log[i].ingestId == 0
  }

  /** On a numbered log, the id of the n-th event leaves exactly the events behind it. */
  lemma {:induction false} AfterPosition(log: seq<LogEvent>, n: nat)
    requires Numbered(log) && 0 < n <= |log|
    ensures After(log, Past(log[n - 1].ingestId)) == log[n..]
  {
    if n == 1 {
      KeepAll(log[1..], Above(Past(log[0].ingestId)));
    } else {
      AfterPosition(log[1..], n - 1);
    }
  }

  /** What is above a cursor is part of the log, and stays numbered. */
  lemma {:induction false} AfterIn(log: seq<LogEvent>, after: Cursor)
    ensures forall e :: e in After(log, after) ==> e in log && Above(after)(e)
    ensures Numbered(log) ==> Numbered(After(log, after))
  {
    if log != [] {
      AfterIn(log[1..], after);
      if Numbered(log) {
        var rest := After(log[1..], after);
        forall i | 0 <= i < |rest|
          ensures rest[i].ingestId > log[0].ingestId
        {
          assert rest[i] in log[1..];
        }
      }
    }
  }

  /** A higher cursor leaves less when an event lies between the two. */
  lemma {:induction false} AfterShrinks(log: seq<LogEvent>, high: nat, i: nat)
    requires i < |log| ==> log[i].ingestId <= high
    ensures |After(log, Past(high))| <= |log|
    ensures i < |log| ==> |After(log, Past(high))| < |log|
  {
    if log != [] {
      AfterShrinks(log[1..], high, if i == 0 then |log| else i - 1);
    }
  }

  /** The next cursor after a page: what it leaves is what the page left. */
  lemma PageAdvances(log: seq<LogEvent>, after: Cursor, page: seq<LogEvent>, todo: seq<LogEvent>)
    requires todo == After(log, after) && page <= todo && page != []
    ensures |After(log, Past(Highest(page)))| < |todo|
    ensures after.Past? ==> Highest(page) > after.id
    ensures Highest(page) > 0 ==> !Unnumbered(log)
    ensures Numbered(log) ==> Highest(page) > 0 && After(log, Past(Highest(page))) == todo[|page|..]
  {
    var i := HighestIsMax(page);
    AfterIn(log, after);
    assert todo[i] == page[i] && todo[i] in log;
    KeepNarrows(log, Above(after), Above(Past(Highest(page))));
    AfterShrinks(todo, Highest(page), i);
    if Numbered(log) {
      var n := |page|;
      assert todo[n - 1] == page[n - 1];
      AfterPosition(todo, n);
    }
  }

  function Min(a: nat, b: nat): nat {
    if a <= b then a else b
  }

  /** How many of `total` events some pages cover. */
  function Covered(total: nat, limit: nat, pages: nat): (p: nat)
    ensures p <= total
  {
    if pages == 0 then 0 else Min(total, Covered(total, limit, pages - 1) + limit)
  }

  lemma {:induction false} CoveredIsProduct(total: nat, limit: nat, pages: nat)
    ensures Covered(total, limit, pages) == Min(total, pages * limit)
  {
    if pages > 0 {
      CoveredIsProduct(total, limit, pages - 1);
      assert pages * limit == (pages - 1) * limit + limit;
    }
  }

  lemma {:induction false} CoveredAllStays(total: nat, limit: nat, a: nat, b: nat)
    requires a <= b && Covered(total, limit, a) == total
    ensures Covered(total, limit, b) == total
  {
    if a < b {
      CoveredAllStays(total, limit, a, b - 1);
    }
  }

  /** Every page ends below all that follows it, and only the last may be without ids. */
  predicate Orderly(rest: seq<LogEvent>, limit: nat)
    requires limit > 0
    decreases |rest|
  {
    |rest| <= limit ||
    var page, more := rest[..limit], rest[limit..];
    Highest(page) > 0 && (forall i :: 0 <= i < |more| ==> more[i].ingestId > Highest(page)) && Orderly(more, limit)
  }

  ghost predicate Balanced(log: seq<LogEvent>, summed: seq<LogEvent>, todo: seq<LogEvent>) {
    multiset(summed) + multiset(todo) == multiset(log)
  }

  lemma {:induction false} AfterLoses(log: seq<LogEvent>, high: nat, i: nat)
    requires i < |log| && log[i].ingestId <= high
    ensures |After(log, Past(high))| < |log|
  {
    AfterShrinks(log, high, i);
  }

  /** Passing a page keeps the books balanced exactly when all that follows is above it. */
  lemma BalanceNext(todo: seq<LogEvent>, page: seq<LogEvent>, next: seq<LogEvent>, limit: nat)
    requires limit > 0 && todo != [] && page == todo[..Min(|todo|, limit)] && next == After(todo[|page|..], Past(Highest(page)))
    ensures Highest(page) > 0 ==> (Orderly(todo, limit) <==> Balanced(todo, page, next) && Orderly(next, limit))
    ensures Highest(page) == 0 ==> (Orderly(todo, limit) <==> Balanced(todo, page, []))
  {
    var more := todo[|page|..];
    assert todo == page + more;
    assert |multiset(more)| == |more|;
    if i :| 0 <= i < |more| && more[i].ingestId <= Highest(page) {
      AfterLoses(more, Highest(page), i);
      assert |multiset(next)| == |next|;
    } else {
      KeepAll(more, Above(Past(Highest(page))));
    }
  }

  /** What has been billed and what is above the cursor, on any log: nothing is counted twice, and what got lost shows. */
  ghost predicate Ledger(log: seq<LogEvent>, limit: nat, summed: seq<LogEvent>, todo: seq<LogEvent>)
    requires limit > 0
  {
    && multiset(summed) + multiset(todo) <= multiset(log)
    && (Orderly(log, limit) <==> Balanced(log, summed, todo) && Orderly(todo, limit))
  }

  /** No event is billed twice, and all are exactly on orderly logs. */
  ghost predicate Settles(log: seq<LogEvent>, limit: nat, summed: seq<LogEvent>)
    requires limit > 0
  {
    && multiset(summed) <= multiset(log)
    && (multiset(summed) == multiset(log) <==> Orderly(log, limit))
  }

  lemma LedgerEnd(log: seq<LogEvent>, limit: nat, summed: seq<LogEvent>)
    requires limit > 0 && Ledger(log, limit, summed, [])
    ensures Settles(log, limit, summed)
  {
    assert multiset(summed) + multiset([]) == multiset(summed);
  }

  lemma PageAmong(todo: seq<LogEvent>, page: seq<LogEvent>, next: seq<LogEvent>)
    requires page <= todo && next == After(todo[|page|..], Past(Highest(page)))
    ensures multiset(page) + multiset(next) <= multiset(todo)
  {
    KeepAmong(todo[|page|..], Above(Past(Highest(page))));
    assert todo == page + todo[|page|..];
  }

  lemma LedgerNext(log: seq<LogEvent>, limit: nat, summed: seq<LogEvent>, todo: seq<LogEvent>, page: seq<LogEvent>, next: seq<LogEvent>)
    requires limit > 0 && Ledger(log, limit, summed, todo) && todo != [] && page == todo[..Min(|todo|, limit)]
    requires next == After(todo[|page|..], Past(Highest(page)))
    ensures if Highest(page) == 0 then Settles(log, limit, summed + page) else Ledger(log, limit, summed + page, next)
  {
    BalanceNext(todo, page, next, limit);
    PageAmong(todo, page, next);
    assert multiset(summed + page) == multiset(summed) + multiset(page);
    SumsUp(multiset(log), multiset(summed), multiset(todo), multiset(page), multiset(next));
    SumsUp(multiset(log), multiset(summed), multiset(todo), multiset(page), multiset{});
  }

  /** A chain of parts adds up to the whole exactly when each link does. */
  lemma SumsUp(log: multiset<LogEvent>, summed: multiset<LogEvent>, todo: multiset<LogEvent>, page: multiset<LogEvent>,
               next: multiset<LogEvent>)
    requires summed + todo <= log && page + next <= todo
    ensures summed + page + next <= log
    ensures summed + page + next == log <==> summed + todo == log && page + next == todo
  {
    if summed + page + next == log {
      forall e: LogEvent
        ensures (summed + todo)[e] == log[e] && (page + next)[e] == todo[e]
      {
        assert (summed + page + next)[e] == log[e] >= (summed + todo)[e];
      }
    }
  }

  /** What the next cursor leaves is what follows the page, less what is not above it. */
  lemma NextTodo(log: seq<LogEvent>, after: Cursor, page: seq<LogEvent>, todo: seq<LogEvent>)
    requires todo == After(log, after) && page <= todo && page != [] && (after.Past? ==> Highest(page) > after.id)
    ensures After(log, Past(Highest(page))) == After(todo[|page|..], Past(Highest(page)))
  {
    var h, rest := Highest(page), todo[|page|..];
    KeepNarrows(log, Above(after), Above(Past(h)));
    assert todo == page + rest;
    KeepAppend(page, rest, Above(Past(h)));
    var i := HighestIsMax(page);
    KeepNone(page, Above(Past(h)));
    assert [] + After(rest, Past(h)) == After(rest, Past(h));
  }

  /** The part of the log that gets billed. */
  ghost predicate Bills(log: seq<LogEvent>, limit: nat, failsAt: Option<nat>, summed: seq<LogEvent>)
    requires limit > 0
  {
    && multiset(summed) <= multiset(log)
    && (failsAt.None? ==> Settles(log, limit, summed))
    && Exactly(log, limit, failsAt, summed)
  }

  /** In particular, on the logs and servers the loop is meant for. */
  ghost predicate Exactly(log: seq<LogEvent>, limit: nat, failsAt: Option<nat>, summed: seq<LogEvent>) {
    && (Numbered(log) && failsAt.None? ==> summed == log)
    && (Numbered(log) && failsAt.Some? ==> summed <= log && |summed| == Covered(|log|, limit, failsAt.value))
    && (Unnumbered(log) && failsAt != Some(0) ==> summed <= log && |summed| == Min(|log|, limit))
  }

  /** On a numbered log, what has been summed and what is above the cursor make up the log. */
  ghost predicate Paging(log: seq<LogEvent>, limit: nat, after: Cursor, pages: nat, summed: seq<LogEvent>) {
    && (Numbered(log) ==> log == summed + After(log, after) && |summed| == Covered(|log|, limit, pages))
    && (pages == 0 ==> after == FromStart && summed == [])
    && (pages > 0 ==> !Unnumbered(log))
  }

  lemma PagingStart(log: seq<LogEvent>, limit: nat)
    ensures Paging(log, limit, FromStart, 0, [])
    ensures limit > 0 ==> Ledger(log, limit, [], After(log, FromStart))
  {
    KeepAll(log, Above(FromStart));
    assert [] + log == log;
  }

  /** A page with events is billed and passed; the cursor only fails to advance on a log without ids. */
  lemma PagingNext(log: seq<LogEvent>, limit: nat, after: Cursor, pages: nat, summed: seq<LogEvent>, failsAt: Option<nat>,
                   page: seq<LogEvent>, highest: nat)
    requires limit > 0 && Paging(log, limit, after, pages, summed)
    requires page == Page(log, after, limit) && page != [] && highest == Highest(page)
    ensures |After(log, Past(highest))| < |After(log, after)|
    ensures if (after.Past? && highest <= after.id) || highest == 0
            then Exactly(log, limit, failsAt, summed + page)
            else Paging(log, limit, Past(highest), pages + 1, summed + page)
  {
    var todo := After(log, after);
    PageAdvances(log, after, page, todo);
    Regroup(summed, page, todo);
    if pages == 0 {
      KeepAll(log, Above(FromStart));
      assert summed + page == page;
    }
  }

  lemma PagingEmpty(log: seq<LogEvent>, limit: nat, after: Cursor, pages: nat, summed: seq<LogEvent>, failsAt: Option<nat>)
    requires limit > 0 && Paging(log, limit, after, pages, summed) && Page(log, after, limit) == []
    requires failsAt.Some? ==> pages <= failsAt.value
    ensures Exactly(log, limit, failsAt, summed)
  {
    assert After(log, after) == [] && summed + [] == summed;
    if pages == 0 {
      KeepAll(log, Above(FromStart));
    }
    if Numbered(log) && failsAt.Some? {
      CoveredAllStays(|log|, limit, pages, failsAt.value);
    }
  }

  /** One page: billed, and the cursor moved past it. */
  lemma PageNext(log: seq<LogEvent>, limit: nat, after: Cursor, summed: seq<LogEvent>, page: seq<LogEvent>, highest: nat)
    requires limit > 0 && Ledger(log, limit, summed, After(log, after))
    requires page == Page(log, after, limit) && page != [] && highest == Highest(page)
    ensures after.Past? ==> highest > after.id
    ensures if highest == 0 then Settles(log, limit, summed + page)
            else Ledger(log, limit, summed + page, After(log, Past(highest)))
  {
    var todo := After(log, after);
    PageAdvances(log, after, page, todo);
    NextTodo(log, after, page, todo);
    assert page == todo[..Min(|todo|, limit)];
    LedgerNext(log, limit, summed, todo, page, After(log, Past(highest)));
  }

  ghost predicate Books(log: seq<LogEvent>, limit: nat, after: Cursor, pages: nat, summed: seq<LogEvent>)
    requires limit > 0
  {
    Paging(log, limit, after, pages, summed) && Ledger(log, limit, summed, After(log, after))
  }

  lemma BooksNext(log: seq<LogEvent>, limit: nat, after: Cursor, pages: nat, summed: seq<LogEvent>, failsAt: Option<nat>,
                  page: seq<LogEvent>, highest: nat)
    requires limit > 0 && Books(log, limit, after, pages, summed)
    requires page == Page(log, after, limit) && page != [] && highest == Highest(page)
    ensures |After(log, Past(highest))| < |After(log, after)|
    ensures if (after.Past? && highest <= after.id) || highest == 0
            then Bills(log, limit, failsAt, summed + page)
            else Books(log, limit, Past(highest), pages + 1, summed + page)
  {
    PagingNext(log, limit, after, pages, summed, failsAt, page, highest);
    PageNext(log, limit, after, summed, page, highest);
  }

  lemma BooksEnd(log: seq<LogEvent>, limit: nat, after: Cursor, pages: nat, summed: seq<LogEvent>, failsAt: Option<nat>)
    requires limit > 0 && Books(log, limit, after, pages, summed)
    requires failsAt.Some? ==> pages <= failsAt.value
    requires (failsAt.Some? && failsAt.value == pages) || Page(log, after, limit) == []
    ensures Bills(log, limit, failsAt, summed)
  {
    if !(failsAt.Some? && failsAt.value == pages) {
      PagingEmpty(log, limit, after, pages, summed, failsAt);
      assert After(log, after) == [];
      LedgerEnd(log, limit, summed);
    }
  }

  lemma CursorAdvances(log: seq<LogEvent>, after: Cursor, page: seq<LogEvent>)
    requires page <= After(log, after) && page != []
    ensures |After(log, Past(Highest(page)))| < |After(log, after)|
  {
    PageAdvances(log, after, page, After(log, after));
  }

  predicate Refused(pages: nat, failsAt: Option<nat>) {
    failsAt.Some? && failsAt.value == pages
  }

  /** The loop ends with this page: no id in it is above the cursor, or none is set. */
  predicate LastPage(after: Cursor, page: seq<LogEvent>) {
    (after.Past? && Highest(page) <= after.id) || Highest(page) == 0
  }

  /** What the loop bills from a cursor on, after some pages. */
  function Billed(log: seq<LogEvent>, limit: nat, after: Cursor, pages: nat, failsAt: Option<nat>): seq<LogEvent>
    requires limit > 0
    decreases |After(log, after)|
  {
    var page := Page(log, after, limit);
    if page == [] || Refused(pages, failsAt) then []
    else if LastPage(after, page) then page
    else
      CursorAdvances(log, after, page);
      page + Billed(log, limit, Past(Highest(page)), pages + 1, failsAt)
  }

  lemma BilledNext(log: seq<LogEvent>, limit: nat, after: Cursor, pages: nat, failsAt: Option<nat>,
                   summed: seq<LogEvent>, page: seq<LogEvent>)
    requires limit > 0 && page == Page(log, after, limit)
    ensures summed + Billed(log, limit, after, pages, failsAt) ==
              if page == [] || Refused(pages, failsAt) then summed
              else if LastPage(after, page) then summed + page
              else (summed + page) + Billed(log, limit, Past(Highest(page)), pages + 1, failsAt)
    ensures page != [] ==> |After(log, Past(Highest(page)))| < |After(log, after)|
  {
    if page != [] {
      CursorAdvances(log, after, page);
      Associate(summed, page, Billed(log, limit, Past(Highest(page)), pages + 1, failsAt));
    }
  }

  lemma {:induction false} BilledBooks(log: seq<LogEvent>, limit: nat, after: Cursor, pages: nat, failsAt: Option<nat>,
                                       summed: seq<LogEvent>, all: seq<LogEvent>)
    requires limit > 0 && Books(log, limit, after, pages, summed) && (failsAt.Some? ==> pages <= failsAt.value)
    requires all == summed + Billed(log, limit, after, pages, failsAt)
    ensures Bills(log, limit, failsAt, all)
    decreases |After(log, after)|
  {
    var page := Page(log, after, limit);
    BilledNext(log, limit, after, pages, failsAt, summed, page);
    if page == [] || Refused(pages, failsAt) {
      BooksEnd(log, limit, after, pages, summed, failsAt);
    } else {
      BooksNext(log, limit, after, pages, summed, failsAt, page, Highest(page));
      if !LastPage(after, page) {
        BilledBooks(log, limit, Past(Highest(page)), pages + 1, failsAt, summed + page, all);
      }
    }
  }

  /** For every log, page size and failing request: what the loop bills. */
  lemma BilledOnce(log: seq<LogEvent>, limit: nat, failsAt: Option<nat>)
    requires limit > 0
    ensures Bills(log, limit, failsAt, Billed(log, limit, FromStart, 0, failsAt))
  {
    var all := Billed(log, limit, FromStart, 0, failsAt);
    PagingStart(log, limit);
    assert all == [] + all;
    BilledBooks(log, limit, FromStart, 0, failsAt, [], all);
  }

  lemma NumberedBilled(log: seq<LogEvent>, limit: nat)
    requires limit > 0 && Numbered(log)
    ensures Billed(log, limit, FromStart, 0, None) == log
  {
    BilledOnce(log, limit, None);
  }

  /**
   * The paging loop. `failsAt` is the first request, counted from 0, that the server answers with an
   * error; the pages before it are still reported.
   */
  method PagedUsage(log: seq<LogEvent>, limit: nat, failsAt: Option<nat>) returns (tokens: nat, cost: nat)
    requires limit > 0
    ensures tokens == TokenSum(Billed(log, limit, FromStart, 0, failsAt)) && cost == CostSum(Billed(log, limit, FromStart, 0, failsAt))
    ensures Numbered(log) && failsAt.None? ==> tokens == TokenSum(log) && cost == CostSum(log)
  {
    tokens, cost := 0, 0;
    var after: Cursor := FromStart;
    var pages := 0;
    ghost var summed: seq<LogEvent>, all := [], Billed(log, limit, FromStart, 0, failsAt);
    assert [] + all == all;
    if Numbered(log) && failsAt.None? {
      NumberedBilled(log, limit);
    }
    while true
      invariant tokens == TokenSum(summed) && cost == CostSum(summed)
      invariant summed + Billed(log, limit, after, pages, failsAt) == all
      decreases |After(log, after)|
    {
      var page := Page(log, after, limit);
      BilledNext(log, limit, after, pages, failsAt, summed, page);
      if (failsAt.Some? && failsAt.value == pages) || page == [] {
        return;
      }
      var t, c := SumUsage(page);
      SumsAppend(summed, page);
      tokens, cost, summed := tokens + t, cost + c, summed + page;
      var highest := Highest(page);
      if (after.Past? && highest <= after.id) || highest == 0 {
        return;
      }
      after, pages := Past(highest), pages + 1;
    }
  }

  lemma Regroup(before: seq<LogEvent>, page: seq<LogEvent>, todo: seq<LogEvent>)
    requires page <= todo
    ensures before + todo == (before + page) + todo[|page|..]
  {
  }
}
