/** The unified-diff line parser that positions review comments. */
module PatchLines {
  import opened Prelude
  import opened Lines
  import ScriptText
  import opened Decimal

  datatype Kind = HunkHeader | FileHeader | Added | Deleted | Context | Meta

  /** A line number, or none. */
  datatype Position = At(line: int) | Nowhere

  datatype PatchLine = PatchLine(text: Bytes, kind: Kind, file: Bytes, oldLine: Position, newLine: Position)

  /** The line numbers a hunk header announces for the old and the new file. */
  datatype Start = Start(old_: nat, new_: nat)

  predicate StartsWith(s: Bytes, prefix: string)
    ensures StartsWith(s, prefix) && prefix != "" ==> s != [] && s[0] == prefix[0] as int
  {
    Ascii(prefix) <= s
  }

  predicate IsFileHeader(raw: Bytes) {
    || StartsWith(raw, "diff --git ") || StartsWith(raw, "index ") || StartsWith(raw, "new file")
    || StartsWith(raw, "deleted file") || StartsWith(raw, "old mode") || StartsWith(raw, "new mode")
    || StartsWith(raw, "similarity index") || StartsWith(raw, "rename from") || StartsWith(raw, "rename to")
    || StartsWith(raw, "Binary files") || StartsWith(raw, "GIT binary patch")
    || StartsWith(raw, "---") || StartsWith(raw, "+++")
  }

  function KindOf(raw: Bytes): Kind {
    if IsFileHeader(raw) then FileHeader
    else if StartsWith(raw, "@@") then HunkHeader
    else if StartsWith(raw, "\\ No newline") then Meta
    else if StartsWith(raw, "+") then Added
    else if StartsWith(raw, "-") then Deleted
    else if StartsWith(raw, " ") then Context
    else Meta
  }

  // ----- hunk headers -------------------------------------------------------------------------

  function DigitRun(s: Bytes): (n: nat)
    ensures n <= |s|
  {
    if s != [] && 48 <= s[0] <= 57 then 1 + DigitRun(s[1..]) else 0
  }

  lemma {:induction false} DigitRunDigits(s: Bytes)
    ensures forall i :: 0 <= i < DigitRun(s) ==> 48 <= s[i] <= 57
  {
    if s != [] && 48 <= s[0] <= 57 {
      DigitRunDigits(s[1..]);
      assert forall i :: 0 < i < DigitRun(s) ==> s[i] == s[1..][i - 1];
    }
  }

  /** What follows an optional `,count`. */
  function SkipCount(s: Bytes): Bytes {
    var m := if s != [] && s[0] == 44 then DigitRun(s[1..]) else 0;
    if m > 0 then s[1 + m..] else s
  }

  /** A number with an optional `,count`, and what follows. */
  function TakeCount(s: Bytes): Option<(nat, Bytes)> {
    var n := DigitRun(s);
    DigitRunDigits(s);
    if n == 0 then None else Some((Value(Numeral(s[..n])), SkipCount(s[n..])))
  }

  /** `@@ -a(,b)? +c(,d)? @@` at the front of the line. */
  function HeaderOf(raw: Bytes): Option<Start> {
    if !StartsWith(raw, "@@ -") then None
    else
      var old_ := TakeCount(raw[4..]);
      if old_.None? || !StartsWith(old_.value.1, " +") then None
      else
        var new_ := TakeCount(old_.value.1[2..]);
        if new_.None? || !StartsWith(new_.value.1, " @@") then None
        else Some(Start(old_.value.0, new_.value.0))
  }

  /** An optional `,count`. */
  function CountText(n: Option<nat>): Bytes {
    if n.Some? then [44] + Ascii(Digits(n.value)) else []
  }

  /** A hunk header as a diff writes it, with whatever follows on the line. */
  function HeaderText(start: Start, oldCount: Option<nat>, newCount: Option<nat>, tail: Bytes): Bytes {
    Ascii("@@ -") + (Ascii(Digits(start.old_)) + CountText(oldCount) +
      (Ascii(" +") + (Ascii(Digits(start.new_)) + CountText(newCount) + (Ascii(" @@") + tail))))
  }

  lemma {:induction false} DigitRunIs(s: Bytes, rest: Bytes)
    requires forall i :: 0 <= i < |s| ==> 48 <= s[i] <= 57
    requires rest == [] || !(48 <= rest[0] <= 57)
    ensures DigitRun(s + rest) == |s|
  {
    if s == [] {
      assert s + rest == rest;
    } else {
      assert (s + rest)[1..] == s[1..] + rest;
      DigitRunIs(s[1..], rest);
    }
  }

  lemma NumeralOfDigits(n: nat)
    ensures forall i :: 0 <= i < |Ascii(Digits(n))| ==> 48 <= Ascii(Digits(n))[i] <= 57
    ensures Value(Numeral(Ascii(Digits(n)))) == n
  {
    var d := Ascii(Digits(n));
    assert forall i :: 0 <= i < |d| ==> IsDigit(Digits(n)[i]) && d[i] == Digits(n)[i] as int;
    assert Numeral(d) == Digits(n);
    ValueOfDigits(n);
  }

  lemma CommaSkipped(e: Bytes, rest: Bytes)
    requires e != [] && (forall i :: 0 <= i < |e| ==> 48 <= e[i] <= 57) && rest != [] && rest[0] == 32
    ensures SkipCount([44] + e + rest) == rest
  {
    var s := [44] + e + rest;
    assert s[1..] == e + rest && s[1 + |e|..] == rest;
    DigitRunIs(e, rest);
  }

  lemma CountSkipped(count: Option<nat>, rest: Bytes)
    requires rest != [] && rest[0] == 32
    ensures SkipCount(CountText(count) + rest) == rest
  {
    if count.Some? {
      NumeralOfDigits(count.value);
      CommaSkipped(Ascii(Digits(count.value)), rest);
    } else {
      assert CountText(count) + rest == rest;
    }
  }

  lemma TakeCountReads(n: nat, count: Option<nat>, rest: Bytes)
    requires rest != [] && rest[0] == 32
    ensures TakeCount(Ascii(Digits(n)) + CountText(count) + rest) == Some((n, rest))
  {
    var d, more := Ascii(Digits(n)), CountText(count) + rest;
    Associate(d, CountText(count), rest);
    NumeralOfDigits(n);
    DigitRunIs(d, more);
    assert (d + more)[..|d|] == d && (d + more)[|d|..] == more;
    CountSkipped(count, rest);
  }

  lemma StartsWithText(p: string, rest: Bytes)
    ensures StartsWith(Ascii(p) + rest, p) && (Ascii(p) + rest)[|p|..] == rest
  {
  }

  /** A header a diff writes is read back to its two starts, whichever counts it carries. */
  lemma HeaderRoundTrip(start: Start, oldCount: Option<nat>, newCount: Option<nat>, tail: Bytes)
    ensures HeaderOf(HeaderText(start, oldCount, newCount, tail)) == Some(start)
  {
    var end := Ascii(" @@") + tail;
    var b := Ascii(Digits(start.new_)) + CountText(newCount) + end;
    var middle := Ascii(" +") + b;
    var a := Ascii(Digits(start.old_)) + CountText(oldCount) + middle;
    StartsWithText("@@ -", a);
    TakeCountReads(start.old_, oldCount, middle);
    StartsWithText(" +", b);
    TakeCountReads(start.new_, newCount, end);
    StartsWithText(" @@", tail);
  }

  /** The header that resets the counters at a line, if it does. */
  function ResetAt(raw: Bytes): Option<Start> {
    if KindOf(raw).HunkHeader? then HeaderOf(raw) else None
  }

  // ----- files --------------------------------------------------------------------------------

  function StripPrefix(s: Bytes, prefix: string): Bytes {
    if StartsWith(s, prefix) then s[|prefix|..] else s
  }

  /** The file a line names, if it does. */
  function NamedBy(raw: Bytes): Option<Bytes> {
    if StartsWith(raw, "--- ") || StartsWith(raw, "+++ ") then
      var f := StripPrefix(StripPrefix(ScriptText.Trim(raw[4..]), "a/"), "b/");
      if f != [] && f != Ascii("/dev/null") then Some(f) else None
    else None
  }

  // ----- line numbers -------------------------------------------------------------------------

  /** A line, what kind it is, the counters it resets and the file it names. */
  datatype Item = Item(raw: Bytes, kind: Kind, reset: Option<Start>, names: Option<Bytes>) {
    predicate InNew() {
      kind.Added? || kind.Context?
    }

    predicate InOld() {
      kind.Deleted? || kind.Context?
    }

    /** The text shown: without its sign, if it has one. */
    function Shown(): Bytes {
      if (InNew() || InOld()) && raw != [] then raw[1..] else raw
    }
  }

  function ItemOf(raw: Bytes): Item {
    Item(raw, KindOf(raw), ResetAt(raw), NamedBy(raw))
  }

  function ItemsOf(lines: seq<Bytes>): (items: seq<Item>)
    ensures |items| == |lines|
  {
    Map(ItemOf, lines)
  }

  datatype Counters = Counters(oldNo: int, newNo: int)

  function Count(c: Counters, m: Item): Counters {
    if m.reset.Some? then Counters(m.reset.value.old_ - 1, m.reset.value.new_ - 1)
    else Counters(c.oldNo + (if m.InOld() then 1 else 0), c.newNo + (if m.InNew() then 1 else 0))
  }

  /** The counters after some lines. */
  function CountAll(items: seq<Item>): Counters {
    if items == [] then Counters(0, 0) else Count(CountAll(items[..|items| - 1]), items[|items| - 1])
  }

  /** How many of some lines are in the new file, and in the old one. */
  function NewLines(items: seq<Item>): nat {
    if items == [] then 0 else NewLines(items[..|items| - 1]) + if items[|items| - 1].InNew() then 1 else 0
  }

  function OldLines(items: seq<Item>): nat {
    if items == [] then 0 else OldLines(items[..|items| - 1]) + if items[|items| - 1].InOld() then 1 else 0
  }

  /** The file named last. */
  function FileAt(items: seq<Item>): Bytes {
    if items == [] then []
    else if items[|items| - 1].names.Some? then items[|items| - 1].names.value
    else FileAt(items[..|items| - 1])
  }

  function RecordOf(m: Item, c: Counters, file: Bytes): PatchLine {
    PatchLine(m.Shown(), m.kind, file,
              if m.InOld() then At(c.oldNo + 1) else Nowhere,
              if m.InNew() then At(c.newNo + 1) else Nowhere)
  }

  function Records(items: seq<Item>): (rs: seq<PatchLine>)
    ensures |rs| == |items|
  {
    if items == [] then []
    else
      var init, last := items[..|items| - 1], items[|items| - 1];
      Records(init) + [RecordOf(last, CountAll(init), FileAt(items))]
  }

  /** Each record is determined by the lines up to it. */
  lemma {:induction false} RecordAt(before: seq<Item>, m: Item, after: seq<Item>)
    ensures Records(before + [m] + after)[|before|] == RecordOf(m, CountAll(before), FileAt(before + [m]))
    decreases |after|
  {
    var all := before + [m] + after;
    if after == [] {
      assert all == before + [m] && all[..|before|] == before;
    } else {
      var n := |after| - 1;
      assert all[..|all| - 1] == before + [m] + after[..n];
      RecordAt(before, m, after[..n]);
    }
  }

  /** The counters after a hunk header and some lines of its hunk: the hunk's start less one, plus the lines counted. */
  lemma {:induction false} HunkCounters(before: seq<Item>, header: Item, body: seq<Item>)
    requires header.reset.Some? && forall i :: 0 <= i < |body| ==> body[i].reset.None?
    ensures CountAll(before + [header] + body) ==
              Counters(header.reset.value.old_ - 1 + OldLines(body), header.reset.value.new_ - 1 + NewLines(body))
    decreases |body|
  {
    var all := before + [header] + body;
    if body == [] {
      assert all[..|all| - 1] == before;
    } else {
      HunkCounters(before, header, body[..|body| - 1]);
      assert all[..|all| - 1] == before + [header] + body[..|body| - 1];
    }
  }

  /**
   * Every line of a hunk that is in the new (old) file is numbered with the hunk's new (old) start plus
   * the number of earlier lines of the hunk in that file, whatever precedes the hunk or follows the line.
   */
  lemma HunkNumbering(before: seq<Item>, header: Item, body: seq<Item>, m: Item, after: seq<Item>)
    requires header.reset.Some? && forall i :: 0 <= i < |body| ==> body[i].reset.None?
    ensures var r := Records(before + [header] + body + [m] + after)[|before| + 1 + |body|];
      && r.newLine == (if m.InNew() then At(header.reset.value.new_ + NewLines(body)) else Nowhere)
      && r.oldLine == (if m.InOld() then At(header.reset.value.old_ + OldLines(body)) else Nowhere)
      && r.text == m.Shown() && r.kind == m.kind && r.file == FileAt(before + [header] + body + [m])
  {
    RecordAt(before + [header] + body, m, after);
    HunkCounters(before, header, body);
  }

  /** Only file headers name a file, only hunk headers reset the counters, and a sign takes up a place. */
  predicate WellSorted(m: Item) {
    && (!m.kind.FileHeader? ==> m.names.None?)
    && (!m.kind.HunkHeader? ==> m.reset.None?)
    && (m.InNew() || m.InOld() ==> m.raw != [])
  }

  lemma ItemsAreSorted(raw: Bytes)
    ensures WellSorted(ItemOf(raw))
  {
    OnlyFileHeadersName(raw);
  }

  lemma OnlyFileHeadersName(raw: Bytes)
    ensures KindOf(raw).FileHeader? || NamedBy(raw).None?
  {
  }

  /** One turn of the parser's loop. */
  method ParseLine(m: Item, file0: Bytes, c0: Counters) returns (r: PatchLine, file: Bytes, c: Counters)
    requires WellSorted(m)
    ensures file == if m.names.Some? then m.names.value else file0
    ensures c == Count(c0, m) && r == RecordOf(m, c0, file)
  {
    file := file0;
    var oldNo, newNo := c0.oldNo, c0.newNo;
    match m.kind {
      case FileHeader =>
        if m.names.Some? {
          file := m.names.value;
        }
        r := PatchLine(m.raw, FileHeader, file, Nowhere, Nowhere);
      case HunkHeader =>
        if m.reset.Some? {
          oldNo, newNo := m.reset.value.old_ - 1, m.reset.value.new_ - 1;
        }
        r := PatchLine(m.raw, HunkHeader, file, Nowhere, Nowhere);
      case Added =>
        newNo := newNo + 1;
        r := PatchLine(m.raw[1..], Added, file, Nowhere, At(newNo));
      case Deleted =>
        oldNo := oldNo + 1;
        r := PatchLine(m.raw[1..], Deleted, file, At(oldNo), Nowhere);
      case Context =>
        oldNo, newNo := oldNo + 1, newNo + 1;
        r := PatchLine(m.raw[1..], Context, file, At(oldNo), At(newNo));
      case Meta =>
        r := PatchLine(m.raw, Meta, file, Nowhere, Nowhere);
    }
    c := Counters(oldNo, newNo);
  }

  lemma OneMore(lines: seq<Bytes>, i: nat)
    requires i < |lines|
    ensures var a, b := ItemsOf(lines[..i]), ItemsOf(lines[..i + 1]);
      b == a + [ItemOf(lines[i])] && b[..|b| - 1] == a && b[|b| - 1] == ItemOf(lines[i])
  {
    assert lines[..i + 1] == lines[..i] + [lines[i]];
    MapSnoc(ItemOf, lines[..i], lines[i]);
  }

  /** `parsePatchLines`: one record per line of the patch. */
  method ParsePatchLines(patch: Bytes) returns (out: seq<PatchLine>)
    ensures out == RecordsOf(patch) && |out| == |Split(patch)|
  {
    var lines := Split(patch);
    out := [];
    var file: Bytes := [];
    var c := Counters(0, 0);
    for i := 0 to |lines|
      invariant out == Records(ItemsOf(lines[..i]))
      invariant c == CountAll(ItemsOf(lines[..i])) && file == FileAt(ItemsOf(lines[..i]))
    {
      OneMore(lines, i);
      ItemsAreSorted(lines[i]);
      var r;
      r, file, c := ParseLine(ItemOf(lines[i]), file, c);
      out := out + [r];
    }
    assert lines[..|lines|] == lines;
  }

  // ----- hunks of a patch text ----------------------------------------------------------------

  predicate SignedNew(raw: Bytes) {
    StartsWith(raw, "+") || StartsWith(raw, " ")
  }

  predicate SignedOld(raw: Bytes) {
    StartsWith(raw, "-") || StartsWith(raw, " ")
  }

  /** A line a diff writes in the body of a hunk. */
  predicate HunkLine(raw: Bytes) {
    SignedNew(raw) || SignedOld(raw) || StartsWith(raw, "\\ No newline")
  }

  predicate LooksLikeHeader(raw: Bytes) {
    StartsWith(raw, "---") || StartsWith(raw, "+++")
  }

  function SignKind(raw: Bytes): Kind {
    if StartsWith(raw, "+") then Added else if StartsWith(raw, "-") then Deleted
    else if StartsWith(raw, " ") then Context else Meta
  }

  /** Of the file headers, only `---` and `+++` start like a line of a hunk. */
  lemma SignedHeaders(raw: Bytes)
    requires raw != [] && raw[0] in {32, 43, 45, 64, 92}
    ensures IsFileHeader(raw) <==> LooksLikeHeader(raw)
  {
  }

  /** A hunk line is classified by its sign exactly when it does not look like a file header, and as one when it does. */
  lemma SignDecides(raw: Bytes)
    requires HunkLine(raw)
    ensures KindOf(raw) == if LooksLikeHeader(raw) then FileHeader else SignKind(raw)
    ensures KindOf(raw) == SignKind(raw) <==> !LooksLikeHeader(raw)
  {
    SignedHeaders(raw);
  }

  /** An item that stands for a line of a hunk as the parser takes it. */
  predicate Stands(m: Item, raw: Bytes) {
    && m.raw == raw && raw != [] && m.reset.None? && (!LooksLikeHeader(raw) ==> m.names.None?)
    && m.kind == (if LooksLikeHeader(raw) then FileHeader else SignKind(raw))
  }

  lemma HunkItem(raw: Bytes)
    requires HunkLine(raw)
    ensures Stands(ItemOf(raw), raw)
  {
    SignDecides(raw);
    OnlyFileHeadersName(raw);
  }

  /** How many of some lines carry a sign of the new file, and of the old one. */
  function CountNew(body: seq<Bytes>): nat {
    if body == [] then 0 else CountNew(body[..|body| - 1]) + if SignedNew(body[|body| - 1]) then 1 else 0
  }

  function CountOld(body: seq<Bytes>): nat {
    if body == [] then 0 else CountOld(body[..|body| - 1]) + if SignedOld(body[|body| - 1]) then 1 else 0
  }

  /** The signed lines that look like file headers. */
  function Lookalikes(body: seq<Bytes>): seq<Bytes> {
    if body == [] then []
    else
      var init, last := body[..|body| - 1], body[|body| - 1];
      if LooksLikeHeader(last) then Lookalikes(init) + [last] else Lookalikes(init)
  }

  lemma CountAppend(a: seq<Bytes>, b: Bytes)
    ensures CountNew(a + [b]) == CountNew(a) + (if SignedNew(b) then 1 else 0)
    ensures CountOld(a + [b]) == CountOld(a) + (if SignedOld(b) then 1 else 0)
  {
    assert (a + [b])[..|a|] == a;
  }

  lemma StandsIn(m: Item, raw: Bytes)
    requires Stands(m, raw)
    ensures m.InNew() <==> SignedNew(raw) && !LooksLikeHeader(raw)
    ensures m.InOld() <==> SignedOld(raw) && !LooksLikeHeader(raw)
  {
  }

  /** The parser counts the signed lines less the lookalikes. */
  lemma {:induction false} CountedLines(items: seq<Item>, body: seq<Bytes>)
    requires |items| == |body| && forall i :: 0 <= i < |body| ==> Stands(items[i], body[i])
    ensures NewLines(items) == CountNew(body) - CountNew(Lookalikes(body))
    ensures OldLines(items) == CountOld(body) - CountOld(Lookalikes(body))
  {
    if body != [] {
      var n := |body| - 1;
      CountedLines(items[..n], body[..n]);
      StandsIn(items[n], body[n]);
      if LooksLikeHeader(body[n]) {
        CountAppend(Lookalikes(body[..n]), body[n]);
      }
    }
  }

  /** What a hunk line's record should be: its sign's kind, numbered from the hunk's start by the signed lines before it. */
  function ProperRecord(start: Start, body: seq<Bytes>, i: nat, file: Bytes): PatchLine
    requires i < |body|
  {
    var raw := body[i];
    PatchLine(if SignedNew(raw) || SignedOld(raw) then raw[1..] else raw, SignKind(raw), file,
              if SignedOld(raw) then At(start.old_ + CountOld(body[..i])) else Nowhere,
              if SignedNew(raw) then At(start.new_ + CountNew(body[..i])) else Nowhere)
  }

  /** Numbers too low by the lookalikes before the line. */
  function Shifted(r: PatchLine, lost: seq<Bytes>): PatchLine {
    r.(oldLine := if r.oldLine.At? then At(r.oldLine.line - CountOld(lost)) else Nowhere,
       newLine := if r.newLine.At? then At(r.newLine.line - CountNew(lost)) else Nowhere)
  }

  /** A hunk in a patch: a header line as a diff writes it, and its lines. */
  datatype Hunk = Hunk(start: Start, oldCount: Option<nat>, newCount: Option<nat>, tail: Bytes, body: seq<Bytes>) {
    function Header(): Bytes {
      HeaderText(start, oldCount, newCount, tail)
    }

    function Lines(): seq<Bytes> {
      [Header()] + body
    }

    predicate Proper() {
      LF !in tail && LineFree(body) && forall i :: 0 <= i < |body| ==> HunkLine(body[i])
    }
  }

  function RecordsOf(patch: Bytes): seq<PatchLine> {
    Records(ItemsOf(Split(patch)))
  }

  lemma HeaderKind(h: Hunk)
    ensures KindOf(h.Header()) == HunkHeader
  {
    var raw := h.Header();
    assert raw[0] == 64 && raw[1] == 64;
    SignedHeaders(raw);
    assert Ascii("@@") <= raw;
  }

  lemma HeaderResets(h: Hunk)
    ensures ItemOf(h.Header()).reset == Some(h.start) && ItemOf(h.Header()).names.None?
  {
    HeaderRoundTrip(h.start, h.oldCount, h.newCount, h.tail);
    HeaderKind(h);
    OnlyFileHeadersName(h.Header());
  }

  lemma HeaderIsLine(h: Hunk)
    requires LF !in h.tail
    ensures LF !in h.Header()
  {
    NumeralOfDigits(h.start.old_);
    NumeralOfDigits(h.start.new_);
    CountIsLine(h.oldCount);
    CountIsLine(h.newCount);
  }

  lemma CountIsLine(n: Option<nat>)
    ensures LF !in CountText(n)
  {
    if n.Some? {
      NumeralOfDigits(n.value);
    }
  }

  lemma MapParts<A, B>(f: A -> B, a: seq<A>, x: A, b: seq<A>, y: A, c: seq<A>)
    ensures Map(f, a + [x] + b + [y] + c) == Map(f, a) + [f(x)] + Map(f, b) + [f(y)] + Map(f, c)
  {
  }

  lemma HunkParts(before: seq<Bytes>, h: Hunk, after: seq<Bytes>, i: nat)
    requires i < |h.body|
    ensures before + h.Lines() + after == before + [h.Header()] + h.body[..i] + [h.body[i]] + (h.body[i + 1..] + after)
  {
  }

  lemma PatchIsLines(before: seq<Bytes>, h: Hunk, after: seq<Bytes>)
    requires LineFree(before) && h.Proper() && LineFree(after)
    ensures Split(Join(before + h.Lines() + after)) == before + h.Lines() + after
  {
    HeaderIsLine(h);
    SplitJoin(before + h.Lines() + after);
  }

  /** The record of a hunk line among items that stand for the hunk. */
  lemma ItemRecord(before: seq<Item>, header: Item, items: seq<Item>, m: Item, after: seq<Item>, start: Start, body: seq<Bytes>,
                   r: PatchLine)
    requires header.reset == Some(start) && header.names.None? && |body| == |items| + 1 && Stands(m, body[|items|])
    requires forall k :: 0 <= k < |items| ==> Stands(items[k], body[k])
    requires r == Records(before + [header] + items + [m] + after)[|before| + 1 + |items|]
    ensures RecordMeans(r, start, FileAt(before), body, |items|)
  {
    var i := |items|;
    HunkNumbering(before, header, items, m, after);
    CountedLines(items, body[..i]);
    if Lookalikes(body[..i]) == [] && !LooksLikeHeader(body[i]) {
      ItemFile(before, header, items, m, body[..i]);
    }
    RecordFrom(r, m, start, FileAt(before), body, i, NewLines(items), OldLines(items));
  }

  lemma RecordFrom(r: PatchLine, m: Item, start: Start, file: Bytes, body: seq<Bytes>, i: nat, newLines: int, oldLines: int)
    requires i < |body| && Stands(m, body[i]) && r.text == m.Shown() && r.kind == m.kind
    requires newLines == CountNew(body[..i]) - CountNew(Lookalikes(body[..i]))
    requires oldLines == CountOld(body[..i]) - CountOld(Lookalikes(body[..i]))
    requires r.newLine == if m.InNew() then At(start.new_ + newLines) else Nowhere
    requires r.oldLine == if m.InOld() then At(start.old_ + oldLines) else Nowhere
    requires Lookalikes(body[..i]) == [] && !LooksLikeHeader(body[i]) ==> r.file == file
    ensures RecordMeans(r, start, file, body, i)
  {
    StandsIn(m, body[i]);
  }

  lemma ItemFile(before: seq<Item>, header: Item, items: seq<Item>, m: Item, body: seq<Bytes>)
    requires header.names.None? && m.names.None? && |items| == |body| && Lookalikes(body) == []
    requires forall k :: 0 <= k < |items| ==> Stands(items[k], body[k])
    ensures FileAt(before + [header] + items + [m]) == FileAt(before)
  {
    FileKept(before, header, items, body);
    var all := before + [header] + items;
    assert (all + [m])[..|all|] == all;
  }

  /** Lines that are no lookalikes name no file. */
  lemma {:induction false} FileKept(before: seq<Item>, header: Item, items: seq<Item>, body: seq<Bytes>)
    requires header.names.None? && |items| == |body| && Lookalikes(body) == []
    requires forall k :: 0 <= k < |items| ==> Stands(items[k], body[k])
    ensures FileAt(before + [header] + items) == FileAt(before)
    decreases |items|
  {
    var all := before + [header] + items;
    if items == [] {
      assert all[..|all| - 1] == before;
    } else {
      var n := |items| - 1;
      assert all[..|all| - 1] == before + [header] + items[..n];
      FileKept(before, header, items[..n], body[..n]);
    }
  }

  /** Of a lookalike a file header's record, else the proper one, shifted; up to the first lookalike the file is the hunk's. */
  predicate RecordMeans(r: PatchLine, start: Start, file: Bytes, body: seq<Bytes>, i: nat) {
    && i < |body|
    && if LooksLikeHeader(body[i])
       then r.kind == FileHeader && r.oldLine == r.newLine == Nowhere
       else
         && r == Shifted(ProperRecord(start, body, i, r.file), Lookalikes(body[..i]))
         && (Lookalikes(body[..i]) == [] ==> r.file == file)
  }

  /** The same for any reading of lines as items. */
  lemma LineRecordBy(read: Bytes -> Item, before: seq<Bytes>, header: Bytes, start: Start, sofar: seq<Bytes>, raw: Bytes,
                     rest: seq<Bytes>, r: PatchLine)
    requires read(header).reset == Some(start) && read(header).names.None? && Stands(read(raw), raw)
    requires forall i :: 0 <= i < |sofar| ==> Stands(read(sofar[i]), sofar[i])
    requires r == Records(Map(read, before + [header] + sofar + [raw] + rest))[|before| + 1 + |sofar|]
    ensures RecordMeans(r, start, FileAt(Map(read, before)), sofar + [raw], |sofar|)
  {
    MapParts(read, before, header, sofar, raw, rest);
    ItemRecord(Map(read, before), read(header), Map(read, sofar), read(raw), Map(read, rest), start, sofar + [raw], r);
  }

  lemma LineRecord(before: seq<Bytes>, header: Bytes, start: Start, sofar: seq<Bytes>, raw: Bytes, rest: seq<Bytes>, r: PatchLine)
    requires ItemOf(header).reset == Some(start) && ItemOf(header).names.None? && HunkLine(raw)
    requires forall i :: 0 <= i < |sofar| ==> HunkLine(sofar[i])
    requires r == Records(ItemsOf(before + [header] + sofar + [raw] + rest))[|before| + 1 + |sofar|]
    ensures RecordMeans(r, start, FileAt(ItemsOf(before)), sofar + [raw], |sofar|)
  {
    forall i | 0 <= i < |sofar|
      ensures Stands(ItemOf(sofar[i]), sofar[i])
    {
      HunkItem(sofar[i]);
    }
    HunkItem(raw);
    LineRecordBy(ItemOf, before, header, start, sofar, raw, rest, r);
  }

  lemma LaterLinesIrrelevant(r: PatchLine, start: Start, file: Bytes, body: seq<Bytes>, i: nat)
    requires i < |body| && RecordMeans(r, start, file, body[..i] + [body[i]], i)
    ensures RecordMeans(r, start, file, body, i)
  {
    assert (body[..i] + [body[i]])[..i] == body[..i];
  }

  /** The records of a hunk's lines in a patch. */
  function HunkRecords(before: seq<Bytes>, h: Hunk, after: seq<Bytes>): (rs: seq<PatchLine>)
    requires LineFree(before) && h.Proper() && LineFree(after)
    ensures |rs| == |h.body|
  {
    PatchIsLines(before, h, after);
    RecordsOf(Join(before + h.Lines() + after))[|before| + 1..][..|h.body|]
  }

  lemma HunkRecordAt(before: seq<Bytes>, h: Hunk, after: seq<Bytes>, i: nat, sofar: seq<Bytes>, rest: seq<Bytes>)
      returns (r: PatchLine)
    requires LineFree(before) && h.Proper() && LineFree(after) && i < |h.body|
    requires sofar == h.body[..i] && rest == h.body[i + 1..] + after
    ensures r == HunkRecords(before, h, after)[i]
    ensures r == Records(ItemsOf(before + [h.Header()] + sofar + [h.body[i]] + rest))[|before| + 1 + |sofar|]
    ensures forall k :: 0 <= k < |sofar| ==> HunkLine(sofar[k])
  {
    r := HunkRecords(before, h, after)[i];
    PatchIsLines(before, h, after);
    HunkParts(before, h, after, i);
  }

  /** What the record of any line of any hunk of a patch is. */
  lemma HunkRecord(before: seq<Bytes>, h: Hunk, after: seq<Bytes>, i: nat)
    requires LineFree(before) && h.Proper() && LineFree(after) && i < |h.body|
    ensures RecordMeans(HunkRecords(before, h, after)[i], h.start, FileAt(ItemsOf(before)), h.body, i)
  {
    var sofar, raw, rest := h.body[..i], h.body[i], h.body[i + 1..] + after;
    var r := HunkRecordAt(before, h, after, i, sofar, rest);
    HeaderResets(h);
    LineRecord(before, h.Header(), h.start, sofar, raw, rest, r);
    LaterLinesIrrelevant(r, h.start, FileAt(ItemsOf(before)), h.body, i);
  }

  lemma {:induction false} NoLookalikes(body: seq<Bytes>)
    requires forall i :: 0 <= i < |body| ==> !LooksLikeHeader(body[i])
    ensures Lookalikes(body) == []
  {
    if body != [] {
      NoLookalikes(body[..|body| - 1]);
    }
  }

  /**
   * For every patch: all lines of a hunk get the file named last before it, their kind from their sign and
   * their numbers from the hunk's start plus the earlier lines of that sign, if and only if none of them
   * looks like a file header.
   */
  lemma PatchNumbering(before: seq<Bytes>, h: Hunk, after: seq<Bytes>)
    requires LineFree(before) && h.Proper() && LineFree(after)
    ensures var rs := HunkRecords(before, h, after);
      (forall i :: 0 <= i < |h.body| ==> rs[i] == ProperRecord(h.start, h.body, i, FileAt(ItemsOf(before)))) <==>
      (forall i :: 0 <= i < |h.body| ==> !LooksLikeHeader(h.body[i]))
  {
    var rs := HunkRecords(before, h, after);
    forall i | 0 <= i < |h.body|
      ensures RecordMeans(rs[i], h.start, FileAt(ItemsOf(before)), h.body, i)
    {
      HunkRecord(before, h, after, i);
    }
    MeaningsProper(rs, h.start, FileAt(ItemsOf(before)), h.body);
  }

  lemma MeaningsProper(rs: seq<PatchLine>, start: Start, file: Bytes, body: seq<Bytes>)
    requires |rs| == |body| && forall i :: 0 <= i < |body| ==> RecordMeans(rs[i], start, file, body, i)
    ensures (forall i :: 0 <= i < |body| ==> rs[i] == ProperRecord(start, body, i, file)) <==>
            (forall i :: 0 <= i < |body| ==> !LooksLikeHeader(body[i]))
  {
    if forall i :: 0 <= i < |body| ==> !LooksLikeHeader(body[i]) {
      forall i | 0 <= i < |body|
        ensures rs[i] == ProperRecord(start, body, i, file)
      {
        assert RecordMeans(rs[i], start, file, body, i);
        NoLookalikes(body[..i]);
      }
    } else {
      var i :| 0 <= i < |body| && LooksLikeHeader(body[i]);
      assert RecordMeans(rs[i], start, file, body, i);
      assert rs[i].kind != SignKind(body[i]);
    }
  }

  /** The failing family: a deleted line whose text starts with two dashes is not counted, so the next one gets its number. */
  lemma DeletedDashesMisnumber(before: seq<Bytes>, h: Hunk, after: seq<Bytes>)
    requires LineFree(before) && h.Proper() && LineFree(after)
    requires |h.body| > 1 && StartsWith(h.body[0], "---") && SignKind(h.body[1]) == Deleted && !LooksLikeHeader(h.body[1])
    ensures var rs := HunkRecords(before, h, after);
      && rs[0].kind == FileHeader && rs[1].kind == Deleted && rs[1].oldLine == At(h.start.old_)
      && ProperRecord(h.start, h.body, 1, rs[1].file).oldLine == At(h.start.old_ + 1)
  {
    HunkRecord(before, h, after, 0);
    HunkRecord(before, h, after, 1);
    DashesLost(HunkRecords(before, h, after)[1], h.start, FileAt(ItemsOf(before)), h.body);
  }

  lemma DashesLost(r: PatchLine, start: Start, file: Bytes, body: seq<Bytes>)
    requires |body| > 1 && StartsWith(body[0], "---") && SignKind(body[1]) == Deleted && !LooksLikeHeader(body[1])
    requires RecordMeans(r, start, file, body, 1)
    ensures r.kind == Deleted && r.oldLine == At(start.old_)
    ensures ProperRecord(start, body, 1, r.file).oldLine == At(start.old_ + 1)
  {
    var one := body[..1];
    DashIsOld(body[0]);
    assert one == [] + [body[0]] && one[..0] == [];
    CountAppend([], body[0]);
    assert Lookalikes(one) == one;
  }

  lemma DashIsOld(raw: Bytes)
    requires StartsWith(raw, "---")
    ensures SignedOld(raw) && LooksLikeHeader(raw)
  {
    assert Ascii("---")[0] == Ascii("-")[0] == raw[0];
  }

  // ----- which lines are what -----------------------------------------------------------------

  /** The beginnings of the lines of a file header. */
  const HEADER_STARTS: set<string> :=
    {"diff --git ", "index ", "new file", "deleted file", "old mode", "new mode", "similarity index", "rename from", "rename to",
     "Binary files", "GIT binary patch", "---", "+++"}

  /** Exactly the lines that begin so are file headers. */
  lemma FileHeadersExactly(raw: Bytes)
    ensures KindOf(raw) == FileHeader <==> exists p :: p in HEADER_STARTS && Ascii(p) <= raw
  {
    if KindOf(raw) == FileHeader {
      HeaderStart(raw);
    }
    if p :| p in HEADER_STARTS && Ascii(p) <= raw {
      assert StartsWith(raw, p);
    }
  }

  lemma HeaderStart(raw: Bytes)
    requires IsFileHeader(raw)
    ensures exists p :: p in HEADER_STARTS && Ascii(p) <= raw
  {
    var p :| p in HEADER_STARTS && StartsWith(raw, p);
  }

  /** Of the other lines, those with `@@` are hunk headers, and those without a sign are neither added, deleted nor context. */
  lemma OtherLines(raw: Bytes)
    requires KindOf(raw) != FileHeader
    ensures KindOf(raw) == HunkHeader <==> Ascii("@@") <= raw
    ensures raw == [] || raw[0] !in {32, 43, 45, 64} ==> KindOf(raw) == Meta
  {
  }

  // ----- file names ---------------------------------------------------------------------------

  /** A name without white space around it. */
  predicate Plain(x: Bytes) {
    x != [] && !ScriptText.IsSpace(x[0]) && !ScriptText.IsSpace(x[|x| - 1])
  }

  lemma NameRead(sign: string, prefix: string, x: Bytes)
    requires sign in {"--- ", "+++ "} && prefix in {"a/", "b/"} && Plain(x)
    ensures var raw := Ascii(sign) + (Ascii(prefix) + x);
      (StartsWith(raw, "--- ") || StartsWith(raw, "+++ ")) && ScriptText.Trim(raw[4..]) == Ascii(prefix) + x
  {
    var raw, name := Ascii(sign) + (Ascii(prefix) + x), Ascii(prefix) + x;
    assert raw[4..] == name && StartsWith(raw, sign);
    assert name[0] == prefix[0] as int && name[|name| - 1] == x[|x| - 1];
    ScriptText.TrimmedStays(name);
  }

  /** `+++ b/x` names x, whatever it is but `/dev/null`. */
  lemma NewFileNamed(x: Bytes)
    requires Plain(x) && x != Ascii("/dev/null")
    ensures NamedBy(Ascii("+++ ") + (Ascii("b/") + x)) == Some(x)
  {
    NameRead("+++ ", "b/", x);
    var name := Ascii("b/") + x;
    assert name[0] == 98 && !StartsWith(name, "a/") && StartsWith(name, "b/") && name[2..] == x;
  }

  /** The name behind `a/`, and behind a further `b/`. */
  function OldName(x: Bytes): Bytes {
    if Ascii("b/") <= x then x[2..] else x
  }

  lemma OldNameRead(x: Bytes)
    ensures StripPrefix(StripPrefix(Ascii("a/") + x, "a/"), "b/") == OldName(x)
  {
    var name := Ascii("a/") + x;
    assert StartsWith(name, "a/") && name[2..] == x;
  }

  lemma OldNameIs(x: Bytes, y: Bytes)
    requires OldName(x) == y
    ensures x == y || x == Ascii("b/") + y
    ensures x != [] ==> (OldName(x) == x <==> !(Ascii("b/") <= x))
  {
    if Ascii("b/") <= x {
      assert x == Ascii("b/") + x[2..] && |x[2..]| < |x|;
    }
  }

  /** `--- a/x` names x, exactly unless x is in a directory `b`, which is dropped as well. */
  lemma OldFileNamed(x: Bytes)
    requires Plain(x) && OldName(x) != Ascii("/dev/null") && OldName(x) != []
    ensures NamedBy(Ascii("--- ") + (Ascii("a/") + x)) == Some(OldName(x))
    ensures NamedBy(Ascii("--- ") + (Ascii("a/") + x)) == Some(x) <==> !(Ascii("b/") <= x)
  {
    NameRead("--- ", "a/", x);
    OldNameRead(x);
    OldNameIs(x, OldName(x));
  }

  /** A missing side names nothing. */
  lemma NoFileNamed(sign: string)
    requires sign in {"--- ", "+++ "}
    ensures NamedBy(Ascii(sign) + Ascii("/dev/null")) == None
  {
    var raw, name := Ascii(sign) + Ascii("/dev/null"), Ascii("/dev/null");
    assert raw[4..] == name && name[0] == 47 && name[|name| - 1] == 108;
    ScriptText.TrimmedStays(name);
    assert !StartsWith(name, "a/") && !StartsWith(name, "b/");
  }

  /** A line that does not begin as a hunk header does resets nothing. */
  lemma OthersResetNothing(raw: Bytes)
    requires !(Ascii("@@ -") <= raw)
    ensures ItemOf(raw).reset == None
  {
  }

  /** The file is the one named last. */
  lemma {:induction false} LastNameStays(before: seq<Item>, m: Item, more: seq<Item>)
    requires m.names.Some? && forall i :: 0 <= i < |more| ==> more[i].names.None?
    ensures FileAt(before + [m] + more) == m.names.value
    decreases |more|
  {
    var all := before + [m] + more;
    if more == [] {
      assert all[|all| - 1] == m;
    } else {
      assert all[..|all| - 1] == before + [m] + more[..|more| - 1];
      LastNameStays(before, m, more[..|more| - 1]);
    }
  }

  /** Behind the header `+++ b/x`, and lines that name no file, that file is x. */
  lemma FileOfHunk(earlier: seq<Bytes>, x: Bytes, more: seq<Bytes>)
    requires Plain(x) && x != Ascii("/dev/null") && forall i :: 0 <= i < |more| ==> NamedBy(more[i]).None?
    ensures FileAt(ItemsOf(earlier + [Ascii("+++ ") + (Ascii("b/") + x)] + more)) == x
  {
    var header := Ascii("+++ ") + (Ascii("b/") + x);
    NewFileNamed(x);
    MapAppend(ItemOf, earlier + [header], more);
    MapSnoc(ItemOf, earlier, header);
    LastNameStays(ItemsOf(earlier), ItemOf(header), ItemsOf(more));
  }
}
