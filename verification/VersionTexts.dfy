/** Caret, tilde and wildcard requirements, as written, against the comparator sets they abbreviate. */
module VersionTexts {
  import opened Prelude
  import opened Text
  import opened Decimal
  import opened SemVer
  import opened VersionReq
  import opened VersionRanges

  /** One to three numbers written with dots. */
  function Dotted(nums: seq<nat>): string
    requires nums != []
  {
    if |nums| == 1 then Digits(nums[0]) else Digits(nums[0]) + ['.'] + Dotted(nums[1..])
  }

  predicate Fits(nums: seq<nat>) {
    forall i :: 0 <= i < |nums| ==> nums[i] < TWO_64
  }

  /** Missing components count as 0. */
  function Padded(nums: seq<nat>): Version
    requires nums != []
  {
    Version(nums[0], if |nums| > 1 then nums[1] else 0, if |nums| > 2 then nums[2] else 0, [])
  }

  function Triple(v: Version): seq<nat> {
    [v.major, v.minor, v.patch]
  }

  predicate IsVersionChar(c: char) {
    IsDigit(c) || c == '.'
  }

  /** Digits and dots only, with a digit at both ends. */
  predicate VersionText(s: string) {
    s != "" && IsDigit(s[0]) && IsDigit(s[|s| - 1]) && forall i :: 0 <= i < |s| ==> IsVersionChar(s[i])
  }

  lemma {:induction false} DottedShape(nums: seq<nat>)
    requires nums != []
    ensures VersionText(Dotted(nums)) && ('.' in Dotted(nums) <==> |nums| > 1)
  {
    if |nums| == 1 {
      assert '.' !in Digits(nums[0]);
    } else {
      DottedShape(nums[1..]);
      var s, a := Dotted(nums), Digits(nums[0]);
      assert s[|a|] == '.';
    }
  }

  function AllTexts(nums: seq<nat>): seq<string> {
    if nums == [] then [] else [Digits(nums[0])] + AllTexts(nums[1..])
  }

  lemma {:induction false} SplitDotted(nums: seq<nat>)
    requires nums != []
    ensures Split(Dotted(nums), '.') == AllTexts(nums)
  {
    assert '.' !in Digits(nums[0]);
    if |nums| == 1 {
      SplitOne(Digits(nums[0]), '.');
      assert nums[1..] == [];
    } else {
      SplitDotted(nums[1..]);
      SplitCons(Digits(nums[0]), Dotted(nums[1..]), '.');
    }
  }

  lemma ComponentOfDigits(n: nat)
    ensures Component(Digits(n)) == if n < TWO_64 then Some(n) else None
    ensures ParseU64(Digits(n)) == if n < TWO_64 then Some(n) else None
  {
    ValueOfDigits(n);
    assert IsDigit(Digits(n)[0]);
  }

  /** A text with nothing to strip is read as its core. */
  lemma PlainText(s: string)
    requires s != "" && Trimmed(s) && s[0] != 'v' && '+' !in s && '-' !in s
    ensures Trim(s) == s && ParseVersion(s) == ParseCore(s, [])
  {
    TrimmedStays(s);
    assert s[..|s|] == s;
    assert Bare(s) == s;
    assert Before(s, '+') == s && Before(s, '-') == s && Behind(s, '-') == "";
  }

  lemma PartsOf(nums: seq<nat>)
    requires 1 <= |nums| <= 3
    ensures |AllTexts(nums)| == |nums|
    ensures forall i :: 0 <= i < |nums| ==> AllTexts(nums)[i] == Digits(nums[i])
  {
    assert |nums| > 1 ==> nums[1..][0] == nums[1];
    assert |nums| > 2 ==> nums[1..][1..][0] == nums[2] && nums[1..][1..][1..] == [];
    assert |nums| == 2 ==> nums[1..][1..] == [];
    assert |nums| == 1 ==> nums[1..] == [];
    assert |nums| > 1 ==> AllTexts(nums[1..]) == [Digits(nums[1])] + AllTexts(nums[1..][1..]);
    assert |nums| > 2 ==> AllTexts(nums[1..][1..]) == [Digits(nums[2])] + AllTexts(nums[1..][1..][1..]);
  }

  function Fitted(n: nat): nat {
    if n < TWO_64 then n else 0
  }

  /** A component that does not fit is refused in front and read as 0 behind. */
  function Read(nums: seq<nat>): Option<Version>
    requires 1 <= |nums| <= 3
  {
    if nums[0] < TWO_64
    then Some(Version(nums[0], if |nums| > 1 then Fitted(nums[1]) else 0, if |nums| > 2 then Fitted(nums[2]) else 0, []))
    else None
  }

  lemma ReadFits(nums: seq<nat>)
    requires 1 <= |nums| <= 3 && Fits(nums)
    ensures Read(nums) == Some(Padded(nums))
  {
  }

  lemma ReadCore(core: string, nums: seq<nat>, pre: seq<string>)
    requires 1 <= |nums| <= 3 && core != "" && |Split(core, '.')| == |nums|
    requires forall i :: 0 <= i < |nums| ==> Split(core, '.')[i] == Digits(nums[i])
    ensures ParseCore(core, pre) == if Read(nums).Some? then Some(Read(nums).value.(pre := pre)) else None
  {
    ComponentOfDigits(nums[0]);
    if |nums| > 1 {
      ComponentOfDigits(nums[1]);
    }
    if |nums| > 2 {
      ComponentOfDigits(nums[2]);
    }
  }

  lemma ParseDotted(nums: seq<nat>)
    requires 1 <= |nums| <= 3
    ensures ParseVersion(Dotted(nums)) == Read(nums)
  {
    DottedShape(nums);
    PlainText(Dotted(nums));
    SplitDotted(nums);
    PartsOf(nums);
    ReadCore(Dotted(nums), nums, []);
  }

  // ----- pre-release tags and build metadata --------------------------------------------------

  function Idents(ids: seq<string>): string
    requires ids != []
  {
    if |ids| == 1 then ids[0] else ids[0] + ['.'] + Idents(ids[1..])
  }

  predicate AllIdents(ids: seq<string>) {
    forall i :: 0 <= i < |ids| ==> IsIdent(ids[i])
  }

  /** Identifier characters and dots only, an identifier character at the end. */
  predicate TagShape(s: string) {
    s != "" && IsIdentChar(s[|s| - 1]) && forall i :: 0 <= i < |s| ==> IsIdentChar(s[i]) || s[i] == '.'
  }

  lemma {:induction false} IdentsShape(ids: seq<string>)
    requires ids != [] && AllIdents(ids)
    ensures TagShape(Idents(ids))
  {
    if |ids| > 1 {
      IdentsShape(ids[1..]);
    }
  }

  lemma SplitIdent(ids: seq<string>)
    requires |ids| > 1 && '.' !in ids[0] && Split(Idents(ids[1..]), '.') == ids[1..]
    ensures Split(Idents(ids), '.') == ids
  {
    SplitCons(ids[0], Idents(ids[1..]), '.');
  }

  lemma {:induction false} SplitIdents(ids: seq<string>)
    requires ids != [] && AllIdents(ids)
    ensures Split(Idents(ids), '.') == ids
  {
    assert IsIdent(ids[0]) && '.' !in ids[0];
    if |ids| == 1 {
      SplitOne(ids[0], '.');
    } else {
      SplitIdents(ids[1..]);
      SplitIdent(ids);
    }
  }

  /** A text that starts with a digit and ends without white space is taken as it is, with or without a `v` in front. */
  lemma BareText(t: string)
    requires t != "" && IsDigit(t[0]) && !IsWhitespace(t[|t| - 1])
    ensures Bare(t) == t && Bare(['v'] + t) == t
  {
    TrimmedStays(t);
    var u := ['v'] + t;
    assert u[|u| - 1] == t[|t| - 1] && u[1..] == t;
    TrimmedStays(u);
  }

  function TagText(ids: seq<string>): string {
    if ids == [] then "" else ['-'] + Idents(ids)
  }

  function BuildText(build: Option<string>): string {
    if build.Some? then ['+'] + build.value else ""
  }

  /** A version as it is written: numbers, then a tag and build metadata, if there are any. */
  function TaggedText(nums: seq<nat>, ids: seq<string>, build: Option<string>): string
    requires nums != []
  {
    Dotted(nums) + TagText(ids) + BuildText(build)
  }

  /** Build metadata that does not end in white space, which would be trimmed. */
  predicate BuildOk(build: Option<string>) {
    build.Some? && build.value != "" ==> !IsWhitespace(build.value[|build.value| - 1])
  }

  lemma BuildParts(s: string, build: Option<string>)
    requires '+' !in s
    ensures Before(s + BuildText(build), '+') == s
  {
    if build.Some? {
      assert s + BuildText(build) == s + ['+'] + build.value;
      IndexOfAppend(s, build.value, '+');
    } else {
      assert s + "" == s;
    }
  }

  lemma TagParts(core: string, ids: seq<string>)
    requires '-' !in core && AllIdents(ids)
    ensures var s := core + TagText(ids);
      Before(s, '-') == core && Behind(s, '-') == if ids == [] then "" else Idents(ids)
  {
    var s := core + TagText(ids);
    if ids == [] {
      assert s == core;
    } else {
      assert s == core + ['-'] + Idents(ids);
      IndexOfAppend(core, Idents(ids), '-');
      assert s[..|core|] == core && s[|core| + 1..] == Idents(ids) && s[|core|] == '-';
    }
  }

  /** What a written version looks like from outside. */
  lemma TaggedShape(nums: seq<nat>, ids: seq<string>, build: Option<string>)
    requires nums != [] && AllIdents(ids) && BuildOk(build)
    ensures var t := TaggedText(nums, ids, build);
      && t != "" && IsDigit(t[0]) && !IsWhitespace(t[|t| - 1])
      && '+' !in Dotted(nums) + TagText(ids) && '-' !in Dotted(nums)
      && (build.None? ==> ' ' !in t) && (ids != [] ==> '-' in t)
  {
    var core, tag := Dotted(nums), TagText(ids);
    var t := TaggedText(nums, ids, build);
    DottedShape(nums);
    assert t[0] == core[0];
    if ids != [] {
      IdentsShape(ids);
      assert t[|core|] == '-' && tag[|tag| - 1] == Idents(ids)[|Idents(ids)| - 1];
    }
    if build.None? {
      assert t == core + tag;
    }
  }

  lemma ParseBy(x: string, t: string, core: string, ids: seq<string>)
    requires Before(Bare(x), '+') == t && Before(t, '-') == core && AllIdents(ids)
    requires Behind(t, '-') == if ids == [] then "" else Idents(ids)
    ensures ParseVersion(x) == ParseCore(core, ids)
  {
    TagsRead(ids);
  }

  lemma CoreReads(nums: seq<nat>, ids: seq<string>)
    requires 1 <= |nums| <= 3
    ensures ParseCore(Dotted(nums), ids) == if Read(nums).Some? then Some(Read(nums).value.(pre := ids)) else None
  {
    DottedShape(nums);
    SplitDotted(nums);
    PartsOf(nums);
    ReadCore(Dotted(nums), nums, ids);
  }

  /** Tags are read in order, and build metadata is ignored, as section 10 of Semantic Versioning 2.0.0 has it. */
  lemma ParseTagged(nums: seq<nat>, ids: seq<string>, build: Option<string>)
    requires 1 <= |nums| <= 3 && AllIdents(ids) && BuildOk(build)
    ensures var t := TaggedText(nums, ids, build);
      ParseVersion(t) == ParseVersion(['v'] + t) == if Read(nums).Some? then Some(Read(nums).value.(pre := ids)) else None
  {
    var core, t := Dotted(nums), TaggedText(nums, ids, build);
    var s := core + TagText(ids);
    TaggedShape(nums, ids, build);
    BareText(t);
    BuildParts(s, build);
    TagParts(core, ids);
    ParseBy(t, s, core, ids);
    ParseBy(['v'] + t, s, core, ids);
    CoreReads(nums, ids);
  }

  lemma TagsRead(ids: seq<string>)
    requires AllIdents(ids)
    ensures ids != [] ==> Idents(ids) != "" && Split(Idents(ids), '.') == ids
    ensures forall id :: id in ids ==> IsIdent(id)
  {
    if ids != [] {
      IdentsShape(ids);
      SplitIdents(ids);
    }
  }

  // ----- comparator sets ----------------------------------------------------------------------

  /** `>=lower <upper`. */
  function RangeText(lower: string, upper: string): string {
    ">=" + lower + " " + ("<" + upper)
  }

  lemma AtLeastMeans(v: Version, s: string)
    requires VersionText(s) && Release(v)
    ensures PartOk(v, ">=" + s) <==> ParseVersion(s).Some? && CmpFull(v, ParseVersion(s).value) != Less
  {
    assert (">=" + s)[2..] == s;
    TrimmedStays(s);
  }

  lemma BelowMeans(v: Version, s: string)
    requires VersionText(s) && Release(v)
    ensures PartOk(v, "<" + s) <==> ParseVersion(s).Some? && CmpFull(v, ParseVersion(s).value) == Less
  {
    assert ("<" + s)[1..] == s && ("<" + s)[1] == s[0] && ("<" + s)[0] == '<';
    TrimmedStays(s);
  }

  lemma RangeTextShape(lower: string, upper: string)
    requires VersionText(lower) && VersionText(upper)
    ensures var t := RangeText(lower, upper);
      Trim(t) == t && t != "" && t != "*" && IsSet(t) && Words(t) == [">=" + lower, "<" + upper]
  {
    var t := RangeText(lower, upper);
    assert t[0] == '>' && t[|t| - 1] == upper[|upper| - 1] && t[|lower| + 2] == ' ';
    TrimmedStays(t);
    assert NoWhitespace(">=" + lower) && NoWhitespace("<" + upper);
    WordsOfTwo(">=" + lower, "<" + upper);
  }

  lemma SetRoute(version: string, t: string)
    requires ParseVersion(version).Some? && Trim(t) == t && t != "" && t != "*" && IsSet(t)
    ensures VersionMatchesReq(version, t) == MatchComparators(ParseVersion(version).value, t)
  {
  }

  lemma TwoParts(v: Version, t: string, p: string, q: string)
    requires Release(v) && Words(t) == [p, q]
    ensures MatchComparators(v, t) <==> PartOk(v, p) && PartOk(v, q)
  {
    assert p in Words(t) && q in Words(t);
  }

  predicate RangeOk(v: Version, low: seq<nat>, high: seq<nat>)
    requires |low| == 3 && |high| == 3
  {
    && Read(low).Some? && CmpFull(v, Read(low).value) != Less
    && Read(high).Some? && CmpFull(v, Read(high).value) == Less
  }

  /** What a written range accepts among releases. */
  lemma RangeMeans(version: string, low: seq<nat>, high: seq<nat>)
    requires |low| == 3 && |high| == 3 && ParseVersion(version).Some? && Release(ParseVersion(version).value)
    ensures var v := ParseVersion(version).value;
      VersionMatchesReq(version, RangeText(Dotted(low), Dotted(high))) <==>
        RangeOk(v, low, high)
  {
    var v, a, b := ParseVersion(version).value, Dotted(low), Dotted(high);
    DottedShape(low);
    DottedShape(high);
    RangeTextShape(a, b);
    SetRoute(version, RangeText(a, b));
    TwoParts(v, RangeText(a, b), ">=" + a, "<" + b);
    AtLeastMeans(v, a);
    BelowMeans(v, b);
    ParseDotted(low);
    ParseDotted(high);
  }

  // ----- caret --------------------------------------------------------------------------------

  function CaretUpper(r: Version): seq<nat> {
    if r.major > 0 then [r.major + 1, 0, 0] else if r.minor > 0 then [0, r.minor + 1, 0] else [0, 0, r.patch + 1]
  }

  lemma OperatorText(op: char, s: string)
    requires op in {'^', '~'} && VersionText(s)
    ensures var t := [op] + s;
      Trim(t) == t && t != "*" && t != "" && !IsSet(t) && t[1..] == s && Trim(s) == s && t[0] == op
  {
    var t := [op] + s;
    assert t[|t| - 1] == s[|s| - 1] && ' ' !in t;
    TrimmedStays(t);
    TrimmedStays(s);
  }

  predicate CaretOk(v: Version, r: Version) {
    CmpFull(v, r) != Less && WithinCaret(v, r)
  }

  lemma CaretMeans(version: string, nums: seq<nat>)
    requires 1 <= |nums| <= 3 && Fits(nums) && ParseVersion(version).Some? && Release(ParseVersion(version).value)
    ensures var v, r := ParseVersion(version).value, Padded(nums);
      VersionMatchesReq(version, ['^'] + Dotted(nums)) <==> CaretOk(v, r)
  {
    DottedShape(nums);
    OperatorText('^', Dotted(nums));
    ParseDotted(nums);
    ReadFits(nums);
    var t := ['^'] + Dotted(nums);
    assert "^" <= t && !(">" <= t) && !("<" <= t) && !("=" <= t);
  }

  lemma CaretBounds(v: Version, r: Version)
    requires Release(v) && Release(r) && Fits(Triple(r))
    ensures if Fits(CaretUpper(r)) then CaretOk(v, r) <==> RangeOk(v, Triple(r), CaretUpper(r))
            else !RangeOk(v, Triple(r), CaretUpper(r)) && (v == r ==> CaretOk(v, r))
  {
  }

  /** `^r` on releases is `>=r <u`, u the next bump of the leftmost non-zero component, when u can be written in 64 bits. */
  lemma CaretIsRange(version: string, nums: seq<nat>, upper: seq<nat>)
    requires 1 <= |nums| <= 3 && Fits(nums) && ParseVersion(version).Some? && Release(ParseVersion(version).value)
    requires upper == CaretUpper(Padded(nums)) && Fits(upper)
    ensures VersionMatchesReq(version, ['^'] + Dotted(nums)) <==>
            VersionMatchesReq(version, RangeText(Dotted(Triple(Padded(nums))), Dotted(upper)))
  {
    CaretMeans(version, nums);
    RangeMeans(version, Triple(Padded(nums)), upper);
    CaretBounds(ParseVersion(version).value, Padded(nums));
  }

  /** Otherwise that range accepts nothing, although `^r` still accepts r. */
  lemma CaretOverflows(version: string, nums: seq<nat>, upper: seq<nat>)
    requires 1 <= |nums| <= 3 && Fits(nums) && ParseVersion(version).Some? && Release(ParseVersion(version).value)
    requires upper == CaretUpper(Padded(nums)) && !Fits(upper)
    ensures !VersionMatchesReq(version, RangeText(Dotted(Triple(Padded(nums))), Dotted(upper)))
    ensures ParseVersion(version) == Some(Padded(nums)) ==> VersionMatchesReq(version, ['^'] + Dotted(nums))
  {
    CaretMeans(version, nums);
    RangeMeans(version, Triple(Padded(nums)), upper);
    CaretBounds(ParseVersion(version).value, Padded(nums));
  }

  // ----- tilde --------------------------------------------------------------------------------

  function TildeUpper(nums: seq<nat>): seq<nat>
    requires nums != []
  {
    if |nums| == 1 then [nums[0] + 1, 0, 0] else [nums[0], nums[1] + 1, 0]
  }

  predicate TildeOk(v: Version, nums: seq<nat>)
    requires nums != []
  {
    CmpRelease(v, Padded(nums)) != Less && v.major == nums[0] && (|nums| > 1 ==> v.minor == nums[1])
  }

  lemma TildeBounds(v: Version, nums: seq<nat>)
    requires Release(v) && 1 <= |nums| <= 3 && Fits(nums)
    ensures if Fits(TildeUpper(nums)) then TildeOk(v, nums) <==> RangeOk(v, Triple(Padded(nums)), TildeUpper(nums))
            else !RangeOk(v, Triple(Padded(nums)), TildeUpper(nums)) && (v == Padded(nums) ==> TildeOk(v, nums))
  {
  }

  lemma TildeMeans(version: string, nums: seq<nat>)
    requires 1 <= |nums| <= 3 && Fits(nums) && ParseVersion(version).Some? && Release(ParseVersion(version).value)
    ensures var v, r := ParseVersion(version).value, Padded(nums);
      VersionMatchesReq(version, ['~'] + Dotted(nums)) <==>
        TildeOk(v, nums)
  {
    DottedShape(nums);
    OperatorText('~', Dotted(nums));
    ParseDotted(nums);
    ReadFits(nums);
    var t := ['~'] + Dotted(nums);
    assert "~" <= t && !(">" <= t) && !("<" <= t) && !("=" <= t) && !("^" <= t);
  }

  /** `~r` likewise: the bump is of the minor when r names one, else of the major. */
  lemma TildeIsRange(version: string, nums: seq<nat>, upper: seq<nat>)
    requires 1 <= |nums| <= 3 && Fits(nums) && ParseVersion(version).Some? && Release(ParseVersion(version).value)
    requires upper == TildeUpper(nums) && Fits(upper)
    ensures VersionMatchesReq(version, ['~'] + Dotted(nums)) <==>
            VersionMatchesReq(version, RangeText(Dotted(Triple(Padded(nums))), Dotted(upper)))
  {
    TildeMeans(version, nums);
    RangeMeans(version, Triple(Padded(nums)), upper);
    TildeBounds(ParseVersion(version).value, nums);
  }

  lemma TildeOverflows(version: string, nums: seq<nat>, upper: seq<nat>)
    requires 1 <= |nums| <= 3 && Fits(nums) && ParseVersion(version).Some? && Release(ParseVersion(version).value)
    requires upper == TildeUpper(nums) && !Fits(upper)
    ensures !VersionMatchesReq(version, RangeText(Dotted(Triple(Padded(nums))), Dotted(upper)))
    ensures ParseVersion(version) == Some(Padded(nums)) ==> VersionMatchesReq(version, ['~'] + Dotted(nums))
  {
    TildeMeans(version, nums);
    RangeMeans(version, Triple(Padded(nums)), upper);
    TildeBounds(ParseVersion(version).value, nums);
  }

  // ----- wildcards ----------------------------------------------------------------------------

  /** Trailing wildcards, each behind a dot. */
  function WildTail(ws: seq<string>): string {
    if ws == [] then "" else ['.'] + ws[0] + WildTail(ws[1..])
  }

  lemma WildChar(w: string)
    requires Wild(w)
    ensures |w| == 1 && w[0] in {'*', 'x', 'X'} && '.' !in w && '-' !in w
  {
  }

  lemma {:induction false} SplitWild(nums: seq<nat>, ws: seq<string>)
    requires nums != [] && forall w :: w in ws ==> Wild(w)
    ensures Split(Dotted(nums) + WildTail(ws), '.') == AllTexts(nums) + ws
    decreases |nums|
  {
    assert '.' !in Digits(nums[0]);
    if |nums| == 1 {
      assert nums[1..] == [];
      SplitTail(Digits(nums[0]), ws);
    } else {
      SplitWild(nums[1..], ws);
      SplitCons(Digits(nums[0]), Dotted(nums[1..]) + WildTail(ws), '.');
      Associate(Digits(nums[0]) + ['.'], Dotted(nums[1..]), WildTail(ws));
      Associate([Digits(nums[0])], AllTexts(nums[1..]), ws);
    }
  }

  lemma {:induction false} SplitTail(a: string, ws: seq<string>)
    requires '.' !in a && forall w :: w in ws ==> Wild(w)
    ensures Split(a + WildTail(ws), '.') == [a] + ws
    decreases |ws|
  {
    if ws == [] {
      assert a + WildTail(ws) == a;
      SplitOne(a, '.');
    } else {
      assert ws[0] in ws;
      WildChar(ws[0]);
      SplitTail(ws[0], ws[1..]);
      SplitCons(a, ws[0] + WildTail(ws[1..]), '.');
      Associate(['.'], ws[0], WildTail(ws[1..]));
      Associate(a, ['.'], ws[0] + WildTail(ws[1..]));
      assert ws == [ws[0]] + ws[1..];
    }
  }

  lemma {:induction false} WildTailChars(ws: seq<string>)
    requires forall w :: w in ws ==> Wild(w)
    ensures forall i :: 0 <= i < |WildTail(ws)| ==> WildTail(ws)[i] in {'.', '*', 'x', 'X'}
    ensures ws != [] ==> WildTail(ws) != "" && WildTail(ws)[|WildTail(ws)| - 1] in {'*', 'x', 'X'}
    decreases |ws|
  {
    if ws != [] {
      assert ws[0] in ws;
      WildChar(ws[0]);
      WildTailChars(ws[1..]);
      if |ws| == 1 {
        assert WildTail(ws[1..]) == "";
      }
    }
  }

  lemma WildTextShape(nums: seq<nat>, ws: seq<string>)
    requires nums != [] && ws != [] && forall w :: w in ws ==> Wild(w)
    ensures var t := Dotted(nums) + WildTail(ws);
      t != "" && IsDigit(t[0]) && Trimmed(t) && ' ' !in t && HasWild(t)
  {
    var d, w := Dotted(nums), WildTail(ws);
    DottedShape(nums);
    WildTailChars(ws);
    var t := d + w;
    assert t[0] == d[0] && t[|t| - 1] == w[|w| - 1];
    assert t[|t| - 1] in t;
    assert ' ' !in d && ' ' !in w;
  }

  /** A text that starts with a digit, holds no space and has a wildcard character goes to the wildcard route. */
  lemma WildRoute(version: string, t: string)
    requires ParseVersion(version).Some?
    requires t != "" && IsDigit(t[0]) && Trimmed(t) && ' ' !in t && HasWild(t)
    ensures VersionMatchesReq(version, t) == MatchWildcard(ParseVersion(version).value, t)
  {
    TrimmedStays(t);
    assert !(">" <= t) && !("<" <= t) && !("=" <= t) && !("^" <= t) && !("~" <= t);
  }

  lemma NumberPart(n: nat)
    requires n < TWO_64
    ensures ParseU64(Digits(n)) == Some(n) && !Wild(Digits(n))
  {
    ComponentOfDigits(n);
    assert IsDigit(Digits(n)[0]);
  }

  lemma WildPart(w: string)
    requires Wild(w)
    ensures Before(w, '-') == w
  {
    WildChar(w);
  }

  lemma WildMeans(v: Version, nums: seq<nat>, ws: seq<string>)
    requires nums != [] && ws != [] && (forall w :: w in ws ==> Wild(w)) && |nums| + |ws| <= 3 && Fits(nums)
    ensures WildcardAccepts(v, AllTexts(nums) + ws) <==>
            v.major == nums[0] && (|nums| > 1 ==> v.minor == nums[1]) && v.pre == []
  {
    var texts := AllTexts(nums);
    var parts := texts + ws;
    PartsOf(nums);
    forall i | 0 <= i < |nums|
      ensures ParseU64(parts[i]) == Some(nums[i]) && !Wild(parts[i])
    {
      NumberPart(nums[i]);
    }
    forall i | |nums| <= i < |parts|
      ensures Wild(parts[i]) && Before(parts[i], '-') == parts[i]
    {
      assert ws[i - |nums|] in ws;
      WildPart(ws[i - |nums|]);
    }
    PartsAccept(v, parts, nums);
  }

  lemma PartsAccept(v: Version, parts: seq<string>, nums: seq<nat>)
    requires 1 <= |nums| < |parts| <= 3
    requires forall i :: 0 <= i < |nums| ==> ParseU64(parts[i]) == Some(nums[i]) && !Wild(parts[i])
    requires forall i :: |nums| <= i < |parts| ==> Wild(parts[i]) && Before(parts[i], '-') == parts[i]
    ensures WildcardAccepts(v, parts) <==> v.major == nums[0] && (|nums| > 1 ==> v.minor == nums[1]) && v.pre == []
  {
    assert NumbersThenWild(parts, |nums|);
  }

  lemma WildBounds(v: Version, nums: seq<nat>)
    requires Release(v) && 1 <= |nums| <= 2 && Fits(nums) && Fits(TildeUpper(nums))
    ensures v.major == nums[0] && (|nums| > 1 ==> v.minor == nums[1]) <==>
            RangeOk(v, Triple(Padded(nums)), TildeUpper(nums))
  {
  }

  lemma WildcardMeans(version: string, nums: seq<nat>, ws: seq<string>)
    requires nums != [] && ws != [] && (forall w :: w in ws ==> Wild(w)) && |nums| + |ws| <= 3 && Fits(nums)
    requires ParseVersion(version).Some? && Release(ParseVersion(version).value)
    ensures var v := ParseVersion(version).value;
      VersionMatchesReq(version, Dotted(nums) + WildTail(ws)) <==> v.major == nums[0] && (|nums| > 1 ==> v.minor == nums[1])
  {
    WildTextShape(nums, ws);
    WildRoute(version, Dotted(nums) + WildTail(ws));
    SplitWild(nums, ws);
    WildMeans(ParseVersion(version).value, nums, ws);
  }

  /** Trailing wildcards stand for the range of the numbers before them. */
  lemma WildcardIsRange(version: string, nums: seq<nat>, ws: seq<string>, upper: seq<nat>)
    requires nums != [] && ws != [] && (forall w :: w in ws ==> Wild(w)) && |nums| + |ws| <= 3 && Fits(nums)
    requires ParseVersion(version).Some? && Release(ParseVersion(version).value) && upper == TildeUpper(nums) && Fits(upper)
    ensures VersionMatchesReq(version, Dotted(nums) + WildTail(ws)) <==>
            VersionMatchesReq(version, RangeText(Dotted(Triple(Padded(nums))), Dotted(upper)))
  {
    WildcardMeans(version, nums, ws);
    RangeMeans(version, Triple(Padded(nums)), upper);
    WildBounds(ParseVersion(version).value, nums);
  }

  /** When the upper bound does not fit 64 bits that range accepts nothing, and the wildcard still what its numbers name. */
  lemma WildcardOverflows(version: string, nums: seq<nat>, ws: seq<string>, upper: seq<nat>)
    requires nums != [] && ws != [] && (forall w :: w in ws ==> Wild(w)) && |nums| + |ws| <= 3 && Fits(nums)
    requires ParseVersion(version).Some? && Release(ParseVersion(version).value) && upper == TildeUpper(nums) && !Fits(upper)
    ensures !VersionMatchesReq(version, RangeText(Dotted(Triple(Padded(nums))), Dotted(upper)))
    ensures var v := ParseVersion(version).value;
      VersionMatchesReq(version, Dotted(nums) + WildTail(ws)) <==> v.major == nums[0] && (|nums| > 1 ==> v.minor == nums[1])
  {
    WildcardMeans(version, nums, ws);
    RangeMeans(version, Triple(Padded(nums)), upper);
    TildeBounds(ParseVersion(version).value, nums);
  }

  // ----- an operator in front of a broken wildcard --------------------------------------------

  /** Two numbers around an `x`. */
  function BrokenText(a: nat, c: nat): string {
    Digits(a) + ['.'] + (['x'] + ['.'] + Digits(c))
  }

  lemma BrokenSplit(a: nat, c: nat)
    ensures Split(BrokenText(a, c), '.') == [Digits(a), ['x'], Digits(c)]
  {
    assert '.' !in Digits(a) && '.' !in Digits(c) && '.' !in ['x'];
    SplitOne(Digits(c), '.');
    SplitCons(['x'], Digits(c), '.');
    SplitCons(Digits(a), ['x'] + ['.'] + Digits(c), '.');
    assert [Digits(a)] + ([['x']] + [Digits(c)]) == [Digits(a), ['x'], Digits(c)];
  }

  lemma BrokenChars(a: nat, c: nat)
    ensures var s := BrokenText(a, c);
      && s != "" && IsDigit(s[0]) && IsDigit(s[|s| - 1]) && 'x' in s
      && (forall i :: 0 <= i < |s| ==> IsDigit(s[i]) || s[i] == '.' || s[i] == 'x')
  {
    var s := BrokenText(a, c);
    assert s[0] == Digits(a)[0] && s[|Digits(a)| + 1] == 'x' && s[|s| - 1] == Digits(c)[|Digits(c)| - 1];
  }

  lemma BrokenParse(a: nat, c: nat)
    requires a < TWO_64 && c < TWO_64
    ensures ParseVersion(BrokenText(a, c)) == Some(Version(a, 0, c, [])) && Trim(BrokenText(a, c)) == BrokenText(a, c)
  {
    var s := BrokenText(a, c);
    BrokenChars(a, c);
    assert '+' !in s && '-' !in s;
    PlainText(s);
    BrokenSplit(a, c);
    ComponentOfDigits(a);
    ComponentOfDigits(c);
    assert Component(['x']) == None by { assert !IsDigit(['x'][0]); }
  }

  lemma BrokenRefused(a: nat, c: nat)
    requires c < TWO_64
    ensures !WildcardShape(Split(BrokenText(a, c), '.'))
  {
    BrokenSplit(a, c);
    NumberPart(c);
    BadPartRefuses([Digits(a), ['x'], Digits(c)], 2, true, 1);
  }

  /** An operator in front of a text that trims to itself. */
  lemma OperatorRoute(op: char, version: string, s: string)
    requires op in {'=', '^', '~'} && ParseVersion(version).Some? && s != "" && Trimmed(s) && ' ' !in s
    ensures var t := [op] + s; Trim(t) == t && !IsSet(t) && HasOp(t) && StripOp(t) == s
    ensures var v := ParseVersion(version).value;
      VersionMatchesReq(version, [op] + s) ==
        if op == '=' then MatchExact(v, s) else if op == '^' then MatchCaret(v, s) else MatchTilde(v, s)
  {
    var t := [op] + s;
    assert t[|t| - 1] == s[|s| - 1] && t[1..] == s && t[0] == op;
    TrimmedStays(t);
    TrimmedStays(s);
    assert !(">" <= t) && !("<" <= t) && ("=" <= t <==> op == '=') && ("^" <= t <==> op == '^') && ("~" <= t <==> op == '~');
  }

  lemma BrokenOperator(op: char, version: string, s: string)
    requires op in {'=', '^', '~'} && ParseVersion(version).Some? && ParseVersion(s) == ParseVersion(version)
    requires s != "" && Trimmed(s) && ' ' !in s && HasWild(s) && !WildcardShape(Split(s, '.'))
    ensures var req := [op] + s; VersionMatchesReq(version, req) && BrokenWildcard(Trim(req)) && !ValidVersionReq(req)
  {
    var t := [op] + s;
    OperatorRoute(op, version, s);
    FullReflexive(ParseVersion(s).value);
    assert t[1..] == s && HasWild(t);
    MatchedIsValid(version, t);
  }

  lemma BrokenShape(a: nat, c: nat)
    ensures var s := BrokenText(a, c); s != "" && Trimmed(s) && ' ' !in s && 'x' in s
  {
    BrokenChars(a, c);
  }

  /** For example `^1.x.3`: the matcher reads the `x` as 0 and accepts 1.0.3, the validator refuses the requirement. */
  lemma BrokenWildcardStillMatches(version: string, a: nat, c: nat)
    requires a < TWO_64 && c < TWO_64 && ParseVersion(version) == Some(Version(a, 0, c, []))
    ensures var req := ['^'] + BrokenText(a, c);
      VersionMatchesReq(version, req) && BrokenWildcard(Trim(req)) && !ValidVersionReq(req)
  {
    BrokenShape(a, c);
    BrokenParse(a, c);
    BrokenRefused(a, c);
    BrokenOperator('^', version, BrokenText(a, c));
  }

  // ----- tags in requirements -----------------------------------------------------------------

  lemma TaggedReads(nums: seq<nat>, ids: seq<string>)
    requires 1 <= |nums| <= 3 && Fits(nums) && ids != [] && AllIdents(ids)
    ensures var s := TaggedText(nums, ids, None);
      && ParseVersion(s) == Some(Padded(nums).(pre := ids))
      && s != "" && Trimmed(s) && ' ' !in s && IsDigit(s[0]) && '-' in s
  {
    ParseTagged(nums, ids, None);
    ReadFits(nums);
    TaggedShape(nums, ids, None);
  }

  /** For example `=1.0.0-next.1`: it accepts that version and is refused, for the `x` in its tag. */
  lemma TaggedPinRefused(op: char, nums: seq<nat>, ids: seq<string>)
    requires op in {'=', '^', '~'} && 1 <= |nums| <= 3 && Fits(nums) && ids != [] && AllIdents(ids)
    requires HasWild(TaggedText(nums, ids, None))
    ensures var s := TaggedText(nums, ids, None); var req := [op] + s;
      VersionMatchesReq(s, req) && BrokenWildcard(Trim(req)) && !ValidVersionReq(req)
  {
    var s := TaggedText(nums, ids, None);
    TaggedReads(nums, ids);
    DashIsNoWildcard(s);
    BrokenOperator(op, s, s);
  }

  /** And bare, `1.0.0-next.1` is refused and matched by no version at all. */
  lemma BarePinMatchesNothing(nums: seq<nat>, ids: seq<string>)
    requires 1 <= |nums| <= 3 && Fits(nums) && ids != [] && AllIdents(ids) && HasWild(TaggedText(nums, ids, None))
    ensures var s := TaggedText(nums, ids, None);
      ParseVersion(s).Some? && !ValidVersionReq(s) && forall version :: !VersionMatchesReq(version, s)
  {
    var s := TaggedText(nums, ids, None);
    TaggedReads(nums, ids);
    TrimmedStays(s);
    assert !(">=" <= s) && !("<=" <= s);
    DashedWildcardMatchesNothing(s);
  }

  /** For example `~1.2.3-rc.2` accepts 1.2.3-rc.1, though it is below. */
  lemma TildeAcceptsEarlier(version: string, nums: seq<nat>, low: seq<string>, high: seq<string>)
    requires 1 <= |nums| <= 3 && Fits(nums) && low != [] && high != [] && AllIdents(high)
    requires ParseVersion(version) == Some(Padded(nums).(pre := low)) && CmpIdents(low, high) == Less
    ensures VersionMatchesReq(version, ['~'] + TaggedText(nums, high, None))
    ensures CmpFull(ParseVersion(version).value, Padded(nums).(pre := high)) == Less
  {
    var s := TaggedText(nums, high, None);
    TaggedReads(nums, high);
    OperatorRoute('~', version, s);
    TildeBelow(ParseVersion(version).value, s, Padded(nums).(pre := high));
  }
}
