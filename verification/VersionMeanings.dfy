/** What comparators, alone and in sets, accept: stated on the written text and on plain numbers. */
module VersionMeanings {
  import opened Prelude
  import opened Text
  import opened Decimal
  import opened SemVer
  import opened VersionReq
  import opened VersionTexts

  // ----- precedence, written out --------------------------------------------------------------

  /** Major, then minor, then patch. */
  predicate NumbersBelow(a: Version, b: Version) {
    || a.major < b.major
    || (a.major == b.major && a.minor < b.minor)
    || (a.major == b.major && a.minor == b.minor && a.patch < b.patch)
  }

  predicate SameNumbers(a: Version, b: Version) {
    a.major == b.major && a.minor == b.minor && a.patch == b.patch
  }

  /** By the numbers; where these agree a tagged version is below the release, and tags are compared. */
  predicate Below(a: Version, b: Version) {
    || NumbersBelow(a, b)
    || (SameNumbers(a, b) && a.pre != [] && (b.pre == [] || CmpIdents(a.pre, b.pre) == Less))
  }

  /** `cmp_full` is that order. */
  lemma FullMeans(a: Version, b: Version)
    ensures CmpFull(a, b) == Less <==> Below(a, b)
    ensures CmpFull(a, b) == Greater <==> Below(b, a)
    ensures CmpFull(a, b) == Equal <==> !Below(a, b) && !Below(b, a)
    ensures !(Below(a, b) && Below(b, a))
  {
    IdentsSymmetric(a.pre, b.pre);
  }

  // ----- comparators --------------------------------------------------------------------------

  datatype Op = Gt | Ge | Lt | Le | Eq | Plain

  function OpText(op: Op): string {
    match op
    case Gt => ">"
    case Ge => ">="
    case Lt => "<"
    case Le => "<="
    case Eq => "="
    case Plain => ""
  }

  /** An operator and a version, as written. */
  datatype Comparator = Comparator(op: Op, nums: seq<nat>, ids: seq<string>) {
    predicate Proper() {
      1 <= |nums| <= 3 && Fits(nums) && AllIdents(ids)
    }

    function Body(): string
      requires Proper()
    {
      TaggedText(nums, ids, None)
    }

    function Text(): string
      requires Proper()
    {
      OpText(op) + Body()
    }

    function Named(): Version
      requires Proper()
    {
      Padded(nums).(pre := ids)
    }

    /** What the operator says. */
    predicate Holds(v: Version)
      requires Proper()
    {
      match op
      case Gt => Below(Named(), v)
      case Ge => !Below(v, Named())
      case Lt => Below(v, Named())
      case Le => !Below(Named(), v)
      case Eq => !Below(v, Named()) && !Below(Named(), v)
      case Plain => !Below(v, Named()) && !Below(Named(), v)
    }

    /** It names the numbers of `v` with a tag of its own. */
    predicate Tags(v: Version)
      requires Proper()
    {
      SameNumbers(v, Named()) && ids != []
    }
  }

  lemma BodyReads(c: Comparator)
    requires c.Proper()
    ensures var s := c.Body();
      && ParseVersion(s) == Some(c.Named()) && s != "" && IsDigit(s[0]) && NoWhitespace(s) && Trim(s) == s
  {
    var s := c.Body();
    ParseTagged(c.nums, c.ids, None);
    ReadFits(c.nums);
    TaggedShape(c.nums, c.ids, None);
    TaggedClean(c.nums, c.ids);
    TrimmedStays(s);
  }

  lemma TaggedClean(nums: seq<nat>, ids: seq<string>)
    requires nums != [] && AllIdents(ids)
    ensures NoWhitespace(TaggedText(nums, ids, None))
  {
    DottedShape(nums);
    if ids != [] {
      IdentsShape(ids);
    }
    assert TaggedText(nums, ids, None) == Dotted(nums) + TagText(ids);
  }

  lemma SingleMeans(v: Version, c: Comparator, less: bool, orEqual: bool, allow: bool)
    requires c.Proper()
    ensures MatchSingle(v, c.Body(), less, orEqual, allow) <==>
            && (v.pre == [] || allow)
            && ((if less then Below(v, c.Named()) else Below(c.Named(), v))
                || (orEqual && !Below(v, c.Named()) && !Below(c.Named(), v)))
  {
    BodyReads(c);
    FullMeans(v, c.Named());
  }

  lemma ExactMeans(v: Version, c: Comparator)
    requires c.Proper()
    ensures MatchExact(v, c.Body()) <==> !Below(v, c.Named()) && !Below(c.Named(), v)
  {
    BodyReads(c);
    FullMeans(v, c.Named());
  }

  /** An operator in front of a text that starts with a digit is read as that operator. */
  lemma OpParts(op: Op, s: string, t: string)
    requires s != "" && IsDigit(s[0]) && t == OpText(op) + s
    ensures t[|OpText(op)|..] == s && t[0] == (OpText(op) + s)[0] && t[|t| - 1] == s[|s| - 1]
    ensures (">=" <= t <==> op.Ge?) && ("<=" <= t <==> op.Le?)
    ensures (">" <= t <==> op.Gt? || op.Ge?) && ("<" <= t <==> op.Lt? || op.Le?) && ("=" <= t <==> op.Eq?)
    ensures !("^" <= t) && !("~" <= t)
  {
    assert t[|OpText(op)|] == s[0];
  }

  lemma OpClean(op: Op, s: string)
    requires NoWhitespace(s) && s != ""
    ensures NoWhitespace(OpText(op) + s) && OpText(op) + s != ""
  {
  }

  lemma OpBody(op: Op, s: string)
    requires s != "" && IsDigit(s[0])
    ensures ComparatorBody(OpText(op) + s) == Trim(s)
  {
    var t := OpText(op) + s;
    OpParts(op, s, t);
    assert op.Plain? ==> t == s;
  }

  /** What is behind the operator. */
  lemma TextParts(c: Comparator)
    requires c.Proper()
    ensures var t := c.Text();
      && t != "" && t[|OpText(c.op)|..] == c.Body() && t[0] == (OpText(c.op) + c.Body())[0] && t[|t| - 1] == c.Body()[|c.Body()| - 1]
      && (">=" <= t <==> c.op.Ge?) && ("<=" <= t <==> c.op.Le?)
      && (">" <= t <==> c.op.Gt? || c.op.Ge?) && ("<" <= t <==> c.op.Lt? || c.op.Le?) && ("=" <= t <==> c.op.Eq?)
      && !("^" <= t) && !("~" <= t)
  {
    BodyReads(c);
    OpParts(c.op, c.Body(), c.Text());
  }

  lemma PartMeans(v: Version, c: Comparator)
    requires c.Proper()
    ensures PartOk(v, c.Text()) <==> c.Holds(v)
  {
    TextParts(c);
    BodyReads(c);
    ExactMeans(v, c);
    match c.op
    case Gt => SingleMeans(v, c, false, false, true);
    case Ge => SingleMeans(v, c, false, true, true);
      FullMeans(v, c.Named());
    case Lt => SingleMeans(v, c, true, false, true);
    case Le => SingleMeans(v, c, true, true, true);
      FullMeans(v, c.Named());
    case _ =>
  }

  lemma SameNumbersIs(a: Version, b: Version)
    ensures CmpRelease(a, b) == Equal <==> SameNumbers(a, b)
  {
  }

  lemma NamesMeans(v: Version, c: Comparator)
    requires c.Proper()
    ensures NamesPrerelease(ComparatorBody(c.Text()), v) <==> c.Tags(v)
    ensures NamesPrerelease(c.Body(), v) <==> c.Tags(v)
  {
    BodyReads(c);
    OpBody(c.op, c.Body());
    SameNumbersIs(c.Named(), v);
  }

  // ----- alone --------------------------------------------------------------------------------

  lemma CleanText(t: string)
    requires NoWhitespace(t) && t != ""
    ensures Trim(t) == t && ' ' !in t
  {
    TrimmedStays(t);
  }

  lemma LoneText(c: Comparator)
    requires c.Proper()
    ensures var t := c.Text(); Trim(t) == t && t != "" && t != "*" && ' ' !in t && (IsSet(t) <==> c.op.Ge? || c.op.Le?)
  {
    TextParts(c);
    BodyReads(c);
    OpClean(c.op, c.Body());
    CleanText(c.Text());
  }

  lemma StrictMeans(v: Version, c: Comparator)
    requires c.Proper() && (c.op.Gt? || c.op.Lt?)
    ensures MatchesParsed(v, c.Text()) <==> c.Holds(v) && (v.pre == [] || c.Tags(v))
  {
    LoneText(c);
    TextParts(c);
    BodyReads(c);
    NamesMeans(v, c);
    SingleMeans(v, c, c.op.Lt?, false, c.Tags(v));
  }

  lemma EqualMeans(v: Version, c: Comparator)
    requires c.Proper() && (c.op.Eq? || (c.op.Plain? && !HasWild(c.Text())))
    ensures MatchesParsed(v, c.Text()) <==> c.Holds(v)
  {
    LoneText(c);
    TextParts(c);
    BodyReads(c);
    ExactMeans(v, c);
  }

  /**
   * A comparator on its own accepts exactly the versions its operator says, a tagged version only if the
   * comparator names its numbers with a tag. A bare version with a wildcard character in its tag is no comparator.
   */
  lemma ComparatorMeans(version: string, c: Comparator)
    requires c.Proper() && ParseVersion(version).Some? && (c.op.Plain? ==> !HasWild(c.Text()))
    ensures var v := ParseVersion(version).value;
      VersionMatchesReq(version, c.Text()) <==> c.Holds(v) && (v.pre == [] || c.Tags(v))
  {
    var v := ParseVersion(version).value;
    LoneText(c);
    if c.op.Gt? || c.op.Lt? {
      StrictMeans(v, c);
    } else if c.op.Eq? || c.op.Plain? {
      EqualMeans(v, c);
      if v.pre != [] && c.Holds(v) {
        EqualTags(v, c);
      }
    } else {
      OneMeans(version, c);
    }
  }

  lemma OneMeans(version: string, c: Comparator)
    requires c.Proper() && ParseVersion(version).Some? && (c.op.Ge? || c.op.Le?)
    ensures var v := ParseVersion(version).value;
      VersionMatchesReq(version, c.Text()) <==> c.Holds(v) && (v.pre == [] || c.Tags(v))
  {
    var cs := [c];
    SetMeans(version, cs);
    assert Texts(cs) == [c.Text()] && SetText(cs) == c.Text();
  }

  /** A tagged version that equals another has its numbers, and that has a tag. */
  lemma EqualTags(v: Version, c: Comparator)
    requires c.Proper() && v.pre != [] && !Below(v, c.Named()) && !Below(c.Named(), v)
    ensures c.Tags(v)
  {
  }

  /** Among releases exactly one of `<r`, `=r` and `>r` accepts. */
  lemma Trichotomy(version: string, nums: seq<nat>, ids: seq<string>)
    requires 1 <= |nums| <= 3 && Fits(nums) && AllIdents(ids) && ParseVersion(version).Some? && ParseVersion(version).value.pre == []
    ensures var lt := VersionMatchesReq(version, "<" + TaggedText(nums, ids, None));
      var eq := VersionMatchesReq(version, "=" + TaggedText(nums, ids, None));
      var gt := VersionMatchesReq(version, ">" + TaggedText(nums, ids, None));
      (lt && !eq && !gt) || (!lt && eq && !gt) || (!lt && !eq && gt)
  {
    var r := Padded(nums).(pre := ids);
    ComparatorMeans(version, Comparator(Lt, nums, ids));
    ComparatorMeans(version, Comparator(Eq, nums, ids));
    ComparatorMeans(version, Comparator(Gt, nums, ids));
    FullMeans(ParseVersion(version).value, r);
  }

  // ----- sets ---------------------------------------------------------------------------------

  predicate AllProper(cs: seq<Comparator>) {
    forall i :: 0 <= i < |cs| ==> cs[i].Proper()
  }

  function Texts(cs: seq<Comparator>): (ts: seq<string>)
    requires AllProper(cs)
    ensures |ts| == |cs| && forall i :: 0 <= i < |cs| ==> ts[i] == cs[i].Text()
  {
    seq(|cs|, i requires 0 <= i < |cs| => cs[i].Text())
  }

  /** Comparators with a space between them. */
  function SetText(cs: seq<Comparator>): string
    requires cs != [] && AllProper(cs)
  {
    WordsText(Texts(cs))
  }

  lemma WordText(c: Comparator)
    requires c.Proper()
    ensures IsWord(c.Text())
  {
    BodyReads(c);
    OpClean(c.op, c.Body());
  }

  lemma SetWords(cs: seq<Comparator>)
    requires cs != [] && AllProper(cs)
    ensures Words(SetText(cs)) == Texts(cs) && Trimmed(SetText(cs)) && SetText(cs) != ""
    ensures Texts(cs)[0] <= SetText(cs) && (|cs| > 1 ==> ' ' in SetText(cs))
  {
    forall i | 0 <= i < |cs|
      ensures IsWord(Texts(cs)[i])
    {
      WordText(cs[i]);
    }
    WordsTextSplits(Texts(cs));
  }

  lemma SetGate(v: Version, cs: seq<Comparator>, t: string)
    requires AllProper(cs) && Words(t) == Texts(cs)
    ensures SetAllows(v, t) <==> v.pre == [] || exists i :: 0 <= i < |cs| && cs[i].Tags(v)
  {
    forall i | 0 <= i < |cs|
      ensures NamesPrerelease(ComparatorBody(Texts(cs)[i]), v) <==> cs[i].Tags(v)
      ensures Texts(cs)[i] in Words(t)
    {
      NamesMeans(v, cs[i]);
    }
  }

  lemma SetParts(v: Version, cs: seq<Comparator>, t: string)
    requires AllProper(cs) && Words(t) == Texts(cs)
    ensures (forall p :: p in Words(t) ==> PartOk(v, p)) <==> forall i :: 0 <= i < |cs| ==> cs[i].Holds(v)
  {
    forall i | 0 <= i < |cs|
      ensures PartOk(v, Texts(cs)[i]) <==> cs[i].Holds(v)
      ensures Texts(cs)[i] in Words(t)
    {
      PartMeans(v, cs[i]);
    }
  }

  /** A set accepts exactly the versions that meet every comparator, a tagged one only if some comparator names its numbers with a tag. */
  lemma SetMeans(version: string, cs: seq<Comparator>)
    requires cs != [] && AllProper(cs) && ParseVersion(version).Some?
    requires |cs| > 1 || cs[0].op.Ge? || cs[0].op.Le?
    ensures var v := ParseVersion(version).value;
      VersionMatchesReq(version, SetText(cs)) <==>
        && (forall i :: 0 <= i < |cs| ==> cs[i].Holds(v))
        && (v.pre == [] || exists i :: 0 <= i < |cs| && cs[i].Tags(v))
  {
    var v, t := ParseVersion(version).value, SetText(cs);
    SetWords(cs);
    TrimmedStays(t);
    SetTextIsSet(cs);
    SetRoute(version, t);
    SetGate(v, cs, t);
    SetParts(v, cs, t);
  }

  lemma SetTextIsSet(cs: seq<Comparator>)
    requires cs != [] && AllProper(cs) && (|cs| > 1 || cs[0].op.Ge? || cs[0].op.Le?)
    ensures IsSet(SetText(cs)) && SetText(cs) != "*"
  {
    SetWords(cs);
    TextParts(cs[0]);
    FirstWord(cs[0], SetText(cs));
  }

  lemma FirstWord(c: Comparator, t: string)
    requires c.Proper() && c.Text() <= t
    ensures t != "*" && (c.op.Ge? ==> ">=" <= t) && (c.op.Le? ==> "<=" <= t)
  {
    BodyReads(c);
    assert t[..|c.Text()|] == c.Text();
    assert c.op.Plain? ==> t[0] == c.Body()[0];
    assert !c.op.Plain? ==> t[0] == OpText(c.op)[0];
  }

  // ----- carets and tildes --------------------------------------------------------------------

  /** The left-most number that is not 0, or the patch, may not change. */
  predicate KeepsLeftmost(v: Version, r: Version) {
    && v.major == r.major
    && (r.major == 0 ==> v.minor == r.minor)
    && (r.major == 0 && r.minor == 0 ==> v.patch == r.patch)
  }

  /** `^r`, with or without a tag, for releases and tagged versions alike. */
  lemma CaretMeansAll(version: string, c: Comparator)
    requires c.Proper() && ParseVersion(version).Some?
    ensures var v := ParseVersion(version).value;
      VersionMatchesReq(version, ['^'] + c.Body()) <==>
        !Below(v, c.Named()) && KeepsLeftmost(v, c.Named()) && (v.pre == [] || c.Tags(v))
  {
    var v := ParseVersion(version).value;
    BodyReads(c);
    CleanText(c.Body());
    OperatorRoute('^', version, c.Body());
    FullMeans(v, c.Named());
    SameNumbersIs(v, c.Named());
  }

  /** `~r` keeps the major and, if a dot is written, the minor; it compares the numbers only. */
  lemma TildeMeansAll(version: string, c: Comparator)
    requires c.Proper() && ParseVersion(version).Some?
    ensures var v := ParseVersion(version).value;
      VersionMatchesReq(version, ['~'] + c.Body()) <==>
        && !NumbersBelow(v, c.Named()) && v.major == c.Named().major && ('.' in c.Body() ==> v.minor == c.Named().minor)
        && (v.pre == [] || c.Tags(v))
  {
    var v := ParseVersion(version).value;
    BodyReads(c);
    CleanText(c.Body());
    OperatorRoute('~', version, c.Body());
    SameNumbersIs(v, c.Named());
    assert CmpRelease(v, c.Named()) == Less <==> NumbersBelow(v, c.Named());
  }

  // ----- no requirement, and unreadable ones --------------------------------------------------

  /** No requirement, or `*`, accepts anything that is not blank; only `*` is valid. */
  lemma AnyMeans(version: string, req: string)
    requires Trim(req) == "" || Trim(req) == "*"
    ensures VersionMatchesReq(version, req) <==> Trim(version) != ""
    ensures ValidVersionReq(req) <==> Trim(req) == "*"
  {
  }

  /** Any other requirement is matched only by versions that can be read. */
  lemma UnreadableMatchesNothing(version: string, req: string)
    requires ParseVersion(version).None? && Trim(req) != "" && Trim(req) != "*"
    ensures !VersionMatchesReq(version, req)
  {
  }

  /** A set is valid exactly when every part of it can be read, whether or not anything satisfies it. */
  lemma ValidSetIff(req: string)
    requires IsSet(Trim(req))
    ensures ValidVersionReq(req) <==> forall p :: p in Words(Trim(req)) ==> ParseVersion(ComparatorBody(p)).Some?
  {
    var t, canary := Trim(req), Version(1, 0, 0, []);
    if MatchComparators(canary, t) {
      SetParses(canary, t);
    }
  }

  /** So every set of written comparators is valid, and one with an unreadable word is not, nor matched by anything. */
  lemma WrittenSetIsValid(cs: seq<Comparator>)
    requires cs != [] && AllProper(cs) && (|cs| > 1 || cs[0].op.Ge? || cs[0].op.Le?)
    ensures ValidVersionReq(SetText(cs))
  {
    var t := SetText(cs);
    SetWords(cs);
    TrimmedStays(t);
    SetTextIsSet(cs);
    TextsRead(cs);
    ValidSetIff(t);
  }

  lemma TextsRead(cs: seq<Comparator>)
    requires AllProper(cs)
    ensures forall p :: p in Texts(cs) ==> ParseVersion(ComparatorBody(p)).Some?
  {
    forall i | 0 <= i < |cs|
      ensures ParseVersion(ComparatorBody(Texts(cs)[i])).Some?
    {
      BodyReads(cs[i]);
      OpBody(cs[i].op, cs[i].Body());
    }
  }

  lemma UnreadableWordRefused(version: string, req: string, p: string)
    requires IsSet(Trim(req)) && p in Words(Trim(req)) && ParseVersion(ComparatorBody(p)).None?
    ensures !ValidVersionReq(req) && !VersionMatchesReq(version, req)
  {
    ValidSetIff(req);
    if VersionMatchesReq(version, req) {
      SetParses(ParseVersion(version).value, Trim(req));
    }
  }

  /** Without wildcard characters, a single requirement is valid exactly when what follows its operator can be read. */
  lemma ValidSingleIff(req: string)
    requires var t := Trim(req); t != "" && !IsSet(t) && !HasWild(t)
    ensures ValidVersionReq(req) <==> ParseVersion(if Trim(req)[0] in "<>=^~" then Trim(req)[1..] else Trim(req)).Some?
  {
  }

  // ----- which texts are versions -------------------------------------------------------------

  predicate Number(p: string) {
    p != "" && (forall i :: 0 <= i < |p| ==> '0' <= p[i] <= '9') && Value(p) < 0x1_0000_0000_0000_0000
  }

  predicate Identifier(p: string) {
    p != "" && forall i :: 0 <= i < |p| ==>
      '0' <= p[i] <= '9' || 'a' <= p[i] <= 'z' || 'A' <= p[i] <= 'Z' || p[i] == '-'
  }

  /** What follows the first dash, and what follows the first plus sign, if there are any. */
  function Written(core: string, tag: Option<string>, build: Option<string>): string {
    core + (if tag.Some? then ['-'] + tag.value else "") + (if build.Some? then ['+'] + build.value else "")
  }

  lemma WrittenParts(core: string, tag: Option<string>, build: Option<string>, t: string)
    requires '-' !in core && '+' !in core && (tag.Some? ==> '+' !in tag.value) && t == Written(core, tag, build)
    ensures var s := core + (if tag.Some? then ['-'] + tag.value else "");
      Before(t, '+') == s && Before(s, '-') == core && Behind(s, '-') == if tag.Some? then tag.value else ""
  {
    var s := core + (if tag.Some? then ['-'] + tag.value else "");
    BuildParts(s, build);
    assert t == s + BuildText(build);
    if tag.Some? {
      assert s == core + ['-'] + tag.value;
      IndexOfAppend(core, tag.value, '-');
      assert s[..|core|] == core && s[|core| + 1..] == tag.value && s[|core|] == '-';
    } else {
      assert s == core;
    }
  }

  lemma IdentifierIs(p: string)
    ensures IsIdent(p) <==> Identifier(p)
  {
    assert IsIdent(p) ==> forall i :: 0 <= i < |p| ==> IsIdentChar(p[i]);
  }

  lemma NumberIs(p: string)
    ensures Component(p).Some? <==> Number(p)
    ensures Number(p) ==> Component(p) == Some(Value(p))
  {
    assert AllDigits(p) ==> forall i :: 0 <= i < |p| ==> IsDigit(p[i]);
  }

  /** What is read of a core, if it is one: at most three parts of which the first is a number. */
  ghost predicate CoreReadsAs(core: string, ids: seq<string>, r: Option<Version>) {
    var parts := Split(core, '.');
    if |parts| <= 3 && Number(parts[0])
    then r == Some(Version(Value(parts[0]),
                           if |parts| > 1 && Number(parts[1]) then Value(parts[1]) else 0,
                           if |parts| > 2 && Number(parts[2]) then Value(parts[2]) else 0, ids))
    else r == None
  }

  lemma CoreExactly(core: string, ids: seq<string>)
    ensures CoreReadsAs(core, ids, ParseCore(core, ids))
  {
    var parts := Split(core, '.');
    NumberIs(parts[0]);
    if |parts| > 1 {
      NumberIs(parts[1]);
    }
    if |parts| > 2 {
      NumberIs(parts[2]);
    }
    EmptyCore(core);
  }

  /** The identifiers of a tag: none if it is missing or empty. */
  function TagIds(tag: Option<string>): seq<string> {
    if tag.None? || tag.value == "" then [] else Split(tag.value, '.')
  }

  /** Exactly which texts are versions, and what is read: the core, if each part of the tag is an identifier. */
  lemma ParseExactly(core: string, tag: Option<string>, build: Option<string>, t: string)
    requires '-' !in core && '+' !in core && (tag.Some? ==> '+' !in tag.value) && t == Written(core, tag, build)
    requires t != "" && !IsWhitespace(t[0]) && t[0] != 'v' && !IsWhitespace(t[|t| - 1])
    ensures if forall i :: 0 <= i < |TagIds(tag)| ==> Identifier(TagIds(tag)[i])
            then CoreReadsAs(core, TagIds(tag), ParseVersion(t))
            else ParseVersion(t) == None
  {
    var ids := TagIds(tag);
    TrimmedStays(t);
    WrittenParts(core, tag, build, t);
    assert ParseVersion(t) == if forall id :: id in ids ==> IsIdent(id) then ParseCore(core, ids) else None;
    IdsAre(ids);
    CoreExactly(core, ids);
  }

  lemma IdsAre(ids: seq<string>)
    ensures (forall id :: id in ids ==> IsIdent(id)) <==> forall i :: 0 <= i < |ids| ==> Identifier(ids[i])
  {
    forall i | 0 <= i < |ids|
      ensures IsIdent(ids[i]) <==> Identifier(ids[i])
    {
      IdentifierIs(ids[i]);
    }
    assert forall i :: 0 <= i < |ids| ==> ids[i] in ids;
  }

  lemma EmptyCore(core: string)
    ensures core == "" ==> !Number(Split(core, '.')[0])
  {
  }

  /** White space around a version, or a requirement, does not matter. */
  lemma PaddingIgnored(w: char, s: string, version: string)
    requires IsWhitespace(w)
    ensures ParseVersion([w] + s) == ParseVersion(s) == ParseVersion(s + [w])
    ensures VersionMatchesReq(version, [w] + s) == VersionMatchesReq(version, s) == VersionMatchesReq(version, s + [w])
    ensures ValidVersionReq([w] + s) == ValidVersionReq(s) == ValidVersionReq(s + [w])
  {
    TrimFront(w, s);
    TrimBack(s, w);
  }

  // ----- identifiers --------------------------------------------------------------------------

  /** At the first difference the smaller character, or the end of the text, comes first. */
  ghost predicate TextBelow(a: string, b: string) {
    exists k :: 0 <= k <= |a| && k < |b| && a[..k] == b[..k] && (k == |a| || a[k] < b[k])
  }

  lemma {:induction false} StringMeans(a: string, b: string)
    ensures CmpString(a, b) == Less <==> TextBelow(a, b)
  {
    if a == "" {
      if b != "" {
        assert a[..0] == b[..0];
      }
    } else if b != "" {
      StringMeans(a[1..], b[1..]);
      if a[0] < b[0] {
        assert a[..0] == b[..0];
      } else if a[0] == b[0] {
        TextBelowTail(a, b);
      } else {
        assert forall k :: 0 < k <= |a| && k <= |b| ==> a[..k][0] == a[0] && b[..k][0] == b[0];
      }
    }
  }

  lemma TextBelowTail(a: string, b: string)
    requires a != "" && b != "" && a[0] == b[0]
    ensures TextBelow(a, b) <==> TextBelow(a[1..], b[1..])
  {
    if k :| 0 <= k <= |a| && k < |b| && a[..k] == b[..k] && (k == |a| || a[k] < b[k]) {
      assert k > 0 && a[1..][..k - 1] == a[..k][1..] == b[..k][1..] == b[1..][..k - 1];
    }
    if k :| 0 <= k <= |a[1..]| && k < |b[1..]| && a[1..][..k] == b[1..][..k] && (k == |a[1..]| || a[1..][k] < b[1..][k]) {
      assert a[..k + 1] == [a[0]] + a[1..][..k] == [b[0]] + b[1..][..k] == b[..k + 1];
    }
  }

  /** Two numbers compare by value, anything else as text. */
  lemma IdentifierOrder(x: string, y: string)
    requires Identifier(x) && Identifier(y)
    ensures CmpIdent(x, y) == Less <==> if Number(x) && Number(y) then Value(x) < Value(y) else TextBelow(x, y)
  {
    NumberIs(x);
    NumberIs(y);
    UnsignedReads(x);
    UnsignedReads(y);
    StringMeans(x, y);
  }

  lemma UnsignedReads(p: string)
    requires Identifier(p)
    ensures ParseU64(p) == Component(p)
  {
    assert p[0] != '+';
  }
}
