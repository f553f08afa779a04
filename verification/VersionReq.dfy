/** Version requirements: the matcher, the validator, and how they agree. */
module VersionReq {
  import opened Prelude
  import opened Text
  import opened Decimal
  import opened SemVer

  // ----- the forms ----------------------------------------------------------------------------

  predicate MatchExact(v: Version, req: string) {
    var r := ParseVersion(req);
    r.Some? && CmpFull(v, r.value) == Equal
  }

  /** A pre-release satisfies a range only when the range names its triple with a pre-release of its own. */
  predicate PrereleaseOk(v: Version, r: Version) {
    v.pre == [] || (CmpRelease(v, r) == Equal && r.pre != [])
  }

  predicate WithinCaret(v: Version, r: Version) {
    if r.major > 0 then v.major == r.major
    else if r.minor > 0 then v.major == 0 && v.minor == r.minor
    else v.major == 0 && v.minor == 0 && v.patch == r.patch
  }

  predicate MatchCaret(v: Version, req: string) {
    var r := ParseVersion(req);
    r.Some? && CmpFull(v, r.value) != Less && WithinCaret(v, r.value) && PrereleaseOk(v, r.value)
  }

  predicate MatchTilde(v: Version, req: string) {
    var r := ParseVersion(req);
    && r.Some? && CmpRelease(v, r.value) != Less
    && v.major == r.value.major && ('.' in req ==> v.minor == r.value.minor)
    && PrereleaseOk(v, r.value)
  }

  predicate Wild(p: string) {
    p == "*" || p == "x" || p == "X"
  }

  /** One to two numbers, then only wildcards, three parts at most. */
  predicate WildcardShape(parts: seq<string>) {
    |parts| <= 3 && exists k :: 1 <= k < |parts| && NumbersThenWild(parts, k)
  }

  predicate NumbersThenWild(parts: seq<string>, k: nat)
    requires k <= |parts|
  {
    && (forall i :: 0 <= i < k ==> ParseU64(parts[i]).Some? && !Wild(parts[i]))
    && (forall i :: k <= i < |parts| ==> Wild(parts[i]))
  }

  predicate WildcardAccepts(v: Version, parts: seq<string>) {
    && WildcardShape(parts)
    && v.major == OrZero(ParseU64(parts[0]))
    && (Wild(parts[1]) || v.minor == OrZero(ParseU64(parts[1])))
    && (|parts| > 2 ==> Wild(Before(parts[2], '-')) || v.patch == OrZero(ParseU64(parts[2])))
    && v.pre == []
  }

  predicate MatchWildcard(v: Version, req: string) {
    WildcardAccepts(v, Split(req, '.'))
  }

  predicate MatchSingle(v: Version, body: string, less: bool, orEqual: bool, allowPre: bool) {
    var t := Trim(body);
    var r := ParseVersion(t);
    && !(t != "" && t[0] in {'=', '>', '<'})
    && r.Some?
    && (v.pre == [] || allowPre)
    && (CmpFull(v, r.value) == (if less then Less else Greater) || (orEqual && CmpFull(v, r.value) == Equal))
  }

  function ComparatorBody(part: string): string {
    Trim(if ">=" <= part || "<=" <= part then part[2..]
         else if part != "" && part[0] in {'>', '<', '='} then part[1..]
         else part)
  }

  predicate NamesPrerelease(body: string, v: Version) {
    var r := ParseVersion(body);
    r.Some? && r.value.pre != [] && CmpRelease(r.value, v) == Equal
  }

  predicate PartOk(v: Version, part: string) {
    if ">=" <= part then MatchSingle(v, part[2..], false, true, true)
    else if "<=" <= part then MatchSingle(v, part[2..], true, true, true)
    else if ">" <= part then MatchSingle(v, part[1..], false, false, true)
    else if "<" <= part then MatchSingle(v, part[1..], true, false, true)
    else if "=" <= part then MatchExact(v, Trim(part[1..]))
    else MatchExact(v, part)
  }

  predicate SetAllows(v: Version, req: string) {
    v.pre == [] || exists p :: p in Words(req) && NamesPrerelease(ComparatorBody(p), v)
  }

  /** Every part of a comparator set holds. */
  predicate MatchComparators(v: Version, req: string) {
    SetAllows(v, req) && forall p :: p in Words(req) ==> PartOk(v, p)
  }

  predicate IsSet(req: string) {
    ' ' in req || ">=" <= req || "<=" <= req
  }

  predicate HasOp(req: string) {
    req != "" && req[0] in {'>', '<', '=', '^', '~'}
  }

  function StripOp(req: string): string {
    if HasOp(req) then req[1..] else req
  }

  predicate HasWild(req: string) {
    '*' in req || 'x' in req || 'X' in req
  }

  /** The requirement `req`, already trimmed and neither empty nor `*`, against a parsed version. */
  predicate MatchesParsed(v: Version, req: string) {
    if IsSet(req) then MatchComparators(v, req)
    else if ">" <= req then MatchSingle(v, req[1..], false, false, NamesPrerelease(Trim(req[1..]), v))
    else if "<" <= req then MatchSingle(v, req[1..], true, false, NamesPrerelease(Trim(req[1..]), v))
    else if "=" <= req then MatchExact(v, Trim(req[1..]))
    else if "^" <= req then MatchCaret(v, Trim(req[1..]))
    else if "~" <= req then MatchTilde(v, Trim(req[1..]))
    else if HasWild(req) then MatchWildcard(v, req)
    else MatchExact(v, req)
  }

  predicate VersionMatchesReq(version: string, req: string) {
    var t := Trim(req);
    if t == "" || t == "*" then Trim(version) != ""
    else ParseVersion(version).Some? && MatchesParsed(ParseVersion(version).value, t)
  }

  predicate ParsesAsSet(req: string) {
    forall p :: p in Words(req) ==> ParseVersion(ComparatorBody(p)).Some?
  }

  /** The validator on a trimmed requirement that is neither empty nor `*`. */
  predicate ValidTrimmed(t: string) {
    if IsSet(t) then MatchComparators(Version(1, 0, 0, []), t) || ParsesAsSet(t)
    else if HasWild(t) then WildcardShape(Split(StripOp(t), '.'))
    else ParseVersion(StripOp(t)).Some?
  }

  predicate ValidVersionReq(req: string) {
    var t := Trim(req);
    if t == "" || t == "*" then t == "*" else ValidTrimmed(t)
  }

  // ----- the loops ----------------------------------------------------------------------------

  /** `wildcard_parses`. */
  method WildcardParses(req: string) returns (ok: bool)
    ensures ok == WildcardShape(Split(req, '.'))
  {
    var parts := Split(req, '.');
    if |parts| > 3 {
      return false;
    }
    var seenWild := false;
    ghost var first: nat := |parts|;
    for i := 0 to |parts|
      invariant WildSoFar(parts, i, seenWild, first)
    {
      if Wild(parts[i]) {
        if !seenWild {
          first := i;
        }
        seenWild := true;
        if i == 0 {
          FirstWildRefuses(parts);
          return false;
        }
      } else if seenWild || ParseU64(parts[i]).None? {
        BadPartRefuses(parts, i, seenWild, first);
        return false;
      }
    }
    WildAtEnd(parts, seenWild, first);
    return seenWild;
  }

  /** The parts before i: numbers, and from `first` on, once a wildcard was seen, only wildcards. */
  ghost predicate WildSoFar(parts: seq<string>, i: nat, seen: bool, first: nat)
    requires i <= |parts|
  {
    && (seen ==> 1 <= first < i)
    && (forall k :: 0 <= k < i ==>
          if seen && first <= k then Wild(parts[k]) else ParseU64(parts[k]).Some? && !Wild(parts[k]))
  }

  lemma WildAtEnd(parts: seq<string>, seen: bool, first: nat)
    requires |parts| <= 3 && WildSoFar(parts, |parts|, seen, first)
    ensures WildcardShape(parts) == seen
  {
    if seen {
      assert NumbersThenWild(parts, first);
    } else {
      NoWildRefuses(parts);
    }
  }

  lemma FirstWildRefuses(parts: seq<string>)
    requires parts != [] && Wild(parts[0])
    ensures !WildcardShape(parts)
  {
  }

  lemma BadPartRefuses(parts: seq<string>, i: nat, seen: bool, first: nat)
    requires i < |parts| && !Wild(parts[i])
    requires ParseU64(parts[i]).None? || (seen && first < i && Wild(parts[first]))
    ensures !WildcardShape(parts)
  {
  }

  lemma NoWildRefuses(parts: seq<string>)
    requires NumbersThenWild(parts, |parts|)
    ensures !WildcardShape(parts)
  {
    forall k | 1 <= k < |parts|
      ensures !NumbersThenWild(parts, k)
    {
      assert !Wild(parts[k]);
    }
  }

  /** `match_comparators`. */
  method MatchComparatorSet(v: Version, req: string) returns (ok: bool)
    ensures ok == MatchComparators(v, req)
  {
    var allowed := SetAllows(v, req);
    if !allowed {
      return false;
    }
    ok := AllPartsOk(v, Words(req));
  }

  method AllPartsOk(v: Version, parts: seq<string>) returns (ok: bool)
    ensures ok <==> forall p :: p in parts ==> PartOk(v, p)
  {
    ok := true;
    for i := 0 to |parts|
      invariant ok && forall p :: p in parts[..i] ==> PartOk(v, p)
    {
      assert parts[..i + 1] == parts[..i] + [parts[i]];
      var partOk := PartOk(v, parts[i]);
      ok := ok && partOk;
      if !ok {
        return false;
      }
    }
    assert parts[..|parts|] == parts;
  }

  // ----- validator and matcher ----------------------------------------------------------------

  lemma ParseTrimmed(s: string)
    ensures ParseVersion(Trim(s)) == ParseVersion(s)
  {
    TrimTwice(s);
  }

  lemma PartParses(v: Version, part: string)
    requires PartOk(v, part)
    ensures ParseVersion(ComparatorBody(part)).Some?
  {
    ParseTrimmed(part);
  }

  /** Operator, then a body with a wildcard character that is not a trailing wildcard. */
  predicate BrokenWildcard(t: string) {
    !IsSet(t) && HasOp(t) && HasWild(t) && !WildcardShape(Split(StripOp(t), '.'))
  }

  lemma SetParses(v: Version, t: string)
    requires MatchComparators(v, t)
    ensures ParsesAsSet(t)
  {
    forall p | p in Words(t)
      ensures ParseVersion(ComparatorBody(p)).Some?
    {
      PartParses(v, p);
    }
  }

  lemma OperatorParses(v: Version, t: string)
    requires !IsSet(t) && HasOp(t) && MatchesParsed(v, t)
    ensures ParseVersion(StripOp(t)).Some?
  {
    ParseTrimmed(t[1..]);
  }

  lemma BareParses(v: Version, t: string)
    requires !IsSet(t) && !HasOp(t) && MatchesParsed(v, t)
    ensures if HasWild(t) then WildcardShape(Split(t, '.')) else ParseVersion(t).Some?
  {
    assert !(">" <= t) && !("<" <= t) && !("=" <= t) && !("^" <= t) && !("~" <= t);
  }

  lemma MatchedParsedIsValid(v: Version, t: string)
    requires MatchesParsed(v, t)
    ensures ValidTrimmed(t) <==> !BrokenWildcard(t)
  {
    if IsSet(t) {
      SetParses(v, t);
    } else if HasOp(t) {
      OperatorParses(v, t);
    } else {
      BareParses(v, t);
    }
  }

  /** A non-empty requirement that some version satisfies is valid, exactly unless it hides a broken wildcard behind an operator. */
  lemma MatchedIsValid(version: string, req: string)
    requires VersionMatchesReq(version, req) && Trim(req) != ""
    ensures ValidVersionReq(req) <==> !BrokenWildcard(Trim(req))
  {
    if Trim(req) != "*" {
      MatchedParsedIsValid(ParseVersion(version).value, Trim(req));
    }
  }

  // ----- requirements and their own bodies ----------------------------------------------------

  lemma NumberLacksDash(p: string)
    requires '-' in p
    ensures ParseU64(p).None? && !Wild(p)
  {
    var i :| 0 <= i < |p| && p[i] == '-';
    var body := if p[0] == '+' then p[1..] else p;
    assert p[0] == '+' ==> body[i - 1] == '-';
  }

  /** A text with a dash is no wildcard. */
  lemma DashIsNoWildcard(t: string)
    requires '-' in t
    ensures !WildcardShape(Split(t, '.'))
  {
    var j :| 0 <= j < |t| && t[j] == '-';
    var i := SplitHolds(t, '.', j);
    NumberLacksDash(Split(t, '.')[i]);
    BadPartRefuses(Split(t, '.'), i, false, 0);
  }

  /** Digits without a sign read the same either way, and a wildcard as no number. */
  lemma PartReads(p: string)
    requires '+' !in p
    ensures Component(p) == ParseU64(p)
    ensures Wild(p) ==> Component(p).None? && Before(p, '-') == p
  {
    if Wild(p) {
      assert !IsDigit(p[0]);
    }
  }

  lemma WildcardFront(t: string)
    requires Trimmed(t) && '+' !in t && WildcardShape(Split(t, '.'))
    ensures ParseVersion(t) == ParseCore(t, []) && t != ""
  {
    var first := Split(t, '.')[0];
    assert first == t[..IndexOf(t, '.')] && ParseU64(first).Some?;
    SplitLacks(t, '.', '+');
    PartReads(first);
    assert IsDigit(first[0]) && first[0] == t[0];
    TrimmedStays(t);
    if '-' in t {
      DashIsNoWildcard(t);
    }
    assert Before(t, '+') == t && Before(t, '-') == t && Behind(t, '-') == "";
  }

  /** A trailing wildcard accepts the version it is read as. */
  lemma WildcardBody(t: string)
    requires Trimmed(t) && '+' !in t && WildcardShape(Split(t, '.'))
    ensures ParseVersion(t).Some? && WildcardAccepts(ParseVersion(t).value, Split(t, '.'))
  {
    var parts := Split(t, '.');
    WildcardFront(t);
    SplitLacks(t, '.', '+');
    PartReads(parts[0]);
    PartReads(parts[1]);
    if |parts| > 2 {
      PartReads(parts[2]);
    }
  }

  /** The first two parts of a wildcard, and what is behind the first dot. */
  lemma WildcardParts(t: string) returns (first: string, rest: string)
    requires WildcardShape(Split(t, '.'))
    ensures first == Split(t, '.')[0] && t == first + ['.'] + rest && '.' !in first && first != "" && ParseU64(first).Some?
    ensures Split(t, '.')[1] == Split(rest, '.')[0] && Split(rest, '.')[0] <= rest
  {
    var k := IndexOf(t, '.');
    first, rest := t[..k], t[k + 1..];
    assert t[k] == '.';
  }

  /** A number with a sign in front is no version. */
  lemma SignedFirst(t: string)
    requires Trimmed(t) && t != "" && t[0] == '+'
    ensures ParseVersion(t).None?
  {
    TrimmedStays(t);
    assert IndexOf(t, '+') == 0 && t[..0] == "";
  }

  lemma ReadsAs(t: string, core: string, build: string)
    requires Trimmed(t) && t == core + ['+'] + build && core != "" && core[0] != 'v' && '+' !in core && '-' !in core
    ensures ParseVersion(t) == ParseCore(core, [])
  {
    TrimmedStays(t);
    IndexOfAppend(core, build, '+');
    assert t[0] == core[0] && t[..|core|] == core && core[..|core|] == core;
  }

  lemma DottedCore(first: string)
    requires '.' !in first && '+' !in first && ParseU64(first).Some?
    ensures ParseCore(first + ['.'], []) == Some(Version(ParseU64(first).value, 0, 0, []))
  {
    SplitOne("", '.');
    SplitCons(first, "", '.');
    assert first + ['.'] + "" == first + ['.'];
    PartReads(first);
  }

  /** A signed second number reads as build metadata. */
  lemma SignedSecond(t: string)
    requires Trimmed(t) && WildcardShape(Split(t, '.')) && t[0] != '+'
    requires Split(t, '.')[1] != "" && Split(t, '.')[1][0] == '+'
    ensures ParseVersion(t) == Some(Version(ParseU64(Split(t, '.')[0]).value, 0, 0, []))
  {
    var first, rest := WildcardParts(t);
    SignedBehind(t, first, rest);
  }

  lemma SignedBehind(t: string, first: string, rest: string)
    requires Trimmed(t) && t == first + ['.'] + rest && '.' !in first && first != "" && ParseU64(first).Some?
    requires t[0] != '+' && rest != "" && rest[0] == '+'
    ensures ParseVersion(t) == Some(Version(ParseU64(first).value, 0, 0, []))
  {
    assert first[0] == t[0];
    NumberChars(first);
    assert t == (first + ['.']) + ['+'] + rest[1..];
    ReadsAs(t, first + ['.'], rest[1..]);
    DottedCore(first);
  }

  lemma NumberChars(p: string)
    requires p != "" && ParseU64(p).Some? && p[0] != '+'
    ensures AllDigits(p) && '+' !in p && '-' !in p && p[0] != 'v'
  {
    assert IsDigit(p[0]);
  }

  lemma PartSign(parts: seq<string>, i: nat)
    requires WildcardShape(parts) && i < |parts| && '+' in parts[i]
    ensures i <= 1 && parts[i][0] == '+'
  {
    if parts[i][0] != '+' {
      assert !Wild(parts[i]);
      NumberChars(parts[i]);
    }
  }

  lemma FirstChar(t: string)
    requires Split(t, '.')[0] != ""
    ensures t != "" && t[0] == Split(t, '.')[0][0]
  {
  }

  /** Where a wildcard may hold a sign. */
  lemma SignPlace(t: string, parts: seq<string>)
    requires parts == Split(t, '.') && WildcardShape(parts) && '+' in t
    ensures t[0] == '+' || (parts[1] != "" && parts[1][0] == '+')
  {
    var j :| 0 <= j < |t| && t[j] == '+';
    var i := SplitHolds(t, '.', j);
    PartSign(parts, i);
    if i == 0 {
      FirstChar(t);
    }
  }

  /** The second part of a wildcard is a signed number other than 0. */
  predicate SignedMinor(t: string) {
    var parts := Split(t, '.');
    |parts| > 1 && parts[1] != "" && parts[1][0] == '+' && OrZero(ParseU64(parts[1])) != 0
  }

  /** Which wildcards are versions, and which of them accept the version they are read as. */
  lemma WildcardReads(t: string)
    requires Trimmed(t) && WildcardShape(Split(t, '.'))
    ensures t != "" && (ParseVersion(t).Some? <==> t[0] != '+')
    ensures t[0] != '+' ==> (WildcardAccepts(ParseVersion(t).value, Split(t, '.')) <==> !SignedMinor(t))
  {
    var first, rest := WildcardParts(t);
    assert t[0] == first[0];
    if '+' !in t {
      WildcardBody(t);
      SplitLacks(t, '.', '+');
    } else if t[0] == '+' {
      SignedFirst(t);
    } else {
      SignPlace(t, Split(t, '.'));
      SignedSecond(t);
      ThirdIsWild(t);
    }
  }

  lemma ThirdIsWild(t: string)
    requires WildcardShape(Split(t, '.'))
    ensures |Split(t, '.')| > 2 ==> Wild(Before(Split(t, '.')[2], '-'))
  {
    if |Split(t, '.')| > 2 {
      assert Wild(Split(t, '.')[2]);
      PartReads(Split(t, '.')[2]);
    }
  }

  lemma FirstCharStays(t: string)
    requires Trimmed(t) && HasOp(t) && WildcardShape(Split(t[1..], '.'))
    ensures Trimmed(t[1..])
  {
    var body := t[1..];
    var first, rest := WildcardParts(body);
    assert body[0] == first[0] && (first[0] == '+' || IsDigit(first[0]));
    assert body[|body| - 1] == t[|t| - 1];
  }

  /** A wildcard whose numbers carry a sign: taken by the wildcard reader, not by the version reader. */
  predicate SignedWildcard(t: string) {
    HasWild(t) && ("+" <= StripOp(t) || (!HasOp(t) && SignedMinor(t)))
  }

  lemma BodyReads(t: string)
    requires Trimmed(t) && t != "" && !IsSet(t) && ValidTrimmed(t)
    ensures ParseVersion(StripOp(t)).Some? <==> !(HasWild(t) && "+" <= StripOp(t))
    ensures !HasOp(t) && HasWild(t) && !("+" <= t) ==> (WildcardAccepts(ParseVersion(t).value, Split(t, '.')) <==> !SignedMinor(t))
  {
    if HasWild(t) {
      if HasOp(t) {
        FirstCharStays(t);
        WildcardReads(t[1..]);
      } else {
        WildcardReads(t);
      }
    }
  }

  /**
   * A valid caret, tilde, equality, exact or wildcard requirement accepts its own body, exactly unless it
   * is a wildcard with a signed number: a plus sign is part of the number there and build metadata elsewhere.
   */
  lemma AcceptsItself(req: string)
    requires ValidVersionReq(req)
    requires var t := Trim(req); t != "*" && !IsSet(t) && !(">" <= t) && !("<" <= t)
    ensures VersionMatchesReq(StripOp(Trim(req)), req) <==> !SignedWildcard(Trim(req))
  {
    var t := Trim(req);
    TrimIsTrimmed(req);
    BodyReads(t);
    if ParseVersion(StripOp(t)).Some? {
      SelfMatch(t, ParseVersion(StripOp(t)).value);
    }
  }

  lemma OperatorSelfMatch(t: string, v: Version)
    requires t != "" && t[0] in {'=', '^', '~'} && !IsSet(t) && ParseVersion(t[1..]) == Some(v)
    ensures MatchesParsed(v, t)
  {
    ParseTrimmed(t[1..]);
    FullReflexive(v);
    assert "=" <= t || "^" <= t || "~" <= t;
  }

  lemma BareSelfMatch(t: string, v: Version)
    requires t != "" && !HasOp(t) && !IsSet(t) && ParseVersion(t) == Some(v)
    ensures MatchesParsed(v, t) <==> !HasWild(t) || WildcardAccepts(v, Split(t, '.'))
  {
    FullReflexive(v);
  }

  lemma SelfMatch(t: string, v: Version)
    requires t != "" && !IsSet(t) && !(">" <= t) && !("<" <= t) && ParseVersion(StripOp(t)) == Some(v)
    ensures MatchesParsed(v, t) <==> HasOp(t) || !HasWild(t) || WildcardAccepts(v, Split(t, '.'))
  {
    if HasOp(t) {
      OperatorSelfMatch(t, v);
    } else {
      BareSelfMatch(t, v);
    }
  }

  /** A bare requirement with a dash and a wildcard character is read as a wildcard: refused, and matched by no version. */
  lemma DashedWildcardMatchesNothing(req: string)
    requires var t := Trim(req); t != "*" && !IsSet(t) && !HasOp(t) && HasWild(t) && '-' in t
    ensures !ValidVersionReq(req) && forall version :: !VersionMatchesReq(version, req)
  {
    DashIsNoWildcard(Trim(req));
  }

  /** `~r` compares triples only: what it accepts below r are exactly the earlier pre-releases of a tagged r. */
  lemma TildeBelow(v: Version, req: string, r: Version)
    requires ParseVersion(req) == Some(r)
    ensures MatchTilde(v, req) && CmpFull(v, r) == Less <==>
            v.pre != [] && r.pre != [] && CmpRelease(v, r) == Equal && CmpPre(v.pre, r.pre) == Less
  {
  }
}
