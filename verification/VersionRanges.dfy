/** What sets of versions the requirement forms denote. */
module VersionRanges {
  import opened Text
  import opened SemVer
  import opened VersionReq

  // ----- pre-releases -------------------------------------------------------------------------

  /** The requirement names the triple of `v` together with a pre-release tag. */
  ghost predicate NamesTriple(t: string, v: Version) {
    if IsSet(t) then exists p :: p in Words(t) && NamesPrerelease(ComparatorBody(p), v)
    else NamesPrerelease(StripOp(t), v)
  }

  lemma NamesTrimmed(s: string, v: Version)
    ensures NamesPrerelease(Trim(s), v) == NamesPrerelease(s, v)
  {
    ParseTrimmed(s);
  }

  lemma ExactNames(v: Version, req: string)
    requires v.pre != [] && MatchExact(v, req)
    ensures NamesPrerelease(req, v)
  {
  }

  lemma SingleNames(v: Version, body: string, less: bool, allow: bool)
    requires v.pre != [] && MatchSingle(v, body, less, false, allow)
    ensures allow
  {
  }

  lemma CaretNames(v: Version, req: string)
    requires v.pre != [] && MatchCaret(v, req)
    ensures NamesPrerelease(req, v)
  {
  }

  lemma TildeNames(v: Version, req: string)
    requires v.pre != [] && MatchTilde(v, req)
    ensures NamesPrerelease(req, v)
  {
  }

  lemma OperatorGate(v: Version, t: string)
    requires v.pre != [] && !IsSet(t) && HasOp(t) && MatchesParsed(v, t)
    ensures NamesPrerelease(Trim(t[1..]), v)
  {
    var body := t[1..];
    if ">" <= t {
      SingleNames(v, body, false, NamesPrerelease(Trim(body), v));
    } else if "<" <= t {
      SingleNames(v, body, true, NamesPrerelease(Trim(body), v));
    } else if "=" <= t {
      ExactNames(v, Trim(body));
    } else if "^" <= t {
      CaretNames(v, Trim(body));
    } else {
      assert "~" <= t;
      TildeNames(v, Trim(body));
    }
  }

  lemma BareGate(v: Version, t: string)
    requires v.pre != [] && !IsSet(t) && !HasOp(t) && MatchesParsed(v, t)
    ensures NamesPrerelease(t, v)
  {
    assert !(">" <= t) && !("<" <= t) && !("=" <= t) && !("^" <= t) && !("~" <= t);
    if !HasWild(t) {
      ExactNames(v, t);
    }
  }

  /** On every route, a pre-release is accepted only by `*`, by no requirement, or by one that names it. */
  lemma PrereleaseGate(version: string, req: string)
    requires VersionMatchesReq(version, req)
    requires ParseVersion(version).Some? && ParseVersion(version).value.pre != []
    ensures Trim(req) == "" || Trim(req) == "*" || NamesTriple(Trim(req), ParseVersion(version).value)
  {
    var t, v := Trim(req), ParseVersion(version).value;
    if t != "" && t != "*" && !IsSet(t) {
      if HasOp(t) {
        OperatorGate(v, t);
        NamesTrimmed(t[1..], v);
      } else {
        BareGate(v, t);
      }
    }
  }

  // ----- convexity ----------------------------------------------------------------------------

  function OrderRank(o: Ordering): int {
    match o
    case Less => -1
    case Equal => 0
    case Greater => 1
  }

  predicate Release(v: Version) {
    v.pre == []
  }

  predicate Between(a: Version, b: Version, c: Version) {
    Release(a) && Release(b) && Release(c) && CmpRelease(a, b) != Greater && CmpRelease(b, c) != Greater
  }

  /** Comparing with a fixed bound never falls as a release rises. */
  lemma CmpRises(a: Version, b: Version, r: Version)
    requires Release(a) && Release(b) && CmpRelease(a, b) != Greater
    ensures OrderRank(CmpFull(a, r)) <= OrderRank(CmpFull(b, r))
  {
  }

  lemma ConvexExact(a: Version, b: Version, c: Version, req: string)
    requires Between(a, b, c) && MatchExact(a, req) && MatchExact(c, req)
    ensures MatchExact(b, req)
  {
    var r := ParseVersion(req).value;
    CmpRises(a, b, r);
    CmpRises(b, c, r);
  }

  lemma ConvexSingle(a: Version, b: Version, c: Version, body: string, less: bool, orEqual: bool, p: bool, q: bool, s: bool)
    requires Between(a, b, c) && MatchSingle(a, body, less, orEqual, p) && MatchSingle(c, body, less, orEqual, q)
    ensures MatchSingle(b, body, less, orEqual, s)
  {
    var r := ParseVersion(Trim(body)).value;
    CmpRises(a, b, r);
    CmpRises(b, c, r);
  }

  lemma ConvexCaret(a: Version, b: Version, c: Version, req: string)
    requires Between(a, b, c) && MatchCaret(a, req) && MatchCaret(c, req)
    ensures MatchCaret(b, req)
  {
    CmpRises(a, b, ParseVersion(req).value);
  }

  lemma ConvexPart(a: Version, b: Version, c: Version, part: string)
    requires Between(a, b, c) && PartOk(a, part) && PartOk(c, part)
    ensures PartOk(b, part)
  {
    if ">=" <= part {
      ConvexSingle(a, b, c, part[2..], false, true, true, true, true);
    } else if "<=" <= part {
      ConvexSingle(a, b, c, part[2..], true, true, true, true, true);
    } else if ">" <= part {
      ConvexSingle(a, b, c, part[1..], false, false, true, true, true);
    } else if "<" <= part {
      ConvexSingle(a, b, c, part[1..], true, false, true, true, true);
    } else if "=" <= part {
      ConvexExact(a, b, c, Trim(part[1..]));
    } else {
      ConvexExact(a, b, c, part);
    }
  }

  lemma ConvexSet(a: Version, b: Version, c: Version, t: string)
    requires Between(a, b, c) && MatchComparators(a, t) && MatchComparators(c, t)
    ensures MatchComparators(b, t)
  {
    forall p | p in Words(t)
      ensures PartOk(b, p)
    {
      ConvexPart(a, b, c, p);
    }
  }

  lemma ConvexParsed(a: Version, b: Version, c: Version, t: string)
    requires Between(a, b, c) && MatchesParsed(a, t) && MatchesParsed(c, t)
    ensures MatchesParsed(b, t)
  {
    if IsSet(t) {
      ConvexSet(a, b, c, t);
    } else if ">" <= t {
      var p := Trim(t[1..]);
      ConvexSingle(a, b, c, t[1..], false, false, NamesPrerelease(p, a), NamesPrerelease(p, c), NamesPrerelease(p, b));
    } else if "<" <= t {
      var p := Trim(t[1..]);
      ConvexSingle(a, b, c, t[1..], true, false, NamesPrerelease(p, a), NamesPrerelease(p, c), NamesPrerelease(p, b));
    } else if "=" <= t {
      ConvexExact(a, b, c, Trim(t[1..]));
    } else if "^" <= t {
      ConvexCaret(a, b, c, Trim(t[1..]));
    } else if !("~" <= t) && !HasWild(t) {
      ConvexExact(a, b, c, t);
    }
  }

  lemma ParsedIsNotBlank(s: string)
    requires ParseVersion(s).Some?
    ensures Trim(s) != ""
  {
  }

  /** Every requirement, whatever its form, accepts a convex set of releases. */
  lemma Convex(x: string, y: string, z: string, req: string)
    requires ParseVersion(x).Some? && ParseVersion(y).Some? && ParseVersion(z).Some?
    requires Between(ParseVersion(x).value, ParseVersion(y).value, ParseVersion(z).value)
    requires VersionMatchesReq(x, req) && VersionMatchesReq(z, req)
    ensures VersionMatchesReq(y, req)
  {
    var t := Trim(req);
    if t == "" || t == "*" {
      ParsedIsNotBlank(y);
    } else {
      ConvexParsed(ParseVersion(x).value, ParseVersion(y).value, ParseVersion(z).value, t);
    }
  }
}
