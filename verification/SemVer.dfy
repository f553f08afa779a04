/** Semantic versions: parsing and precedence. */
module SemVer {
  import opened Prelude
  import opened Text
  import opened Decimal

  datatype Version = Version(major: nat, minor: nat, patch: nat, pre: seq<string>)

  datatype Ordering = Less | Equal | Greater

  /** `str::parse::<u64>`: an optional plus sign, then digits that fit. */
  function ParseU64(s: string): Option<nat> {
    var body := if s != "" && s[0] == '+' then s[1..] else s;
    if body != "" && AllDigits(body) && Value(body) < TWO_64 then Some(Value(body)) else None
  }

  /** A version component: digits only, and they must fit. */
  function Component(s: string): Option<nat> {
    if s != "" && AllDigits(s) && Value(s) < TWO_64 then Some(Value(s)) else None
  }

  predicate IsIdentChar(c: char) {
    '0' <= c <= '9' || 'A' <= c <= 'Z' || 'a' <= c <= 'z' || c == '-'
  }

  predicate IsIdent(s: string) {
    s != "" && forall i :: 0 <= i < |s| ==> IsIdentChar(s[i])
  }

  /** The text without surrounding white space and a leading `v`. */
  function Bare(s: string): string {
    var t := Trim(s);
    Trim(if t != "" && t[0] == 'v' then t[1..] else t)
  }

  function Before(s: string, c: char): string {
    s[..IndexOf(s, c)]
  }

  function Behind(s: string, c: char): string {
    if c in s then s[IndexOf(s, c) + 1..] else ""
  }

  function ParseCore(core: string, pre: seq<string>): Option<Version> {
    var parts := Split(core, '.');
    var major := Component(parts[0]);
    if core == "" || major.None? || |parts| > 3 then None
    else
      var minor := if |parts| > 1 then OrZero(Component(parts[1])) else 0;
      var patch := if |parts| > 2 then OrZero(Component(parts[2])) else 0;
      Some(Version(major.value, minor, patch, pre))
  }

  /** The text is `v`? core (`-` pre)? (`+` build)?; an unreadable minor or patch counts as 0. */
  function ParseVersion(s: string): Option<Version> {
    var t := Before(Bare(s), '+');
    var pre := Behind(t, '-');
    var ids := if pre == "" then [] else Split(pre, '.');
    if forall id :: id in ids ==> IsIdent(id) then ParseCore(Before(t, '-'), ids) else None
  }

  // ----- precedence ---------------------------------------------------------------------------

  function Flip(o: Ordering): Ordering {
    match o
    case Less => Greater
    case Equal => Equal
    case Greater => Less
  }

  function CmpNat(a: nat, b: nat): Ordering {
    if a < b then Less else if a == b then Equal else Greater
  }

  function CmpString(a: string, b: string): Ordering {
    if a == "" || b == "" then CmpNat(|a|, |b|)
    else if a[0] < b[0] then Less
    else if a[0] > b[0] then Greater
    else CmpString(a[1..], b[1..])
  }

  function CmpRelease(a: Version, b: Version): Ordering {
    if a.major != b.major then CmpNat(a.major, b.major)
    else if a.minor != b.minor then CmpNat(a.minor, b.minor)
    else CmpNat(a.patch, b.patch)
  }

  predicate Numeric(id: string) {
    ParseU64(id).Some?
  }

  /** Two numbers compare as numbers; anything else as text. */
  function CmpIdent(x: string, y: string): Ordering {
    if Numeric(x) && Numeric(y) then CmpNat(ParseU64(x).value, ParseU64(y).value) else CmpString(x, y)
  }

  function CmpIdents(a: seq<string>, b: seq<string>): Ordering {
    if a == [] || b == [] then CmpNat(|a|, |b|)
    else if CmpIdent(a[0], b[0]) != Equal then CmpIdent(a[0], b[0])
    else CmpIdents(a[1..], b[1..])
  }

  /** No identifiers at all means a release, which outranks its pre-releases. */
  function CmpPre(a: seq<string>, b: seq<string>): Ordering {
    if a == [] && b == [] then Equal
    else if a == [] then Greater
    else if b == [] then Less
    else CmpIdents(a, b)
  }

  function CmpFull(a: Version, b: Version): Ordering {
    if CmpRelease(a, b) != Equal then CmpRelease(a, b) else CmpPre(a.pre, b.pre)
  }

  /** The first k pairs are equal; the next pair, or the lengths, give `o`. */
  ghost predicate DecidedAt(a: seq<string>, b: seq<string>, k: nat, o: Ordering)
    requires k <= |a| && k <= |b|
  {
    && (forall j :: 0 <= j < k ==> CmpIdent(a[j], b[j]) == Equal)
    && o == if k < |a| && k < |b| then CmpIdent(a[k], b[k]) else CmpNat(|a|, |b|)
  }

  /** `cmp_pre`: the first pair that differs decides, then the lengths. */
  method ComparePre(a: seq<string>, b: seq<string>) returns (o: Ordering)
    ensures o == CmpPre(a, b)
    ensures a != [] && b != [] && o != Equal ==>
              exists k :: 0 <= k <= |a| && k <= |b| && DecidedAt(a, b, k, o)
  {
    if a == [] && b == [] {
      return Equal;
    } else if a == [] {
      return Greater;
    } else if b == [] {
      return Less;
    }
    var n := if |a| <= |b| then |a| else |b|;
    for i := 0 to n
      invariant CmpIdents(a, b) == CmpIdents(a[i..], b[i..])
      invariant forall j :: 0 <= j < i ==> CmpIdent(a[j], b[j]) == Equal
    {
      var ord := CmpIdent(a[i], b[i]);
      assert a[i..][1..] == a[i + 1..] && b[i..][1..] == b[i + 1..];
      if ord != Equal {
        assert DecidedAt(a, b, i, ord);
        return ord;
      }
    }
    assert DecidedAt(a, b, n, CmpNat(|a|, |b|));
    return CmpNat(|a|, |b|);
  }

  // ----- the order ----------------------------------------------------------------------------

  lemma {:induction false} StringSymmetric(a: string, b: string)
    ensures CmpString(b, a) == Flip(CmpString(a, b))
    ensures CmpString(a, b) == Equal <==> a == b
  {
    if a != "" && b != "" && a[0] == b[0] {
      StringSymmetric(a[1..], b[1..]);
      assert a == [a[0]] + a[1..] && b == [b[0]] + b[1..];
    }
  }

  lemma {:induction false} StringTransitive(a: string, b: string, c: string)
    requires CmpString(a, b) != Greater && CmpString(b, c) != Greater
    ensures CmpString(a, c) != Greater
    ensures CmpString(a, c) == Equal ==> CmpString(a, b) == Equal && CmpString(b, c) == Equal
  {
    if a != "" && b != "" && c != "" && a[0] == b[0] == c[0] {
      StringTransitive(a[1..], b[1..], c[1..]);
    }
  }

  lemma {:induction false} IdentsSymmetric(a: seq<string>, b: seq<string>)
    ensures CmpIdents(b, a) == Flip(CmpIdents(a, b))
  {
    if a != [] && b != [] {
      StringSymmetric(a[0], b[0]);
      IdentsSymmetric(a[1..], b[1..]);
    }
  }

  lemma {:induction false} IdentsReflexive(a: seq<string>)
    ensures CmpIdents(a, a) == Equal
  {
    if a != [] {
      StringSymmetric(a[0], a[0]);
      IdentsReflexive(a[1..]);
    }
  }

  /** Every version equals itself, and swapping the operands flips the answer. */
  lemma FullReflexive(a: Version)
    ensures CmpFull(a, a) == Equal
  {
    IdentsReflexive(a.pre);
  }

  lemma FullSymmetric(a: Version, b: Version)
    ensures CmpFull(b, a) == Flip(CmpFull(a, b))
  {
    IdentsSymmetric(a.pre, b.pre);
  }

  // ----- transitivity -------------------------------------------------------------------------

  ghost predicate Chain(x: string, y: string, z: string) {
    CmpIdent(x, y) != Greater && CmpIdent(y, z) != Greater ==> CmpIdent(x, z) != Greater
  }

  /** The three identifiers are ordered without contradiction. */
  ghost predicate Ordered(x: string, y: string, z: string) {
    Chain(x, y, z) && Chain(x, z, y) && Chain(y, x, z) && Chain(y, z, x) && Chain(z, x, y) && Chain(z, y, x)
  }

  /** The text z stands, as text, strictly between two numbers, and between the wrong two. */
  predicate Wedged(x: string, y: string, z: string) {
    && Numeric(x) && Numeric(y) && !Numeric(z)
    && CmpString(x, z) == Less && CmpString(z, y) == Less && CmpIdent(x, y) != Less
  }

  predicate SomeWedged(x: string, y: string, z: string) {
    Wedged(x, y, z) || Wedged(y, x, z) || Wedged(x, z, y) || Wedged(z, x, y) || Wedged(y, z, x) || Wedged(z, y, x)
  }

  lemma TextChain(x: string, y: string, z: string)
    requires CmpIdent(x, y) == CmpString(x, y) && CmpIdent(y, z) == CmpString(y, z) && CmpIdent(x, z) == CmpString(x, z)
    ensures Chain(x, y, z)
  {
    if CmpString(x, y) != Greater && CmpString(y, z) != Greater {
      StringTransitive(x, y, z);
    }
  }

  /** Comparisons that agree with those of the texts are ordered. */
  lemma TextOrdered(x: string, y: string, z: string)
    requires CmpIdent(x, y) == CmpString(x, y) && CmpIdent(y, z) == CmpString(y, z) && CmpIdent(x, z) == CmpString(x, z)
    ensures Ordered(x, y, z)
  {
    StringSymmetric(x, y);
    StringSymmetric(y, z);
    StringSymmetric(x, z);
    TextChain(x, y, z);
    TextChain(x, z, y);
    TextChain(y, x, z);
    TextChain(y, z, x);
    TextChain(z, x, y);
    TextChain(z, y, x);
  }

  /** Two numbers and a text are ordered exactly unless the text is wedged between them. */
  lemma TwoNumbersOrdered(x: string, y: string, z: string)
    requires Numeric(x) && Numeric(y) && !Numeric(z)
    ensures Ordered(x, y, z) <==> !Wedged(x, y, z) && !Wedged(y, x, z)
  {
    StringSymmetric(x, z);
    StringSymmetric(y, z);
  }

  /** Any three identifiers are ordered exactly unless one of them is a text wedged between two numbers. */
  lemma IdentOrdered(x: string, y: string, z: string)
    ensures Ordered(x, y, z) <==> !SomeWedged(x, y, z)
  {
    if Numeric(x) && Numeric(y) && !Numeric(z) {
      TwoNumbersOrdered(x, y, z);
    } else if Numeric(x) && Numeric(z) && !Numeric(y) {
      TwoNumbersOrdered(x, z, y);
    } else if Numeric(y) && Numeric(z) && !Numeric(x) {
      TwoNumbersOrdered(y, z, x);
    } else if !Numeric(x) || !Numeric(y) || !Numeric(z) {
      TextOrdered(x, y, z);
    }
  }

  ghost predicate ListChain(a: seq<string>, b: seq<string>, c: seq<string>) {
    CmpIdents(a, b) != Greater && CmpIdents(b, c) != Greater ==> CmpIdents(a, c) != Greater
  }

  ghost predicate ListsOrdered(a: seq<string>, b: seq<string>, c: seq<string>) {
    && ListChain(a, b, c) && ListChain(a, c, b) && ListChain(b, a, c)
    && ListChain(b, c, a) && ListChain(c, a, b) && ListChain(c, b, a)
  }

  predicate Tied(x: string, y: string, z: string) {
    CmpIdent(x, y) == Equal && CmpIdent(y, z) == Equal && CmpIdent(x, z) == Equal
  }

  /** At the first position where the three do not tie, c has a text between the numbers of a and b, and a is not below b. */
  predicate Tangled(a: seq<string>, b: seq<string>, c: seq<string>) {
    && a != [] && b != [] && c != []
    && if Tied(a[0], b[0], c[0]) then Tangled(a[1..], b[1..], c[1..])
       else
         && Numeric(a[0]) && Numeric(b[0]) && !Numeric(c[0])
         && CmpString(a[0], c[0]) == Less && CmpString(c[0], b[0]) == Less && CmpIdents(a, b) != Less
  }

  predicate SomeTangled(a: seq<string>, b: seq<string>, c: seq<string>) {
    || Tangled(a, b, c) || Tangled(b, a, c) || Tangled(a, c, b)
    || Tangled(c, a, b) || Tangled(b, c, a) || Tangled(c, b, a)
  }

  lemma TiedAllWays(x: string, y: string, z: string)
    ensures Tied(x, y, z) == Tied(y, x, z) == Tied(x, z, y) == Tied(z, x, y) == Tied(y, z, x) == Tied(z, y, x)
  {
    StringSymmetric(x, y);
    StringSymmetric(y, z);
    StringSymmetric(x, z);
  }

  /** A tie of two in an ordered chain of three is a tie of all. */
  lemma ChainTies(x: string, y: string, z: string)
    requires Ordered(x, y, z) && CmpIdent(x, y) != Greater && CmpIdent(y, z) != Greater && CmpIdent(x, z) == Equal
    ensures Tied(x, y, z)
  {
    StringSymmetric(x, y);
    StringSymmetric(y, z);
    StringSymmetric(x, z);
  }

  lemma HeadChain(a: seq<string>, b: seq<string>, c: seq<string>)
    requires a != [] && b != [] && c != [] && Ordered(a[0], b[0], c[0]) && !Tied(a[0], b[0], c[0])
    ensures ListChain(a, b, c)
  {
    if CmpIdents(a, b) != Greater && CmpIdents(b, c) != Greater && CmpIdent(a[0], c[0]) == Equal {
      ChainTies(a[0], b[0], c[0]);
    }
  }

  /** Heads that are ordered and do not all tie decide the lists consistently. */
  lemma HeadsOrdered(a: seq<string>, b: seq<string>, c: seq<string>)
    requires a != [] && b != [] && c != [] && Ordered(a[0], b[0], c[0]) && !Tied(a[0], b[0], c[0])
    ensures ListsOrdered(a, b, c)
  {
    TiedAllWays(a[0], b[0], c[0]);
    HeadChain(a, b, c);
    HeadChain(a, c, b);
    HeadChain(b, a, c);
    HeadChain(b, c, a);
    HeadChain(c, a, b);
    HeadChain(c, b, a);
  }

  /** A text between two numbers: consistent exactly when the lists of the numbers are in that order as well. */
  lemma BetweenOrdered(a: seq<string>, b: seq<string>, c: seq<string>)
    requires a != [] && b != [] && c != [] && Numeric(a[0]) && Numeric(b[0]) && !Numeric(c[0])
    requires CmpString(a[0], c[0]) == Less && CmpString(c[0], b[0]) == Less
    ensures ListsOrdered(a, b, c) <==> CmpIdents(a, b) == Less
  {
    StringSymmetric(a[0], c[0]);
    StringSymmetric(b[0], c[0]);
    IdentsSymmetric(a, b);
    IdentsSymmetric(a, c);
    IdentsSymmetric(b, c);
  }

  lemma TwoNumberHeads(a: seq<string>, b: seq<string>, c: seq<string>)
    requires a != [] && b != [] && c != [] && Numeric(a[0]) && Numeric(b[0]) && !Numeric(c[0])
    ensures ListsOrdered(a, b, c) <==> !Tangled(a, b, c) && !Tangled(b, a, c)
    ensures !Tangled(a, c, b) && !Tangled(c, a, b) && !Tangled(b, c, a) && !Tangled(c, b, a)
  {
    var x, y, z := a[0], b[0], c[0];
    StringSymmetric(x, z);
    StringSymmetric(y, z);
    TiedAllWays(x, y, z);
    if CmpString(x, z) == Less && CmpString(z, y) == Less {
      BetweenOrdered(a, b, c);
    } else if CmpString(y, z) == Less && CmpString(z, x) == Less {
      BetweenOrdered(b, a, c);
    } else {
      TwoNumbersOrdered(x, y, z);
      HeadsOrdered(a, b, c);
    }
  }

  lemma TiedHeads(a: seq<string>, b: seq<string>, c: seq<string>)
    requires a != [] && b != [] && c != [] && Tied(a[0], b[0], c[0])
    ensures ListsOrdered(a, b, c) == ListsOrdered(a[1..], b[1..], c[1..])
    ensures SomeTangled(a, b, c) == SomeTangled(a[1..], b[1..], c[1..])
  {
    StringSymmetric(a[0], b[0]);
    StringSymmetric(b[0], c[0]);
    StringSymmetric(a[0], c[0]);
    TiedAllWays(a[0], b[0], c[0]);
  }

  lemma OneKindHeads(a: seq<string>, b: seq<string>, c: seq<string>)
    requires a != [] && b != [] && c != [] && Uniform(a[0], b[0], c[0]) && !Tied(a[0], b[0], c[0])
    ensures ListsOrdered(a, b, c) && !SomeTangled(a, b, c)
  {
    TiedAllWays(a[0], b[0], c[0]);
    IdentOrdered(a[0], b[0], c[0]);
    HeadsOrdered(a, b, c);
  }

  /** Three lists are ordered without contradiction exactly unless they are tangled. */
  lemma {:induction false} ListsOrderedIff(a: seq<string>, b: seq<string>, c: seq<string>)
    ensures ListsOrdered(a, b, c) <==> !SomeTangled(a, b, c)
  {
    if a != [] && b != [] && c != [] {
      if Tied(a[0], b[0], c[0]) {
        TiedHeads(a, b, c);
        ListsOrderedIff(a[1..], b[1..], c[1..]);
      } else if Uniform(a[0], b[0], c[0]) {
        OneKindHeads(a, b, c);
      } else if !Numeric(c[0]) {
        TwoNumberHeads(a, b, c);
      } else if !Numeric(b[0]) {
        TwoNumberHeads(a, c, b);
      } else {
        TwoNumberHeads(b, c, a);
      }
    }
  }

  ghost predicate VersionChain(a: Version, b: Version, c: Version) {
    CmpFull(a, b) != Greater && CmpFull(b, c) != Greater ==> CmpFull(a, c) != Greater
  }

  ghost predicate VersionsOrdered(a: Version, b: Version, c: Version) {
    && VersionChain(a, b, c) && VersionChain(a, c, b) && VersionChain(b, a, c)
    && VersionChain(b, c, a) && VersionChain(c, a, b) && VersionChain(c, b, a)
  }

  predicate SameRelease(a: Version, b: Version, c: Version) {
    CmpRelease(a, b) == Equal && CmpRelease(b, c) == Equal
  }

  /** Any three versions are ordered without contradiction, exactly unless they differ in tags only and these are tangled. */
  lemma FullTransitive(a: Version, b: Version, c: Version)
    ensures VersionsOrdered(a, b, c) <==> !(SameRelease(a, b, c) && SomeTangled(a.pre, b.pre, c.pre))
  {
    if SameRelease(a, b, c) {
      ListsOrderedIff(a.pre, b.pre, c.pre);
    }
  }

  /** Not exactly two of the three are numbers, so that all comparisons among them are of one kind. */
  predicate Uniform(x: string, y: string, z: string) {
    && (Numeric(x) && Numeric(y) ==> Numeric(z))
    && (Numeric(x) && Numeric(z) ==> Numeric(y))
    && (Numeric(y) && Numeric(z) ==> Numeric(x))
  }

  ghost predicate UniformLists(a: seq<string>, b: seq<string>, c: seq<string>) {
    forall i :: 0 <= i < |a| && i < |b| && i < |c| ==> Uniform(a[i], b[i], c[i])
  }

  lemma {:induction false} UniformUntangled(a: seq<string>, b: seq<string>, c: seq<string>)
    requires UniformLists(a, b, c)
    ensures !SomeTangled(a, b, c)
  {
    if a != [] && b != [] && c != [] {
      TiedAllWays(a[0], b[0], c[0]);
      var a', b', c' := a[1..], b[1..], c[1..];
      assert forall i :: 0 <= i < |a'| && i < |b'| && i < |c'| ==> a'[i] == a[i + 1] && b'[i] == b[i + 1] && c'[i] == c[i + 1];
      assert Uniform(a[0], b[0], c[0]);
      UniformUntangled(a', b', c');
    }
  }

  /** In particular wherever, position by position, the identifiers are of one kind. */
  lemma UniformTransitive(a: Version, b: Version, c: Version)
    requires UniformLists(a.pre, b.pre, c.pre)
    ensures VersionsOrdered(a, b, c)
  {
    UniformUntangled(a.pre, b.pre, c.pre);
    FullTransitive(a, b, c);
  }

  // ----- which tags keep the order ------------------------------------------------------------

  ghost predicate IdsFrom(ids: seq<string>, tags: iset<string>) {
    forall id :: id in ids ==> id in tags
  }

  ghost predicate TagsFrom(v: Version, tags: iset<string>) {
    IdsFrom(v.pre, tags)
  }

  ghost predicate TransitiveOver(tags: iset<string>) {
    forall a, b, c :: TagsFrom(a, tags) && TagsFrom(b, tags) && TagsFrom(c, tags) ==> VersionChain(a, b, c)
  }

  ghost predicate Wedgeless(tags: iset<string>) {
    forall x, y, z :: x in tags && y in tags && z in tags ==> !Wedged(x, y, z)
  }

  lemma {:induction false} WedgelessUntangled(a: seq<string>, b: seq<string>, c: seq<string>, tags: iset<string>)
    requires Wedgeless(tags) && IdsFrom(a, tags) && IdsFrom(b, tags) && IdsFrom(c, tags)
    ensures !Tangled(a, b, c)
  {
    if a != [] && b != [] && c != [] {
      assert a[0] in a && b[0] in b && c[0] in c;
      if Tied(a[0], b[0], c[0]) {
        assert IdsFrom(a[1..], tags) && IdsFrom(b[1..], tags) && IdsFrom(c[1..], tags);
        WedgelessUntangled(a[1..], b[1..], c[1..], tags);
      } else {
        assert !Wedged(a[0], b[0], c[0]);
      }
    }
  }

  lemma WedgelessTransitive(a: Version, b: Version, c: Version, tags: iset<string>)
    requires Wedgeless(tags) && TagsFrom(a, tags) && TagsFrom(b, tags) && TagsFrom(c, tags)
    ensures VersionChain(a, b, c)
  {
    WedgelessUntangled(a.pre, b.pre, c.pre, tags);
    WedgelessUntangled(b.pre, a.pre, c.pre, tags);
    WedgelessUntangled(a.pre, c.pre, b.pre, tags);
    WedgelessUntangled(c.pre, a.pre, b.pre, tags);
    WedgelessUntangled(b.pre, c.pre, a.pre, tags);
    WedgelessUntangled(c.pre, b.pre, a.pre, tags);
    FullTransitive(a, b, c);
  }

  /** Versions with a single tag compare as the tags do. */
  lemma SingleTags(x: string, y: string)
    ensures CmpFull(Version(1, 0, 0, [x]), Version(1, 0, 0, [y])) == CmpIdent(x, y)
  {
    assert [x][1..] == [] && [y][1..] == [];
    assert CmpIdents([x][1..], [y][1..]) == Equal;
  }

  lemma WedgeBreaks(x: string, y: string, z: string, tags: iset<string>)
    requires x in tags && y in tags && z in tags && Wedged(x, y, z)
    ensures !TransitiveOver(tags)
  {
    var a, b, c := Version(1, 0, 0, [x]), Version(1, 0, 0, [y]), Version(1, 0, 0, [z]);
    assert TagsFrom(a, tags) && TagsFrom(b, tags) && TagsFrom(c, tags);
    SingleTags(y, x);
    SingleTags(x, z);
    SingleTags(y, z);
    StringSymmetric(z, y);
    assert !VersionChain(b, a, c);
  }

  /**
   * For every set of tags: precedence is transitive over the versions that use them if and only if no
   * text among them is wedged between two numbers among them.
   */
  lemma TransitiveIffWedgeless(tags: iset<string>)
    ensures TransitiveOver(tags) <==> Wedgeless(tags)
  {
    if Wedgeless(tags) {
      forall a, b, c | TagsFrom(a, tags) && TagsFrom(b, tags) && TagsFrom(c, tags)
        ensures VersionChain(a, b, c)
      {
        WedgelessTransitive(a, b, c, tags);
      }
    } else {
      var x, y, z :| x in tags && y in tags && z in tags && Wedged(x, y, z);
      WedgeBreaks(x, y, z, tags);
    }
  }

  /** A release is above all its pre-releases, and a proper prefix is below its extension. */
  lemma ReleaseIsTop(a: Version, b: Version)
    requires CmpRelease(a, b) == Equal && a.pre == [] && b.pre != []
    ensures CmpFull(a, b) == Greater
  {
  }

  lemma PrefixIsBelow(a: Version, more: seq<string>)
    requires a.pre != [] && more != []
    ensures CmpFull(a, a.(pre := a.pre + more)) == Less
  {
    IdentsPrefix(a.pre, more);
  }

  lemma {:induction false} IdentsPrefix(a: seq<string>, more: seq<string>)
    requires more != []
    ensures CmpIdents(a, a + more) == Less
  {
    if a != [] {
      StringSymmetric(a[0], a[0]);
      assert (a + more)[1..] == a[1..] + more;
      IdentsPrefix(a[1..], more);
    }
  }

  lemma {:induction false} DashBetween(x: string, y: string)
    requires AllDigits(y) && CmpString(x, y) == Less
    ensures CmpString(x, x + "-") == Less && CmpString(x + "-", y) == Less
  {
    if x == "" {
      assert x + "-" == "-";
    } else {
      assert (x + "-")[1..] == x[1..] + "-" && (x + "-")[0] == x[0];
      StringSymmetric(x[1..], x[1..]);
      if x[0] == y[0] {
        DashBetween(x[1..], y[1..]);
      } else {
        DashAfter(x[1..]);
      }
    }
  }

  lemma {:induction false} DashAfter(x: string)
    ensures CmpString(x, x + "-") == Less
  {
    if x != "" {
      assert (x + "-")[1..] == x[1..] + "-" && (x + "-")[0] == x[0];
      DashAfter(x[1..]);
    }
  }

  lemma DashIsText(x: string)
    requires AllDigits(x) && x != ""
    ensures !Numeric(x + "-")
  {
    assert IsDigit(x[0]) && (x + "-")[0] == x[0] && !IsDigit((x + "-")[|x|]);
  }

  lemma BetweenAsText(x: string, y: string, z: string)
    requires CmpString(x, y) == CmpIdent(x, y)
    ensures !Wedged(x, y, z)
  {
    if CmpString(x, z) == Less && CmpString(z, y) == Less {
      StringTransitive(x, z, y);
    }
  }

  /** Two numbers live with every textual identifier exactly when they compare as text as they do as numbers. */
  lemma NumbersAmongText(x: string, y: string)
    requires AllDigits(x) && Numeric(x) && AllDigits(y) && Numeric(y)
    ensures (forall z :: !Numeric(z) ==> Ordered(x, y, z)) <==> CmpString(x, y) == CmpIdent(x, y)
  {
    StringSymmetric(x, y);
    if CmpString(x, y) == CmpIdent(x, y) {
      forall z | !Numeric(z)
        ensures Ordered(x, y, z)
      {
        TwoNumbersOrdered(x, y, z);
        BetweenAsText(x, y, z);
        BetweenAsText(y, x, z);
      }
    } else {
      var low, high := if CmpString(x, y) == Less then x else y, if CmpString(x, y) == Less then y else x;
      var z := low + "-";
      DashBetween(low, high);
      DashIsText(low);
      StringSymmetric(low, z);
      assert !Chain(z, high, low);
    }
  }

  lemma NineTenText()
    ensures CmpIdent("9", "10") == Less && CmpIdent("10", "1a") == Less && CmpIdent("1a", "9") == Less
  {
    assert Value("9") == 10 * Value("") + 9 by { assert "9"[..0] == ""; }
    assert "10"[..1] == "1" && "1"[..0] == "";
    assert Value("1") == 1 && Value("10") == 10;
    assert !IsDigit("1a"[1]);
    assert "10"[1..] == "0" && "1a"[1..] == "a";
    assert CmpString("0", "a") == Less;
  }

  /** Mixing kinds does break the order: 1.0.0-9 < 1.0.0-10 < 1.0.0-1a < 1.0.0-9. */
  lemma MixedKindsCycle()
    ensures CmpFull(Version(1, 0, 0, ["9"]), Version(1, 0, 0, ["10"])) == Less
    ensures CmpFull(Version(1, 0, 0, ["10"]), Version(1, 0, 0, ["1a"])) == Less
    ensures CmpFull(Version(1, 0, 0, ["1a"]), Version(1, 0, 0, ["9"])) == Less
  {
    NineTenText();
    SingleTags("9", "10");
    SingleTags("10", "1a");
    SingleTags("1a", "9");
  }
}
