/** Character-level text operations shared by the parsers. */
module Text {
  import opened Prelude

  /** The Unicode White_Space property. */
  predicate IsWhitespace(c: char) {
    var u := c as int;
    9 <= u <= 13 || u == 0x20 || u == 0x85 || u == 0xA0 || u == 0x1680 || 0x2000 <= u <= 0x200A
    || u == 0x2028 || u == 0x2029 || u == 0x202F || u == 0x205F || u == 0x3000
  }

  /** Those are the 25 characters with the property. */
  lemma WhitespaceIs(c: char)
    ensures IsWhitespace(c) <==>
            c as int in {9, 10, 11, 12, 13, 32, 133, 160, 5760, 8192, 8193, 8194, 8195, 8196, 8197, 8198, 8199, 8200, 8201,
                         8202, 8232, 8233, 8239, 8287, 12288}
  {
  }

  predicate StartsAt(s: string, part: string, i: nat) {
    i + |part| <= |s| && s[i..i + |part|] == part
  }

  predicate Contains(s: string, part: string) {
    exists i :: 0 <= i <= |s| && StartsAt(s, part, i)
  }

  lemma ContainsExtends(s: string, more: string, part: string)
    requires Contains(s, part)
    ensures Contains(s + more, part)
  {
    var i :| 0 <= i <= |s| && StartsAt(s, part, i);
    assert (s + more)[i..i + |part|] == part;
    assert StartsAt(s + more, part, i);
  }

  // ----- trimming -----------------------------------------------------------------------------

  function TrimStart(s: string): string {
    if s != "" && IsWhitespace(s[0]) then TrimStart(s[1..]) else s
  }

  function TrimEnd(s: string): string {
    if s != "" && IsWhitespace(s[|s| - 1]) then TrimEnd(s[..|s| - 1]) else s
  }

  function Trim(s: string): string {
    TrimEnd(TrimStart(s))
  }

  /** No white space at either end. */
  predicate Trimmed(s: string) {
    s == "" || (!IsWhitespace(s[0]) && !IsWhitespace(s[|s| - 1]))
  }

  lemma {:induction false} TrimStartFront(s: string)
    ensures TrimStart(s) == "" || !IsWhitespace(TrimStart(s)[0])
  {
    if s != "" && IsWhitespace(s[0]) {
      TrimStartFront(s[1..]);
    }
  }

  lemma {:induction false} TrimEndBoth(s: string)
    requires s == "" || !IsWhitespace(s[0])
    ensures Trimmed(TrimEnd(s))
  {
    if s != "" && IsWhitespace(s[|s| - 1]) {
      TrimEndBoth(s[..|s| - 1]);
    }
  }

  lemma TrimIsTrimmed(s: string)
    ensures Trimmed(Trim(s))
  {
    TrimStartFront(s);
    TrimEndBoth(TrimStart(s));
  }

  lemma TrimmedStays(s: string)
    requires Trimmed(s)
    ensures Trim(s) == s
  {
  }

  lemma TrimTwice(s: string)
    ensures Trim(Trim(s)) == Trim(s)
  {
    TrimIsTrimmed(s);
    TrimmedStays(Trim(s));
  }

  /** White space in front or at the end is trimmed away. */
  lemma TrimFront(w: char, s: string)
    requires IsWhitespace(w)
    ensures Trim([w] + s) == Trim(s)
  {
    assert ([w] + s)[1..] == s;
  }

  lemma {:induction false} TrimStartKeepsEnd(s: string, w: char)
    requires IsWhitespace(w)
    ensures TrimStart(s + [w]) == if TrimStart(s) == "" then "" else TrimStart(s) + [w]
  {
    if s == "" {
      assert s + [w] == [w] && [w][1..] == "";
    } else {
      assert (s + [w])[1..] == s[1..] + [w];
      TrimStartKeepsEnd(s[1..], w);
    }
  }

  lemma TrimBack(s: string, w: char)
    requires IsWhitespace(w)
    ensures Trim(s + [w]) == Trim(s)
  {
    TrimStartKeepsEnd(s, w);
    var t := TrimStart(s) + [w];
    assert t[..|t| - 1] == TrimStart(s);
  }

  // ----- splitting ----------------------------------------------------------------------------

  /** `split(sep)`: the pieces between separators, at least one. */
  function Split(s: string, sep: char): (ps: seq<string>)
    ensures ps != []
  {
    var k := IndexOf(s, sep);
    if k == |s| then [s] else [s[..k]] + Split(s[k + 1..], sep)
  }

  lemma SplitOne(s: string, sep: char)
    requires sep !in s
    ensures Split(s, sep) == [s]
  {
  }

  lemma SplitCons(a: string, b: string, sep: char)
    requires sep !in a
    ensures Split(a + [sep] + b, sep) == [a] + Split(b, sep)
  {
    var s := a + [sep] + b;
    IndexOfAppend(a, b, sep);
    assert s[..|a|] == a && s[|a| + 1..] == b;
  }

  /** The pieces hold the characters of the text, apart from the separators, and no others. */
  lemma {:induction false} SplitHolds(s: string, sep: char, j: nat) returns (i: nat)
    requires j < |s| && s[j] != sep
    ensures i < |Split(s, sep)| && s[j] in Split(s, sep)[i]
    decreases |s|
  {
    var k := IndexOf(s, sep);
    if k == |s| {
      i := 0;
    } else if j < k {
      i := 0;
      assert s[..k][j] == s[j];
    } else {
      i := SplitHolds(s[k + 1..], sep, j - k - 1);
      i := i + 1;
    }
  }

  lemma {:induction false} SplitLacks(s: string, sep: char, c: char)
    requires c !in s
    ensures forall i :: 0 <= i < |Split(s, sep)| ==> c !in Split(s, sep)[i]
    decreases |s|
  {
    var k := IndexOf(s, sep);
    if k < |s| {
      SplitLacks(s[k + 1..], sep, c);
    }
  }

  /** The length of the first word of a text without leading white space. */
  function WordLength(s: string): (k: nat)
    ensures k <= |s|
    ensures s != "" && !IsWhitespace(s[0]) ==> k > 0
    ensures forall i :: 0 <= i < k ==> !IsWhitespace(s[i])
    ensures k < |s| ==> IsWhitespace(s[k])
  {
    if s == "" || IsWhitespace(s[0]) then 0 else 1 + WordLength(s[1..])
  }

  lemma {:induction false} TrimStartShorter(s: string)
    ensures |TrimStart(s)| <= |s|
  {
    if s != "" && IsWhitespace(s[0]) {
      TrimStartShorter(s[1..]);
    }
  }

  /** `split_whitespace`. */
  function Words(s: string): seq<string>
    decreases |s|
  {
    TrimStartShorter(s);
    TrimStartFront(s);
    var t := TrimStart(s);
    if t == "" then []
    else
      var k := WordLength(t);
      [t[..k]] + Words(t[k..])
  }

  predicate NoWhitespace(s: string) {
    forall i :: 0 <= i < |s| ==> !IsWhitespace(s[i])
  }

  lemma WordLengthIs(a: string, b: string)
    requires NoWhitespace(a) && (b != "" ==> IsWhitespace(b[0]))
    ensures WordLength(a + b) == |a|
  {
    var s := a + b;
    assert forall i :: 0 <= i < |a| ==> s[i] == a[i];
    assert b != "" ==> s[|a|] == b[0];
  }

  lemma OneWord(a: string)
    requires NoWhitespace(a) && a != ""
    ensures Words(a) == [a]
  {
    WordLengthIs(a, "");
    assert a + "" == a && a[..|a|] == a && a[|a|..] == "";
  }

  lemma WordsCons(a: string, b: string)
    requires NoWhitespace(a) && a != ""
    ensures Words(a + " " + b) == [a] + Words(b)
  {
    var s := a + " " + b;
    assert s[0] == a[0] && s == a + (" " + b);
    WordLengthIs(a, " " + b);
    assert s[..|a|] == a && s[|a|..] == " " + b;
    assert (" " + b)[1..] == b;
    assert TrimStart(" " + b) == TrimStart(b);
  }

  lemma WordsOfTwo(a: string, b: string)
    requires NoWhitespace(a) && a != "" && NoWhitespace(b) && b != ""
    ensures Words(a + " " + b) == [a, b]
  {
    WordsCons(a, b);
    OneWord(b);
  }

  /** Words with a space between them. */
  function WordsText(ws: seq<string>): string
    requires ws != []
  {
    if |ws| == 1 then ws[0] else ws[0] + " " + WordsText(ws[1..])
  }

  predicate IsWord(w: string) {
    w != "" && NoWhitespace(w)
  }

  lemma WordsJoin(w: string, t: string)
    requires IsWord(w) && t != "" && Trimmed(t)
    ensures Words(w + " " + t) == [w] + Words(t) && Trimmed(w + " " + t) && w <= w + " " + t && ' ' in w + " " + t
  {
    var s := w + " " + t;
    WordsCons(w, t);
    assert s[0] == w[0] && s[|s| - 1] == t[|t| - 1] && s[|w|] == ' ';
  }

  lemma {:induction false} WordsTextSplits(ws: seq<string>)
    requires ws != [] && forall i :: 0 <= i < |ws| ==> IsWord(ws[i])
    ensures var t := WordsText(ws); Words(t) == ws && Trimmed(t) && t != "" && ws[0] <= t && (|ws| > 1 ==> ' ' in t)
  {
    if |ws| == 1 {
      OneWord(ws[0]);
    } else {
      WordsTextSplits(ws[1..]);
      WordsJoin(ws[0], WordsText(ws[1..]));
    }
  }
}
