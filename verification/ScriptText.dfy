/** Strings of the web client, as sequences of UTF-16 code units. */
module ScriptText {
  import opened Lines

  /** Decoded text, one UTF-16 code unit per element. */
  type Text = Bytes

  /** The white space and line terminators that `String.prototype.trim` removes. */
  predicate IsSpace(u: Byte) {
    9 <= u <= 13 || u == 32 || u == 160 || u == 0x1680 || 0x2000 <= u <= 0x200A || u == 0x2028 || u == 0x2029
    || u == 0x202F || u == 0x205F || u == 0x3000 || u == 0xFEFF
  }

  function TrimStart(s: Text): Text {
    if s != [] && IsSpace(s[0]) then TrimStart(s[1..]) else s
  }

  function TrimTail(s: Text): Text {
    if s != [] && IsSpace(s[|s| - 1]) then TrimTail(s[..|s| - 1]) else s
  }

  function Trim(s: Text): Text {
    TrimTail(TrimStart(s))
  }

  predicate Trimmed(s: Text) {
    s != [] && !IsSpace(s[0]) && !IsSpace(s[|s| - 1])
  }

  lemma TrimmedStays(s: Text)
    requires Trimmed(s)
    ensures Trim(s) == s && Trim([32] + s) == s
  {
    assert ([32] + s)[1..] == s;
  }

  /** Those are the 25 code units `trim` removes: white space, line terminators and the byte order mark. */
  lemma SpaceIs(u: Byte)
    ensures IsSpace(u) <==>
            u in {9, 10, 11, 12, 13, 32, 160, 5760, 8192, 8193, 8194, 8195, 8196, 8197, 8198, 8199, 8200, 8201, 8202, 8232,
                  8233, 8239, 8287, 12288, 65279}
  {
  }

  /** Space in front and at the end is trimmed away. */
  lemma TrimFront(u: Byte, s: Text)
    requires IsSpace(u)
    ensures Trim([u] + s) == Trim(s)
  {
    assert ([u] + s)[1..] == s;
  }

  lemma {:induction false} TrimStartKeepsEnd(s: Text, u: Byte)
    requires IsSpace(u)
    ensures TrimStart(s + [u]) == if TrimStart(s) == [] then [] else TrimStart(s) + [u]
  {
    if s == [] {
      assert s + [u] == [u] && [u][1..] == [];
    } else {
      assert (s + [u])[1..] == s[1..] + [u];
      TrimStartKeepsEnd(s[1..], u);
    }
  }

  lemma TrimBack(s: Text, u: Byte)
    requires IsSpace(u)
    ensures Trim(s + [u]) == Trim(s)
  {
    TrimStartKeepsEnd(s, u);
    var t := TrimStart(s) + [u];
    assert t[..|t| - 1] == TrimStart(s);
  }
}
