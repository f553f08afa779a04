/** The builtin command policy: tokenizer, classifier and decision matrix. */
module Policy {
  import opened Prelude
  import opened Text

  datatype RiskClass = Read | EditWorkspace | ExecuteLocal | NetworkWrite | GitRemote | PackageInstall | Destructive

  datatype Level = L0 | L1 | L2 | L3 | L4

  datatype Decision = Allow | Ask | Deny | Rewrite

  datatype Verdict = Verdict(decision: Decision, riskClass: RiskClass)

  function Rank(c: RiskClass): nat {
    match c
    case Read => 0
    case EditWorkspace => 1
    case ExecuteLocal => 2
    case NetworkWrite => 3
    case GitRemote => 4
    case PackageInstall => 5
    case Destructive => 6
  }

  /** Allow < Ask < Deny; the builtin provider never rewrites. */
  function Strictness(d: Decision): nat {
    match d
    case Allow => 0
    case Rewrite => 0
    case Ask => 1
    case Deny => 2
  }

  function LevelRank(l: Level): nat {
    match l
    case L0 => 0
    case L1 => 1
    case L2 => 2
    case L3 => 3
    case L4 => 4
  }

  function DecideFor(level: Level, c: RiskClass): Decision {
    match level
    case L0 => if c.Destructive? then Deny else Ask
    case L1 => if c.Read? then Allow else if c.Destructive? then Deny else Ask
    case L2 =>
      (match c
       case Read | EditWorkspace | ExecuteLocal => Allow
       case NetworkWrite | GitRemote | PackageInstall => Ask
       case Destructive => Deny)
    case L3 =>
      (match c
       case Read | EditWorkspace | ExecuteLocal | NetworkWrite | GitRemote => Allow
       case PackageInstall => Ask
       case Destructive => Deny)
    case L4 => Allow
  }

  /** A riskier class, or a lower level, is never decided more permissively. */
  lemma DecideMonotone(level: Level, level': Level, c: RiskClass, c': RiskClass)
    requires LevelRank(level') <= LevelRank(level) && Rank(c) <= Rank(c')
    ensures Strictness(DecideFor(level, c)) <= Strictness(DecideFor(level', c'))
  {
  }

  // ----- tokenizer ----------------------------------------------------------------------------

  /** The scanner's variables: finished tokens, token in progress, open quote, whether a quote was seen. */
  datatype Scan = Scan(out: seq<string>, cur: string, inQuote: Option<char>, had: bool)

  const SCAN_START: Scan := Scan([], "", None, false)

  function Flush(s: Scan): Scan {
    if s.cur != "" || s.had then Scan(s.out + [s.cur], "", s.inQuote, false) else s
  }

  function Feed(s: Scan, c: char): Scan {
    if s.inQuote.Some? then
      if c == s.inQuote.value then s.(inQuote := None) else s.(cur := s.cur + [c])
    else if c == '\'' || c == '"' then s.(inQuote := Some(c), had := true)
    else if IsWhitespace(c) then Flush(s)
    else s.(cur := s.cur + [c])
  }

  function FeedAll(s: Scan, text: string): Scan
    decreases |text|
  {
    if text == "" then s else FeedAll(Feed(s, text[0]), text[1..])
  }

  function Finish(s: Scan): Option<seq<string>> {
    if s.inQuote.Some? then None else Some(Flush(s).out)
  }

  /** The tokens of a command line; none at all when a quote is left open. */
  function Tokens(text: string): Option<seq<string>> {
    Finish(FeedAll(SCAN_START, text))
  }

  method Tokenize(text: string) returns (r: Option<seq<string>>)
    ensures r == Tokens(text)
  {
    var out: seq<string> := [];
    var cur := "";
    var inQuote: Option<char> := None;
    var had := false;
    for i := 0 to |text|
      invariant Scan(out, cur, inQuote, had) == FeedAll(SCAN_START, text[..i])
    {
      assert text[..i + 1] == text[..i] + [text[i]];
      FeedAppend(SCAN_START, text[..i], [text[i]]);
      var c := text[i];
      match inQuote
      case Some(q) =>
        if c == q {
          inQuote := None;
        } else {
          cur := cur + [c];
        }
      case None =>
        if c == '\'' || c == '"' {
          inQuote := Some(c);
          had := true;
        } else if IsWhitespace(c) {
          if cur != "" || had {
            out := out + [cur];
            cur := "";
            had := false;
          }
        } else {
          cur := cur + [c];
        }
    }
    assert text[..|text|] == text;
    if inQuote.Some? {
      return None;
    }
    if cur != "" || had {
      out := out + [cur];
    }
    return Some(out);
  }

  lemma {:induction false} FeedAppend(s: Scan, a: string, b: string)
    ensures FeedAll(s, a + b) == FeedAll(FeedAll(s, a), b)
    decreases |a|
  {
    if a == "" {
      assert a + b == b;
    } else {
      assert (a + b)[1..] == a[1..] + b;
      FeedAppend(Feed(s, a[0]), a[1..], b);
    }
  }

  /** Tokens already finished ride along unchanged. */
  lemma {:induction false} FeedCarries(s: Scan, done: seq<string>, text: string)
    ensures FeedAll(s.(out := done + s.out), text) == FeedAll(s, text).(out := done + FeedAll(s, text).out)
    decreases |text|
  {
    if text != "" {
      assert Feed(s.(out := done + s.out), text[0]) == Feed(s, text[0]).(out := done + Feed(s, text[0]).out);
      FeedCarries(Feed(s, text[0]), done, text[1..]);
    }
  }

  /** Joining two command lines with a white-space character concatenates their tokens, or leaves b's quote open. */
  lemma TokensConcatenate(a: string, w: char, b: string)
    requires IsWhitespace(w) && Tokens(a).Some?
    ensures Tokens(a + [w] + b) == if Tokens(b).Some? then Some(Tokens(a).value + Tokens(b).value) else None
  {
    var s := FeedAll(SCAN_START, a);
    FeedAppend(SCAN_START, a + [w], b);
    FeedAppend(SCAN_START, a, [w]);
    assert FeedAll(s, [w]) == Feed(s, w);
    var ta := Tokens(a).value;
    assert Feed(s, w) == SCAN_START.(out := ta + SCAN_START.out);
    FeedCarries(SCAN_START, ta, b);
    var e := FeedAll(SCAN_START, b);
    assert (ta + e.out) + [e.cur] == ta + (e.out + [e.cur]);
  }

  // ----- quoting, the tokenizer's inverse -----------------------------------------------------

  function QuoteChar(c: char): string {
    if c == '\'' then ['"', '\'', '"'] else ['\'', c, '\'']
  }

  function QuoteChars(arg: string): string {
    if arg == "" then "" else QuoteChar(arg[0]) + QuoteChars(arg[1..])
  }

  function Quote(arg: string): string {
    if arg == "" then "''" else QuoteChars(arg)
  }

  function CommandLine(args: seq<string>): string {
    if args == [] then ""
    else if |args| == 1 then Quote(args[0])
    else Quote(args[0]) + " " + CommandLine(args[1..])
  }

  lemma FeedThree(s: Scan, a: char, b: char, c: char)
    ensures FeedAll(s, [a, b, c]) == Feed(Feed(Feed(s, a), b), c)
  {
    assert [a, b, c][1..] == [b, c] && [b, c][1..] == [c] && [c][1..] == [];
    assert FeedAll(Feed(s, a), [b, c]) == FeedAll(Feed(Feed(s, a), b), [c]);
  }

  lemma {:induction false} FeedQuoted(s: Scan, arg: string)
    requires s.inQuote.None?
    ensures FeedAll(s, QuoteChars(arg)) == if arg == "" then s else s.(cur := s.cur + arg, had := true)
    decreases |arg|
  {
    if arg != "" {
      var q := QuoteChar(arg[0]);
      FeedAppend(s, q, QuoteChars(arg[1..]));
      FeedThree(s, q[0], q[1], q[2]);
      assert q == [q[0], q[1], q[2]];
      var s' := s.(cur := s.cur + [arg[0]], had := true);
      assert FeedAll(s, q) == s';
      FeedQuoted(s', arg[1..]);
      assert s.cur + [arg[0]] + arg[1..] == s.cur + arg;
    }
  }

  lemma TokensOfQuoted(arg: string)
    ensures Tokens(Quote(arg)) == Some([arg])
  {
    if arg == "" {
      assert "''" == ['\'', '\''] && ['\'', '\''][1..] == ['\''] && ['\''][1..] == "";
      assert FeedAll(SCAN_START, "''") == Feed(Feed(SCAN_START, '\''), '\'');
    } else {
      FeedQuoted(SCAN_START, arg);
      assert "" + arg == arg;
      assert [] + [arg] == [arg];
    }
  }

  /** Every argument vector, whatever its characters, can be written as a command line that tokenizes back to it. */
  lemma {:induction false} QuotingRoundTrip(args: seq<string>)
    ensures Tokens(CommandLine(args)) == Some(args)
  {
    if |args| == 1 {
      TokensOfQuoted(args[0]);
      assert args == [args[0]];
    } else if |args| > 1 {
      TokensOfQuoted(args[0]);
      QuotingRoundTrip(args[1..]);
      TokensConcatenate(Quote(args[0]), ' ', CommandLine(args[1..]));
      assert args == [args[0]] + args[1..];
    }
  }

  // ----- classifier ---------------------------------------------------------------------------

  function Join(tokens: seq<string>): string {
    if tokens == [] then ""
    else if |tokens| == 1 then tokens[0]
    else tokens[0] + " " + Join(tokens[1..])
  }

  const FORCE_FLAGS: set<string> := {"-rf", "-fr", "-r", "-f", "--recursive", "--force"}
  const RECURSIVE_FLAGS: set<string> := {"-R", "-r"}
  const WRECKERS: set<string> :=
    {"dd", "mkfs", "shutdown", "reboot", "halt", "fdisk", "parted", "mkswap", "truncate"}
  const INSTALLERS: set<string> := {"apt", "apt-get", "yum", "dnf", "apk", "brew", "pip", "pip3"}
  const REMOTE_SUBCOMMANDS: set<string> := {"push", "fetch", "pull", "clone", "submodule", "remote"}
  const NETWORK: set<string> := {"curl", "scp", "rsync", "sftp", "wget", "ftp"}
  const RUNNERS: set<string> :=
    {"bash", "sh", "zsh", "python", "python3", "node", "deno", "bun", "ruby", "perl", "make", "cmake", "cargo", "go",
     "npm", "npx", "yarn", "pnpm", "tsc", "javac", "java", "gcc", "cc", "g++", "clang", "zig", "./", "source"}
  const EDITORS: set<string> :=
    {"sed", "awk", "mv", "cp", "ln", "touch", "mkdir", "rmdir", "tee", "vim", "nvim", "nano", "echo", "printf"}
  const READERS: set<string> :=
    {"cat", "ls", "head", "tail", "grep", "rg", "find", "pwd", "which", "whoami", "env", "wc", "sort", "uniq", "diff",
     "file", "stat", "date"}

  predicate HasFlag(tokens: seq<string>, flags: set<string>) {
    exists t :: t in tokens && t in flags
  }

  /** Anything that can irreversibly destroy host or workspace state. */
  predicate Wrecks(tokens: seq<string>)
    requires tokens != []
  {
    || (tokens[0] == "rm" && HasFlag(tokens, FORCE_FLAGS))
    || tokens[0] in WRECKERS
    || Contains(Join(tokens), "> /dev/") || Contains(Join(tokens), ":/dev/")
    || (tokens[0] in {"chmod", "chown"} && HasFlag(tokens, RECURSIVE_FLAGS))
  }

  predicate Installs(tokens: seq<string>)
    requires tokens != []
  {
    || tokens[0] in INSTALLERS
    || (tokens[0] == "npm" && |tokens| > 1 && tokens[1] in {"install", "i"})
    || (tokens[0] == "cargo" && |tokens| > 1 && tokens[1] in {"install", "add"})
  }

  /** The class of a head that is neither destructive, nor an install, nor git. */
  function HeadClass(head: string): RiskClass {
    if head in NETWORK then NetworkWrite
    else if head in RUNNERS || "./" <= head || "../" <= head then ExecuteLocal
    else if head in EDITORS then EditWorkspace
    else if head in READERS then Read
    else ExecuteLocal
  }

  function Classify(tokens: seq<string>): RiskClass
    requires tokens != []
  {
    if Wrecks(tokens) then Destructive
    else if Installs(tokens) then PackageInstall
    else if tokens[0] == "git" then
      if |tokens| > 1 && tokens[1] in REMOTE_SUBCOMMANDS then GitRemote else EditWorkspace
    else HeadClass(tokens[0])
  }

  lemma {:induction false} JoinExtends(a: seq<string>, b: seq<string>)
    requires a != []
    ensures exists more :: Join(a + b) == Join(a) + more
  {
    if b == [] {
      assert a + b == a && Join(a) == Join(a) + "";
    } else if |a| == 1 {
      assert (a + b)[1..] == b;
      assert Join(a + b) == Join(a) + (" " + Join(b));
    } else {
      JoinExtends(a[1..], b);
      assert (a + b)[1..] == a[1..] + b;
      var more :| Join(a[1..] + b) == Join(a[1..]) + more;
      assert Join(a + b) == Join(a) + more;
    }
  }

  lemma WrecksExtends(a: seq<string>, b: seq<string>)
    requires a != [] && Wrecks(a)
    ensures Wrecks(a + b)
  {
    JoinExtends(a, b);
    var more :| Join(a + b) == Join(a) + more;
    if Contains(Join(a), "> /dev/") {
      ContainsExtends(Join(a), more, "> /dev/");
    }
    if Contains(Join(a), ":/dev/") {
      ContainsExtends(Join(a), more, ":/dev/");
    }
    assert (a + b)[0] == a[0] && forall t :: t in a ==> t in a + b;
  }

  /** Extra arguments never lower the risk class. */
  lemma ClassifyMonotone(a: seq<string>, b: seq<string>)
    requires a != []
    ensures Rank(Classify(a)) <= Rank(Classify(a + b))
  {
    assert (a + b)[0] == a[0] && (|a| > 1 ==> (a + b)[1] == a[1]);
    if Wrecks(a) {
      WrecksExtends(a, b);
    }
  }

  /** Short of destruction, only the first two words matter. */
  lemma ClassifyLocal(a: seq<string>, b: seq<string>)
    requires a != [] && b != [] && a[..if |a| > 2 then 2 else |a|] == b[..if |b| > 2 then 2 else |b|]
    requires !Wrecks(a) && !Wrecks(b)
    ensures Classify(a) == Classify(b)
  {
    var p, q := a[..if |a| > 2 then 2 else |a|], b[..if |b| > 2 then 2 else |b|];
    assert p[0] == a[0] && q[0] == b[0];
    assert |a| > 1 ==> p[1] == a[1];
    assert |b| > 1 ==> q[1] == b[1];
  }

  // ----- verdict ------------------------------------------------------------------------------

  /** When the provider cannot decide: ask, as if for the worst class. */
  const FAIL_CLOSED: Verdict := Verdict(Ask, Destructive)

  function VerdictOf(level: Level, command: string): Verdict {
    var tokens := Tokens(command);
    if tokens.None? || tokens.value == [] then FAIL_CLOSED
    else Verdict(DecideFor(level, Classify(tokens.value)), Classify(tokens.value))
  }

  method EvaluateWith(level: Level, command: string) returns (v: Verdict)
    ensures v == VerdictOf(level, command)
    ensures v.decision.Allow? ==> Tokens(command).Some? && Tokens(command).value != []
    ensures Tokens(command).None? || Tokens(command).value == [] ==> v == Verdict(Ask, Destructive)
    ensures !v.decision.Rewrite?
  {
    var tokens := Tokenize(command);
    if tokens.None? {
      return FAIL_CLOSED;
    }
    if tokens.value == [] {
      return FAIL_CLOSED;
    }
    var c := Classify(tokens.value);
    return Verdict(DecideFor(level, c), c);
  }

  /** Heads that only read are claimed by no other arm of the classifier. */
  lemma ReaderLetter(head: string)
    requires head in READERS
    ensures head != "" && head[0] != '.' && head != "npm" && head != "cargo" && head != "git"
  {
  }

  lemma ReadersInstallNothing(head: string)
    requires head in READERS
    ensures head !in INSTALLERS && head !in NETWORK
  {
  }

  lemma ReadersRunNothing(head: string)
    requires head in READERS
    ensures head !in RUNNERS
  {
  }

  lemma ReadersEditNothing(head: string)
    requires head in READERS
    ensures head !in EDITORS
  {
  }

  /** A command that starts with a reader reads, unless it wrecks. */
  lemma ReadersOnlyRead(t: seq<string>)
    requires t != [] && t[0] in READERS
    ensures Classify(t) == if Wrecks(t) then Destructive else Read
  {
    ReaderLetter(t[0]);
    ReadersInstallNothing(t[0]);
    ReadersRunNothing(t[0]);
    ReadersEditNothing(t[0]);
  }

  /** The words a level lets through on its own. */
  predicate Allows(level: Level, t: seq<string>)
    requires t != []
  {
    match level
    case L0 => false
    case L1 => !Wrecks(t) && t[0] in READERS
    case L2 => !Wrecks(t) && !Installs(t) && !TouchesRemote(t) && t[0] !in NETWORK
    case L3 => !Wrecks(t) && !Installs(t)
    case L4 => true
  }

  /** What each level lets through on its own, and what it refuses outright, in terms of the command's words. */
  lemma LevelMeanings(level: Level, t: seq<string>)
    requires t != []
    ensures DecideFor(level, Classify(t)) == Allow <==> Allows(level, t)
    ensures DecideFor(level, Classify(t)) == Deny <==> Wrecks(t) && level != L4
  {
    if t[0] in READERS {
      ReadersOnlyRead(t);
    }
  }

  predicate TouchesRemote(t: seq<string>)
    requires t != []
  {
    t[0] == "git" && |t| > 1 && t[1] in REMOTE_SUBCOMMANDS
  }

  /** The command line has words. */
  predicate HasWords(command: string) {
    Tokens(command).Some? && Tokens(command).value != []
  }

  /** Appending b to a makes the decision more permissive. */
  predicate Loosens(level: Level, a: string, w: char, b: string) {
    Strictness(VerdictOf(level, a + [w] + b).decision) < Strictness(VerdictOf(level, a).decision)
  }

  /**
   * Appending arguments loosens the decision in exactly two cases: a destructive command is denied, and
   * arguments with an open quote turn that into a question; or the first part has no words of its own,
   * being blank or ending in an open quote, and the whole has words that the level allows.
   */
  lemma AppendNeverPermits(level: Level, a: string, w: char, b: string)
    requires IsWhitespace(w)
    ensures Loosens(level, a, w, b) <==>
            if HasWords(a) then Tokens(b).None? && level != L4 && Wrecks(Tokens(a).value)
            else HasWords(a + [w] + b) && Allows(level, Tokens(a + [w] + b).value)
  {
    if HasWords(a) {
      AppendToWords(level, a, w, b);
    } else if HasWords(a + [w] + b) {
      LevelMeanings(level, Tokens(a + [w] + b).value);
    }
  }

  lemma AppendToWords(level: Level, a: string, w: char, b: string)
    requires IsWhitespace(w) && HasWords(a)
    ensures Loosens(level, a, w, b) <==> Tokens(b).None? && level != L4 && Wrecks(Tokens(a).value)
  {
    TokensConcatenate(a, w, b);
    LevelMeanings(level, Tokens(a).value);
    if Tokens(b).Some? {
      var ta, tb := Tokens(a).value, Tokens(b).value;
      ClassifyMonotone(ta, tb);
      DecideMonotone(level, level, Classify(ta), Classify(ta + tb));
    }
  }

  /** The reported risk class falls only where a command without words gets some that are not destructive. */
  lemma AppendNeverLowersClass(level: Level, a: string, w: char, b: string)
    requires IsWhitespace(w)
    ensures Rank(VerdictOf(level, a + [w] + b).riskClass) < Rank(VerdictOf(level, a).riskClass) <==>
            !HasWords(a) && HasWords(a + [w] + b) && !Wrecks(Tokens(a + [w] + b).value)
  {
    if HasWords(a) {
      TokensConcatenate(a, w, b);
      if Tokens(b).Some? {
        ClassifyMonotone(Tokens(a).value, Tokens(b).value);
      }
    }
  }

  /** The exception is real: a destructive command denied at the default level is only questioned with a stray quote. */
  lemma StrayQuoteDowngradesDenial(a: string, w: char)
    requires IsWhitespace(w) && Tokens(a).Some? && Tokens(a).value != [] && Wrecks(Tokens(a).value)
    ensures VerdictOf(L2, a).decision == Deny && VerdictOf(L2, a + [w] + "'").decision == Ask
  {
    TokensConcatenate(a, w, "'");
    assert "'"[1..] == "" && FeedAll(SCAN_START, "'") == Feed(SCAN_START, '\'');
  }

  lemma QuotedSpace(w: char)
    requires IsWhitespace(w)
    ensures Tokens("'") == None && Tokens("'" + [w] + "'") == Some([[w]])
  {
    var q := "'" + [w] + "'";
    assert q == ['\'', w, '\''] && "'"[1..] == "";
    FeedThree(SCAN_START, '\'', w, '\'');
    assert FeedAll(SCAN_START, "'") == Feed(SCAN_START, '\'');
    assert "" + [w] == [w] && [] + [[w]] == [[w]];
  }

  /** The other exception: a command with an open quote is questioned; closing the quote adds one blank word and may allow it. */
  lemma ClosingQuotePermits(level: Level, c: string, w: char)
    requires IsWhitespace(w) && HasWords(c)
    ensures var a := c + " " + "'"; var t := Tokens(c).value + [[w]];
      && VerdictOf(level, a).decision == Ask && Tokens(a + [w] + "'") == Some(t)
      && (Loosens(level, a, w, "'") <==> Allows(level, t))
  {
    var a := c + " " + "'";
    QuotedSpace(w);
    TokensConcatenate(c, ' ', "'");
    TokensConcatenate(c, ' ', "'" + [w] + "'");
    assert a + [w] + "'" == c + " " + ("'" + [w] + "'");
    AppendNeverPermits(level, a, w, "'");
  }

  lemma BlankListing()
    ensures Allows(L1, ["ls", " "])
  {
    var t := ["ls", " "];
    assert t[1..] == [" "] && |Join(t)| == 4;
  }

  /** So `ls '` is questioned at L1 and `ls ' '` allowed. */
  lemma ListingWithQuote()
    ensures VerdictOf(L1, "ls '").decision == Ask && VerdictOf(L1, "ls ' '").decision == Allow
  {
    WordOf("ls");
    ClosingQuotePermits(L1, "ls", ' ');
    assert ["ls"] + [[' ']] == ["ls", " "];
    BlankListing();
    LevelMeanings(L1, ["ls", " "]);
    assert "ls" + " " + "'" == "ls '" && "ls '" + [' '] + "'" == "ls ' '";
  }

  /** A text without white space and quotes is one word. */
  lemma WordOf(s: string)
    requires s != "" && forall i :: 0 <= i < |s| ==> !IsWhitespace(s[i]) && s[i] != '\'' && s[i] != '"'
    ensures Tokens(s) == Some([s])
  {
    FeedWord(SCAN_START, s);
    assert "" + s == s && [] + [s] == [s];
  }

  lemma {:induction false} FeedWord(c: Scan, s: string)
    requires c.inQuote.None? && forall i :: 0 <= i < |s| ==> !IsWhitespace(s[i]) && s[i] != '\'' && s[i] != '"'
    ensures FeedAll(c, s) == c.(cur := c.cur + s)
    decreases |s|
  {
    if s == "" {
      assert c.cur + s == c.cur;
    } else {
      FeedWord(Feed(c, s[0]), s[1..]);
      assert (c.cur + [s[0]]) + s[1..] == c.cur + s;
    }
  }

  /** Giving an agent less autonomy never makes a verdict more permissive. */
  lemma LessAutonomyIsStricter(low: Level, high: Level, command: string)
    requires LevelRank(low) <= LevelRank(high)
    ensures Strictness(VerdictOf(high, command).decision) <= Strictness(VerdictOf(low, command).decision)
  {
    var tokens := Tokens(command);
    if tokens.Some? && tokens.value != [] {
      var c := Classify(tokens.value);
      DecideMonotone(high, low, c, c);
    }
  }
}
