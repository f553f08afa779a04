/** What the policy says of a command line, with its words written out. */
module PolicyMeanings {
  import opened Prelude
  import opened Text
  import opened Policy

  // ----- the joined text ----------------------------------------------------------------------

  /** The words with a space between them. */
  function Spaced(args: seq<string>): string
    requires args != []
  {
    if |args| == 1 then args[0] else Spaced(args[..|args| - 1]) + " " + args[|args| - 1]
  }

  ghost predicate Occurs(part: string, s: string) {
    exists a, b :: s == a + part + b
  }

  lemma {:induction false} JoinSnoc(args: seq<string>, w: string)
    requires args != []
    ensures Join(args + [w]) == Join(args) + " " + w
  {
    if |args| == 1 {
      assert (args + [w])[1..] == [w];
    } else {
      assert (args + [w])[1..] == args[1..] + [w];
      JoinSnoc(args[1..], w);
    }
  }

  lemma {:induction false} JoinIsSpaced(args: seq<string>)
    requires args != []
    ensures Join(args) == Spaced(args)
  {
    if |args| > 1 {
      var n := |args| - 1;
      JoinIsSpaced(args[..n]);
      JoinSnoc(args[..n], args[n]);
      assert args == args[..n] + [args[n]];
    }
  }

  lemma ContainsIsOccurs(s: string, part: string)
    ensures Contains(s, part) <==> Occurs(part, s)
  {
    if Contains(s, part) {
      var i :| 0 <= i <= |s| && StartsAt(s, part, i);
      assert s == s[..i] + part + s[i + |part|..];
    }
    if Occurs(part, s) {
      var a, b :| s == a + part + b;
      assert s[|a|..|a| + |part|] == part;
      assert StartsAt(s, part, |a|);
    }
  }

  // ----- destruction --------------------------------------------------------------------------

  ghost predicate RemovesByForce(args: seq<string>)
    requires args != []
  {
    args[0] == "rm" && exists i :: 0 <= i < |args| && args[i] in {"-rf", "-fr", "-r", "-f", "--recursive", "--force"}
  }

  ghost predicate ChangesAll(args: seq<string>)
    requires args != []
  {
    (args[0] == "chmod" || args[0] == "chown") && exists i :: 0 <= i < |args| && args[i] in {"-R", "-r"}
  }

  /** The commands that can destroy something for good. */
  ghost predicate Destroys(args: seq<string>)
    requires args != []
  {
    || RemovesByForce(args)
    || args[0] in {"dd", "mkfs", "shutdown", "reboot", "halt", "fdisk", "parted", "mkswap", "truncate"}
    || Occurs("> /dev/", Spaced(args)) || Occurs(":/dev/", Spaced(args))
    || ChangesAll(args)
  }

  lemma FlagAt(args: seq<string>, flags: set<string>)
    ensures HasFlag(args, flags) <==> exists i :: 0 <= i < |args| && args[i] in flags
  {
    if HasFlag(args, flags) {
      var t :| t in args && t in flags;
      var i :| 0 <= i < |args| && args[i] == t;
    }
  }

  lemma WrecksIsDestroys(args: seq<string>)
    requires args != []
    ensures Wrecks(args) <==> Destroys(args)
  {
    FlagAt(args, {"-rf", "-fr", "-r", "-f", "--recursive", "--force"});
    FlagAt(args, {"-R", "-r"});
    JoinIsSpaced(args);
    ContainsIsOccurs(Spaced(args), "> /dev/");
    ContainsIsOccurs(Spaced(args), ":/dev/");
  }

  /** The verdict on a command line is that on its words. */
  lemma VerdictOnWords(level: Level, args: seq<string>)
    requires args != []
    ensures VerdictOf(level, CommandLine(args)) == Verdict(DecideFor(level, Classify(args)), Classify(args))
  {
    QuotingRoundTrip(args);
  }

  /** Exactly the commands that can destroy something are classed so, and exactly these are denied, except at L4. */
  lemma DestructionDenied(level: Level, args: seq<string>)
    requires args != []
    ensures VerdictOf(level, CommandLine(args)).riskClass == Destructive <==> Destroys(args)
    ensures VerdictOf(level, CommandLine(args)).decision == Deny <==> Destroys(args) && level != L4
    ensures level == L4 ==> VerdictOf(level, CommandLine(args)).decision == Allow
  {
    VerdictByWords(level, args);
    LevelTable(ClassByWords(args));
  }

  // ----- the other classes --------------------------------------------------------------------

  predicate InstallsPackages(args: seq<string>)
    requires args != []
  {
    || args[0] in {"apt", "apt-get", "yum", "dnf", "apk", "brew", "pip", "pip3"}
    || (args[0] == "npm" && |args| > 1 && (args[1] == "install" || args[1] == "i"))
    || (args[0] == "cargo" && |args| > 1 && (args[1] == "install" || args[1] == "add"))
  }

  predicate GoesRemote(args: seq<string>)
    requires args != []
  {
    args[0] == "git" && |args| > 1 && args[1] in {"push", "fetch", "pull", "clone", "submodule", "remote"}
  }

  predicate UsesNetwork(args: seq<string>)
    requires args != []
  {
    args[0] in {"curl", "scp", "rsync", "sftp", "wget", "ftp"}
  }

  predicate Edits(args: seq<string>)
    requires args != []
  {
    || (args[0] == "git" && !GoesRemote(args))
    || args[0] in {"sed", "awk", "mv", "cp", "ln", "touch", "mkdir", "rmdir", "tee", "vim", "nvim", "nano", "echo", "printf"}
  }

  predicate Reads(args: seq<string>)
    requires args != []
  {
    args[0] in {"cat", "ls", "head", "tail", "grep", "rg", "find", "pwd", "which", "whoami", "env", "wc", "sort", "uniq",
                "diff", "file", "stat", "date"}
  }

  /** The class of a command by its words; what they do not name runs locally. */
  ghost function ClassByWords(args: seq<string>): RiskClass
    requires args != []
  {
    if Destroys(args) then Destructive
    else if InstallsPackages(args) then PackageInstall
    else if GoesRemote(args) then GitRemote
    else if UsesNetwork(args) then NetworkWrite
    else if Edits(args) then EditWorkspace
    else if Reads(args) then Read
    else ExecuteLocal
  }

  lemma EditorsRunNothing(head: string)
    requires head in EDITORS
    ensures head !in RUNNERS && head !in NETWORK && !("./" <= head) && !("../" <= head)
  {
    assert head[0] != '.';
  }

  lemma ClassifiedByWords(args: seq<string>)
    requires args != []
    ensures Classify(args) == ClassByWords(args)
  {
    WrecksIsDestroys(args);
    if args[0] in EDITORS {
      EditorsRunNothing(args[0]);
    }
    if args[0] in READERS {
      ReadersOnlyRead(args);
    }
  }

  /** What the levels allow and ask, class by class. */
  lemma LevelTable(c: RiskClass)
    ensures DecideFor(L0, c) == if c == Destructive then Deny else Ask
    ensures DecideFor(L1, c) == if c == Read then Allow else if c == Destructive then Deny else Ask
    ensures DecideFor(L2, c) == if c in {Read, EditWorkspace, ExecuteLocal} then Allow else if c == Destructive then Deny else Ask
    ensures DecideFor(L3, c) == if c == Destructive then Deny else if c == PackageInstall then Ask else Allow
    ensures DecideFor(L4, c) == Allow
  {
  }

  /** The whole verdict on a command line, from its words. */
  lemma VerdictByWords(level: Level, args: seq<string>)
    requires args != []
    ensures VerdictOf(level, CommandLine(args)) == Verdict(DecideFor(level, ClassByWords(args)), ClassByWords(args))
  {
    VerdictOnWords(level, args);
    ClassifiedByWords(args);
  }

  /** For example `rm -rf` and anything else, at the default level. */
  lemma RmIsDenied(more: seq<string>, flag: string)
    requires flag in {"-rf", "-fr", "-r", "-f", "--recursive", "--force"} && flag in more
    ensures VerdictOf(L2, CommandLine(["rm"] + more)) == Verdict(Deny, Destructive)
  {
    var args := ["rm"] + more;
    var i :| 0 <= i < |more| && more[i] == flag;
    assert args[i + 1] == flag && RemovesByForce(args);
    VerdictByWords(L2, args);
  }
}
