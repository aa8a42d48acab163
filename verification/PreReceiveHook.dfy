/**
 * The pre-receive hook and the two rules files it reads (apps/api/src/git-hooks.ts).
 */
module PreReceiveHook {
  import opened Wrappers
  import opened Strings
  import opened Regex
  import opened Globs

  const ZERO := "0000000000000000000000000000000000000000"

  datatype Update = Update(oldSha: string, newSha: string, ref: string)

  // ------------------------------------------------------- the shell's `read`

  predicate IsBlank(c: char) { c == ' ' || c == '\t' }

  function LStrip(s: string): (t: string)
    ensures t == [] || !IsBlank(t[0])
  {
    if s != [] && IsBlank(s[0]) then LStrip(s[1..]) else s
  }

  function RStrip(s: string): string {
    if s != [] && IsBlank(s[|s| - 1]) then RStrip(s[..|s| - 1]) else s
  }

  function Word(s: string): (w: string)
    ensures |w| <= |s|
  {
    if s == [] || IsBlank(s[0]) then [] else [s[0]] + Word(s[1..])
  }

  /** `read -r b f`: the first word, and the rest without outer blanks. */
  function ReadTwo(line: string): (string, string) {
    var s := LStrip(line);
    (Word(s), RStrip(LStrip(s[|Word(s)|..])))
  }

  /** `read -r pattern`: the line without outer blanks. */
  function ReadOne(line: string): string { RStrip(LStrip(line)) }

  /** The lines `while read` sees: an unterminated last line is not one of them. */
  function Lines(text: string): seq<string> {
    var pieces := Split(text, '\n');
    pieces[..|pieces| - 1]
  }

  predicate Contains(s: string, part: string) {
    exists k :: 0 <= k <= |s| && part <= s[k..]
  }

  // ------------------------------------------------------------- the decision

  /** The flags of the first line naming the branch. */
  function FlagsOf(lines: seq<string>, branch: string): Option<string> {
    if lines == [] then None
    else if ReadTwo(lines[0]).0 == branch then Some(ReadTwo(lines[0]).1)
    else FlagsOf(lines[1..], branch)
  }

  predicate HasFlag(flags: string, flag: string) { Contains("," + flags + ",", "," + flag + ",") }

  predicate RefusesBranch(conf: Option<string>, u: Update, isAncestor: (string, string) -> bool)
    requires "refs/heads/" <= u.ref
  {
    conf.Some? &&
    var flags := FlagsOf(Lines(conf.value), u.ref[11..]);
    flags.Some? && (u.newSha == ZERO || HasFlag(flags.value, "pr") ||
                    (HasFlag(flags.value, "force") && u.oldSha != ZERO && !isAncestor(u.oldSha, u.newSha)))
  }

  predicate PlainLines(text: string) {
    forall k :: 0 <= k < |Lines(text)| ==> PlainForShell(ReadOne(Lines(text)[k]))
  }

  predicate RefusesTag(tagConf: Option<string>, u: Update)
    requires tagConf.Some? ==> PlainLines(tagConf.value)
    requires "refs/tags/" <= u.ref
  {
    tagConf.Some? && (u.newSha == ZERO || u.oldSha != ZERO) &&
    exists k :: 0 <= k < |Lines(tagConf.value)| && ReadOne(Lines(tagConf.value)[k]) != [] &&
                ShellCase(ReadOne(Lines(tagConf.value)[k]), u.ref[10..])
  }

  predicate Refuses(conf: Option<string>, tagConf: Option<string>, u: Update, isAncestor: (string, string) -> bool)
    requires tagConf.Some? ==> PlainLines(tagConf.value)
  {
    if "refs/heads/" <= u.ref then RefusesBranch(conf, u, isAncestor)
    else "refs/tags/" <= u.ref && RefusesTag(tagConf, u)
  }

  /**
   * The hook: one exit status for all pushed refs. `isAncestor` stands for `git merge-base --is-ancestor`,
   * a missing file for `None`.
   */
  method PreReceive(internal: bool, conf: Option<string>, tagConf: Option<string>,
                    updates: seq<Update>, isAncestor: (string, string) -> bool) returns (rc: nat)
    requires tagConf.Some? ==> PlainLines(tagConf.value)
    ensures rc == 0 || rc == 1
    ensures rc == 1 <==> !internal && exists n :: 0 <= n < |updates| && Refuses(conf, tagConf, updates[n], isAncestor)
  {
    if internal { return 0; }
    if conf.None? && tagConf.None? { return 0; }
    rc := 0;
    for n := 0 to |updates|
      invariant rc == 0 || rc == 1
      invariant rc == 1 <==> exists m :: 0 <= m < n && Refuses(conf, tagConf, updates[m], isAncestor)
    {
      var u := updates[n];
      ghost var before := rc;
      if "refs/heads/" <= u.ref {
        if conf.None? { continue; }
        var branch := u.ref[11..];
        var found, flags := FindBranch(Lines(conf.value), branch);
        if !found { continue; }
        if u.newSha == ZERO { rc := 1; continue; }
        if Contains("," + flags + ",", "," + "pr" + ",") { rc := 1; continue; }
        if Contains("," + flags + ",", "," + "force" + ",") {
          if u.oldSha != ZERO && !isAncestor(u.oldSha, u.newSha) { rc := 1; continue; }
        }
      } else if "refs/tags/" <= u.ref {
        if tagConf.None? { continue; }
        var tag := u.ref[10..];
        if u.newSha == ZERO || u.oldSha != ZERO {
          var lines := Lines(tagConf.value);
          var k := 0;
          while k < |lines|
            invariant 0 <= k <= |lines|
            invariant rc == before
            invariant forall j :: 0 <= j < k ==> ReadOne(lines[j]) == [] || !ShellCase(ReadOne(lines[j]), tag)
          {
            var pattern := ReadOne(lines[k]);
            if pattern != [] && ShellCase(pattern, tag) { rc := 1; break; }
            k := k + 1;
          }
        }
      }
    }
  }

  method FindBranch(lines: seq<string>, branch: string) returns (found: bool, flags: string)
    ensures found <==> FlagsOf(lines, branch).Some?
    ensures found ==> flags == FlagsOf(lines, branch).value
  {
    found, flags := false, "";
    var k := 0;
    while k < |lines|
      invariant 0 <= k <= |lines|
      invariant FlagsOf(lines, branch) == FlagsOf(lines[k..], branch)
    {
      var (b, f) := ReadTwo(lines[k]);
      assert lines[k..][1..] == lines[k + 1..];
      if b == branch { return true, f; }
      k := k + 1;
    }
  }

  // ------------------------------------------------------------- writing the files

  datatype Protection = Protection(branch: string, requirePullRequest: bool, blockForcePush: bool)

  function FlagText(e: Protection): string {
    if e.requirePullRequest then (if e.blockForcePush then "pr,force" else "pr")
    else if e.blockForcePush then "force" else ""
  }

  function ProtectionLine(e: Protection): string {
    if FlagText(e) == "" then e.branch else e.branch + " " + FlagText(e)
  }

  function MapLines(entries: seq<Protection>): (r: seq<string>)
    ensures |r| == |entries| && forall k :: 0 <= k < |r| ==> r[k] == ProtectionLine(entries[k])
  {
    if entries == [] then [] else [ProtectionLine(entries[0])] + MapLines(entries[1..])
  }

  /** `writeProtectionConfig`: None when the file is removed. */
  function WriteProtection(entries: seq<Protection>): Option<string> {
    if entries == [] then None else Some(Join(MapLines(entries), "\n") + "\n")
  }

  function Cleaned(patterns: seq<string>): seq<string> {
    if patterns == [] then []
    else (if Trim(patterns[0]) == [] then [] else [Trim(patterns[0])]) + Cleaned(patterns[1..])
  }

  /** `writeProtectedTagsConfig`: None when the file is removed. */
  function WriteTagPatterns(patterns: seq<string>): Option<string> {
    if Cleaned(patterns) == [] then None else Some(Join(Cleaned(patterns), "\n") + "\n")
  }

  /** What a written list of lines reads back as. */
  lemma LinesReadBack(lines: seq<string>)
    requires lines != [] && forall k :: 0 <= k < |lines| ==> '\n' !in lines[k]
    ensures Lines(Join(lines, "\n") + "\n") == lines
  {
    SplitJoin(lines, '\n');
    assert Join(lines, "\n") + "\n" == Join(lines, "\n") + ['\n'] + [];
    SplitAtSeparator(Join(lines, "\n"), [], '\n');
    assert (lines + [[]])[..|lines|] == lines;
  }

  /** Git forbids blanks and line breaks in a branch name, and the empty name. */
  predicate BranchName(b: string) { b != [] && forall k :: 0 <= k < |b| ==> !IsBlank(b[k]) && b[k] != '\n' }

  lemma {:induction false} WordOf(b: string, rest: string)
    requires forall k :: 0 <= k < |b| ==> !IsBlank(b[k])
    requires rest == [] || IsBlank(rest[0])
    ensures Word(b + rest) == b
  {
    if b == [] {
      assert b + rest == rest;
    } else {
      assert (b + rest)[1..] == b[1..] + rest;
      WordOf(b[1..], rest);
    }
  }

  lemma ReadTwoOfLine(e: Protection)
    requires BranchName(e.branch)
    ensures ReadTwo(ProtectionLine(e)) == (e.branch, FlagText(e))
    ensures '\n' !in ProtectionLine(e)
  {
    var flags := FlagText(e);
    if flags == "" {
      WordOf(e.branch, []);
      assert e.branch + [] == e.branch && e.branch[|e.branch|..] == [];
      assert RStrip(LStrip([])) == [];
    } else {
      FlagTextEnds(e);
      WordOf(e.branch, " " + flags);
      TwoWords(e.branch, flags);
    }
  }

  lemma FlagTextEnds(e: Protection)
    ensures var flags := FlagText(e); flags != "" ==> !IsBlank(flags[0]) && !IsBlank(flags[|flags| - 1]) && '\n' !in flags
  {
  }

  lemma TwoWords(b: string, flags: string)
    requires b != [] && !IsBlank(b[0]) && Word(b + (" " + flags)) == b
    requires flags != [] && !IsBlank(flags[0]) && !IsBlank(flags[|flags| - 1])
    ensures ReadTwo(b + " " + flags) == (b, flags)
  {
    var line := b + " " + flags;
    Assoc(b, " ", flags);
    assert LStrip(line) == line;
    assert line[|b|..] == " " + flags;
    assert (" " + flags)[1..] == flags;
    assert LStrip(" " + flags) == flags;
  }

  lemma {:induction false} FlagsOfEntries(entries: seq<Protection>, i: nat)
    requires forall k :: 0 <= k < |entries| ==> BranchName(entries[k].branch)
    requires i < |entries| && forall k :: 0 <= k < i ==> entries[k].branch != entries[i].branch
    ensures FlagsOf(MapLines(entries), entries[i].branch) == Some(FlagText(entries[i]))
  {
    ReadTwoOfLine(entries[0]);
    if i > 0 { FlagsOfEntries(entries[1..], i - 1); }
  }

  lemma {:induction false} NoFlagsForOthers(entries: seq<Protection>, branch: string)
    requires forall k :: 0 <= k < |entries| ==> BranchName(entries[k].branch)
    requires forall k :: 0 <= k < |entries| ==> entries[k].branch != branch
    ensures FlagsOf(MapLines(entries), branch) == None
  {
    if entries != [] {
      ReadTwoOfLine(entries[0]);
      NoFlagsForOthers(entries[1..], branch);
    }
  }

  lemma FlagsAreDistinct(e: Protection)
    ensures HasFlag(FlagText(e), "pr") <==> e.requirePullRequest
    ensures HasFlag(FlagText(e), "force") <==> e.blockForcePush
  {
    FlagsOfText(FlagText(e));
  }

  lemma FlagsOfText(flags: string)
    requires flags == "" || flags == "pr" || flags == "force" || flags == "pr,force"
    ensures HasFlag(flags, "pr") <==> flags == "pr" || flags == "pr,force"
    ensures HasFlag(flags, "force") <==> flags == "force" || flags == "pr,force"
  {
    if flags == "pr,force" { BothFlags(); }
    if flags == "pr" { OneFlag("pr", "force", 'f'); }
    if flags == "force" { OneFlag("force", "pr", 'p'); }
    if flags == "" {
      PartAbsent(",,", ",pr,", 'p');
      PartAbsent(",,", ",force,", 'f');
    }
  }

  lemma OneFlag(flag: string, other: string, c: char)
    requires c in other && c !in flag && c != ','
    ensures HasFlag(flag, flag) && !HasFlag(flag, other)
  {
    PartAt("," + flag + ",", "," + flag + ",", 0);
    PartAbsent("," + flag + ",", "," + other + ",", c);
  }

  lemma BothFlags()
    ensures HasFlag("pr,force", "pr") && HasFlag("pr,force", "force")
  {
    FirstFlagText();
    SecondFlagText();
    PartBetween("", "," + "pr" + ",", "force,");
    PartBetween(",pr", "," + "force" + ",", "");
  }

  lemma FirstFlagText()
    ensures "," + "pr,force" + "," == "" + ("," + "pr" + ",") + "force,"
  {
  }

  lemma SecondFlagText()
    ensures "," + "pr,force" + "," == ",pr" + ("," + "force" + ",") + ""
  {
  }

  lemma PartBetween(a: string, part: string, b: string)
    ensures Contains(a + part + b, part)
  {
    assert (a + part + b)[|a|..] == part + b;
  }

  lemma PartAt(s: string, part: string, k: nat)
    ensures k <= |s| && part <= s[k..] ==> Contains(s, part)
  {
  }

  lemma PartAbsent(s: string, part: string, c: char)
    requires c in part && c !in s
    ensures !Contains(s, part)
  {
  }

  /**
   * The branch rules file reads back to the written rules: the hook refuses an update of a branch exactly
   * when the branch is protected and the update deletes it, or its rule asks for pull requests, or its rule
   * blocks force pushes and the update is not a fast-forward.
   */
  lemma WrittenBranchRulesAreEnforced(entries: seq<Protection>, tagConf: Option<string>, u: Update, isAncestor: (string, string) -> bool)
    requires forall k :: 0 <= k < |entries| ==> BranchName(entries[k].branch)
    requires forall j, k :: 0 <= j < k < |entries| ==> entries[j].branch != entries[k].branch
    requires tagConf.Some? ==> PlainLines(tagConf.value)
    requires "refs/heads/" <= u.ref
    ensures Refuses(WriteProtection(entries), tagConf, u, isAncestor)
       <==> exists i :: 0 <= i < |entries| && entries[i].branch == u.ref[11..] && Blocks(entries[i], u, isAncestor)
  {
    if entries != [] {
      var conf := WriteProtection(entries).value;
      WrittenLines(entries);
      if i :| 0 <= i < |entries| && entries[i].branch == u.ref[11..] {
        FlagsOfEntries(entries, i);
        RuleDecides(conf, entries[i], u, isAncestor);
        assert forall j :: 0 <= j < |entries| && entries[j].branch == u.ref[11..] ==> j == i;
      } else {
        NoFlagsForOthers(entries, u.ref[11..]);
      }
    }
  }

  lemma RuleDecides(conf: string, e: Protection, u: Update, isAncestor: (string, string) -> bool)
    requires "refs/heads/" <= u.ref && FlagsOf(Lines(conf), u.ref[11..]) == Some(FlagText(e))
    ensures RefusesBranch(Some(conf), u, isAncestor) <==> Blocks(e, u, isAncestor)
  {
    FlagsAreDistinct(e);
  }

  lemma WrittenLines(entries: seq<Protection>)
    requires entries != [] && forall k :: 0 <= k < |entries| ==> BranchName(entries[k].branch)
    ensures Lines(WriteProtection(entries).value) == MapLines(entries)
  {
    forall k | 0 <= k < |entries| ensures '\n' !in MapLines(entries)[k] { ReadTwoOfLine(entries[k]); }
    LinesReadBack(MapLines(entries));
  }

  predicate Blocks(e: Protection, u: Update, isAncestor: (string, string) -> bool) {
    u.newSha == ZERO || e.requirePullRequest || (e.blockForcePush && u.oldSha != ZERO && !isAncestor(u.oldSha, u.newSha))
  }

  // ------------------------------------------------------------------ tag rules

  /** A stored tag pattern: trimmed (the route stores it so), one line, no shell brackets or quoting. */
  predicate StoredPattern(p: string) { Trimmed(p) && '\n' !in p && PlainForShell(p) }

  lemma TrimOfTrimmed(p: string)
    requires Trimmed(p)
    ensures Trim(p) == p && ReadOne(p) == p
  {
  }

  lemma {:induction false} CleanedStored(patterns: seq<string>)
    requires forall k :: 0 <= k < |patterns| ==> StoredPattern(patterns[k])
    ensures forall p :: p in Cleaned(patterns) <==> p in patterns && p != []
    ensures forall k :: 0 <= k < |Cleaned(patterns)| ==> StoredPattern(Cleaned(patterns)[k])
  {
    if patterns != [] {
      TrimOfTrimmed(patterns[0]);
      CleanedStored(patterns[1..]);
      assert patterns == [patterns[0]] + patterns[1..];
    }
  }

  lemma WrittenTagFile(patterns: seq<string>)
    requires forall k :: 0 <= k < |patterns| ==> StoredPattern(patterns[k])
    ensures WriteTagPatterns(patterns).Some? ==>
              PlainLines(WriteTagPatterns(patterns).value) && Lines(WriteTagPatterns(patterns).value) == Cleaned(patterns)
  {
    CleanedStored(patterns);
    if Cleaned(patterns) != [] {
      LinesReadBack(Cleaned(patterns));
      forall k | 0 <= k < |Cleaned(patterns)| ensures PlainForShell(ReadOne(Cleaned(patterns)[k])) {
        TrimOfTrimmed(Cleaned(patterns)[k]);
      }
    }
  }

  /** Every delete or move of a tag the API calls protected is refused by the hook on the written file. */
  lemma HookRefusesWhatTheApiRefuses(patterns: seq<string>, conf: Option<string>, u: Update, isAncestor: (string, string) -> bool)
    requires forall k :: 0 <= k < |patterns| ==> StoredPattern(patterns[k])
    requires "refs/tags/" < u.ref && IsTagProtected(patterns, u.ref[10..])
    requires u.newSha == ZERO || u.oldSha != ZERO
    ensures WriteTagPatterns(patterns).Some? && PlainLines(WriteTagPatterns(patterns).value)
    ensures Refuses(conf, WriteTagPatterns(patterns), u, isAncestor)
  {
    var tag := u.ref[10..];
    var i :| 0 <= i < |patterns| && GlobMatch(patterns[i], tag);
    ProtectedPatternIsWritten(patterns, i, tag);
    WrittenTagFile(patterns);
    TagRefIsNoBranch(u.ref);
  }

  lemma ProtectedPatternIsWritten(patterns: seq<string>, i: nat, tag: string)
    requires forall k :: 0 <= k < |patterns| ==> StoredPattern(patterns[k])
    requires i < |patterns| && tag != [] && GlobMatch(patterns[i], tag)
    ensures exists k :: 0 <= k < |Cleaned(patterns)| && ReadOne(Cleaned(patterns)[k]) != [] &&
                        PlainForShell(ReadOne(Cleaned(patterns)[k])) && ShellCase(ReadOne(Cleaned(patterns)[k]), tag)
  {
    GlobMatchIsStarMatch(patterns[i], tag);
    CleanedStored(patterns);
    assert patterns[i] in Cleaned(patterns);
    var k :| 0 <= k < |Cleaned(patterns)| && Cleaned(patterns)[k] == patterns[i];
    TrimOfTrimmed(patterns[i]);
    ShellCoversGlob(patterns[i], tag);
  }

  /**
   * The tag rules file reads back to the written patterns: the hook refuses an update of a tag exactly when it deletes
   * or moves the tag and one of the patterns matches its name in the shell's sense: for patterns without `?`, star by
   * star, slashes included. Everything else passes.
   */
  lemma WrittenTagRulesAreEnforced(patterns: seq<string>, conf: Option<string>, u: Update, isAncestor: (string, string) -> bool)
    requires forall k :: 0 <= k < |patterns| ==> StoredPattern(patterns[k])
    requires "refs/tags/" <= u.ref
    ensures WriteTagPatterns(patterns).Some? ==> PlainLines(WriteTagPatterns(patterns).value)
    ensures Refuses(conf, WriteTagPatterns(patterns), u, isAncestor)
       <==> (u.newSha == ZERO || u.oldSha != ZERO) && exists p :: p in patterns && p != [] && PlainForShell(p) && ShellCase(p, u.ref[10..])
    ensures (forall p :: p in patterns ==> '?' !in p) ==>
      (Refuses(conf, WriteTagPatterns(patterns), u, isAncestor)
       <==> (u.newSha == ZERO || u.oldSha != ZERO) && exists p :: p in patterns && p != [] && StarMatch(p, u.ref[10..], true))
  {
    hide ShellCase, StarMatch;
    CleanedStored(patterns);
    WrittenTagFile(patterns);
    TagRefIsNoBranch(u.ref);
    var tag, kept := u.ref[10..], Cleaned(patterns);
    forall p | p in patterns ensures PlainForShell(p) && ('?' !in p ==> (ShellCase(p, tag) <==> StarMatch(p, tag, true))) {
      assert StoredPattern(p);
      if '?' !in p { ShellStars(p, tag); }
    }
    forall k | 0 <= k < |kept| ensures ReadOne(kept[k]) == kept[k] && kept[k] in patterns && kept[k] != [] { TrimOfTrimmed(kept[k]); }
    forall p | p in patterns && p != [] ensures p in kept { }
  }

  /** Refs that are neither branches nor tags are nobody's business. */
  lemma OtherRefsPass(conf: Option<string>, tagConf: Option<string>, u: Update, isAncestor: (string, string) -> bool)
    requires tagConf.Some? ==> PlainLines(tagConf.value)
    requires !("refs/heads/" <= u.ref) && !("refs/tags/" <= u.ref)
    ensures !Refuses(conf, tagConf, u, isAncestor)
  {
  }

  lemma TagRefIsNoBranch(ref: string)
    requires "refs/tags/" <= ref
    ensures !("refs/heads/" <= ref)
  {
    assert ref[5] == "refs/tags/"[5];
    assert "refs/heads/"[5] != "refs/tags/"[5];
  }

  /** A brand-new tag is never refused, whatever the patterns. */
  lemma NewTagsPass(conf: Option<string>, tagConf: Option<string>, u: Update, isAncestor: (string, string) -> bool)
    requires tagConf.Some? ==> PlainLines(tagConf.value)
    requires "refs/tags/" <= u.ref && u.oldSha == ZERO && u.newSha != ZERO
    ensures !Refuses(conf, tagConf, u, isAncestor)
  {
    TagRefIsNoBranch(u.ref);
  }
}
