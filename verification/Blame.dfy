/** Reading `git blame --porcelain` (apps/api/src/git-utils.ts), with and without the trimming that `git()` does. */
module Blame {
  import opened Wrappers
  import opened Strings

  // ----------------------------------------------------------------- the format

  datatype Commit = Commit(author: string, mail: string, time: string, summary: string, middle: seq<string>, rest: seq<string>)

  /** One line of the file: its commit, its line there, and the size of the group if the header states one. */
  datatype Line = Line(sha: string, orig: nat, group: Option<nat>, content: string)

  function HeaderLine(line: Line, final: nat): string {
    line.sha + " " + Join([Decimal(line.orig), Decimal(final)] + (if line.group.Some? then [Decimal(line.group.value)] else []), " ")
  }

  /** A commit's metadata block: `middle` and `rest` stand for the lines the reader does not use. */
  function Block(c: Commit): seq<string> {
    ["author " + c.author, "author-mail <" + c.mail + ">", "author-time " + c.time] + c.middle + ["summary " + c.summary] + c.rest
  }

  /** One file line's part of the output; the block comes at the first mention of a commit only. */
  function Part(info: map<string, Commit>, seen: set<string>, line: Line, final: nat): seq<string>
    requires line.sha in info
  {
    [HeaderLine(line, final)] + (if line.sha in seen then [] else Block(info[line.sha])) + ["\t" + line.content]
  }

  /** The lines of the output from one file line on. */
  function Rendered(info: map<string, Commit>, seen: set<string>, lines: seq<Line>, final: nat): seq<string>
    requires forall l :: l in lines ==> l.sha in info
    decreases |lines|
  {
    if lines == [] then []
    else Part(info, seen, lines[0], final) + Rendered(info, seen + {lines[0].sha}, lines[1..], final + 1)
  }

  /** Every line ended by a line feed. */
  function Text(lines: seq<string>): string { Terminated(lines, '\n') }

  predicate OneLine(s: string) { '\n' !in s }

  predicate IsUnused(s: string) {
    OneLine(s) && (s != [] ==> s[0] != '\t') && KeyOf(s) != "author" && KeyOf(s) != "author-mail" && KeyOf(s) != "author-time" && KeyOf(s) != "summary"
  }

  predicate CommitSound(c: Commit) {
    && OneLine(c.author) && OneLine(c.mail) && OneLine(c.time) && OneLine(c.summary)
    && (forall s :: s in c.middle ==> IsUnused(s)) && (forall s :: s in c.rest ==> IsUnused(s))
  }

  predicate Sound(info: map<string, Commit>, lines: seq<Line>) {
    && (forall l :: l in lines ==> IsSha(l.sha) && OneLine(l.content) && l.sha in info)
    && (forall sha :: sha in info ==> CommitSound(info[sha]))
  }

  // ------------------------------------------------------------------- reading lines

  function KeyOf(line: string): string { if line == [] || line[0] == ' ' then [] else [line[0]] + KeyOf(line[1..]) }

  function ValueOf(line: string): string {
    if line == [] then [] else if line[0] == ' ' then line[1..] else ValueOf(line[1..])
  }

  predicate AllDigits(s: string) { s != [] && forall k :: 0 <= k < |s| ==> IsDigit(s[k]) }

  /** The commit and the final line number of a header line. */
  function Header(line: string): Option<(string, nat)> {
    if |line| <= 41 || !IsSha(line[..40]) || line[40] != ' ' then None
    else
      var parts := Split(line[41..], ' ');
      if 2 <= |parts| <= 3 && forall k :: 0 <= k < |parts| ==> AllDigits(parts[k]) then Some((line[..40], Value(parts[1]))) else None
  }

  datatype Meta = Meta(author: Option<string>, mail: Option<string>, time: Option<string>, summary: Option<string>)

  const NO_META := Meta(None, None, None, None)

  /** One leading `<` and one trailing `>` off. */
  function Unwrapped(s: string): string {
    var t := if s != [] && s[0] == '<' then s[1..] else s;
    if t != [] && t[|t| - 1] == '>' then t[..|t| - 1] else t
  }

  function Learn(meta: Meta, line: string): Meta {
    var (key, val) := (KeyOf(line), ValueOf(line));
    if key == "author" then meta.(author := Some(val))
    else if key == "author-mail" then meta.(mail := Some(Unwrapped(val)))
    else if key == "author-time" then meta.(time := Some(val))
    else if key == "summary" then meta.(summary := Some(val))
    else meta
  }

  function Learned(meta: Meta, lines: seq<string>): Meta
    decreases |lines|
  {
    if lines == [] then meta else Learned(Learn(meta, lines[0]), lines[1..])
  }

  predicate IsContent(line: string) { line != [] && line[0] == '\t' }

  /** How many lines come before the next content line. */
  function MetaLength(lines: seq<string>): (n: nat)
    ensures n <= |lines| && (forall k :: 0 <= k < n ==> !IsContent(lines[k])) && (n < |lines| ==> IsContent(lines[n]))
  {
    if lines == [] || IsContent(lines[0]) then 0 else 1 + MetaLength(lines[1..])
  }

  datatype Entry = Entry(sha: string, final: nat, content: string)

  datatype Scanned = Scanned(entries: seq<Entry>, commits: map<string, Meta>)

  function MetaFor(commits: map<string, Meta>, sha: string): Meta { if sha in commits then commits[sha] else NO_META }

  /** What the first loop of the parser reads. */
  function Scan(lines: seq<string>, commits: map<string, Meta>): Scanned
    decreases |lines|
  {
    if lines == [] then Scanned([], commits)
    else
      match Header(lines[0])
      case None => Scan(lines[1..], commits)
      case Some((sha, final)) =>
        var n := MetaLength(lines[1..]);
        var known := commits[sha := Learned(MetaFor(commits, sha), lines[1..][..n])];
        var rest := lines[1..][n..];
        if rest == [] then Scanned([], known)
        else
          var after := Scan(rest[1..], known);
          Scanned([Entry(sha, final, rest[0][1..])] + after.entries, after.commits)
  }

  // ----------------------------------------------------------------------- hunks

  datatype Hunk = Hunk(sha: string, shortSha: string, author: string, mail: string, time: string, summary: string,
                       start: nat, end: nat, lines: seq<string>)

  function Or(s: Option<string>): string { if s.Some? then s.value else "" }

  function NewHunk(e: Entry, meta: Meta): Hunk {
    Hunk(e.sha, if |e.sha| > 7 then e.sha[..7] else e.sha, Or(meta.author), Or(meta.mail), Or(meta.time), Or(meta.summary),
         e.final, e.final, [e.content])
  }

  /** One turn of the second loop: the entry extends the last hunk or starts one. */
  function Push(hunks: seq<Hunk>, e: Entry, commits: map<string, Meta>): seq<Hunk> {
    if hunks != [] && hunks[|hunks| - 1].sha == e.sha && e.final == hunks[|hunks| - 1].end + 1 then
      var prev := hunks[|hunks| - 1];
      hunks[|hunks| - 1 := prev.(end := e.final, lines := prev.lines + [e.content])]
    else hunks + [NewHunk(e, MetaFor(commits, e.sha))]
  }

  function Coalesced(entries: seq<Entry>, commits: map<string, Meta>): seq<Hunk> {
    if entries == [] then [] else Push(Coalesced(entries[..|entries| - 1], commits), entries[|entries| - 1], commits)
  }

  function Parsed(raw: string): seq<Hunk> {
    var scanned := Scan(Split(raw, '\n'), map[]);
    Coalesced(scanned.entries, scanned.commits)
  }

  /** `parseBlamePorcelain`. */
  method ParseBlamePorcelain(raw: string) returns (hunks: seq<Hunk>)
    ensures hunks == Parsed(raw)
  {
    var entries, commits := ReadEntries(Split(raw, '\n'));
    hunks := Coalesce(entries, commits);
  }

  /** The second loop: consecutive lines of one commit become one hunk. */
  method Coalesce(entries: seq<Entry>, commits: map<string, Meta>) returns (hunks: seq<Hunk>)
    ensures hunks == Coalesced(entries, commits)
  {
    hunks := [];
    for n := 0 to |entries|
      invariant hunks == Coalesced(entries[..n], commits)
    {
      var e := entries[n];
      assert entries[..n + 1][..n] == entries[..n];
      if hunks != [] && hunks[|hunks| - 1].sha == e.sha && e.final == hunks[|hunks| - 1].end + 1 {
        var prev := hunks[|hunks| - 1];
        hunks := hunks[|hunks| - 1 := prev.(end := e.final, lines := prev.lines + [e.content])];
      } else {
        hunks := hunks + [NewHunk(e, MetaFor(commits, e.sha))];
      }
    }
    assert entries[..|entries|] == entries;
  }

  /** The first loop. */
  method ReadEntries(rawLines: seq<string>) returns (entries: seq<Entry>, commits: map<string, Meta>)
    ensures Scanned(entries, commits) == Scan(rawLines, map[])
  {
    entries, commits := [], map[];
    var i := 0;
    ghost var goal := Scan(rawLines, map[]);
    assert rawLines[0..] == rawLines;
    while i < |rawLines|
      invariant i <= |rawLines| && Continues(entries, Scan(rawLines[i..], commits), goal)
    {
      var header := Header(rawLines[i]);
      if header.None? {
        assert rawLines[i..][1..] == rawLines[i + 1..];
        i := i + 1;
        continue;
      }
      var (sha, final) := header.value;
      ghost var from := i;
      var meta;
      i, meta := ReadBlock(rawLines, i + 1, MetaFor(commits, sha));
      GroupContinues(rawLines, from, i, entries, commits, sha, final, goal);
      commits := commits[sha := meta];
      if i < |rawLines| {
        entries := entries + [Entry(sha, final, rawLines[i][1..])];
        i := i + 1;
      }
    }
    assert entries + [] == entries;
  }

  lemma GroupContinues(lines: seq<string>, i: nat, j: nat, entries: seq<Entry>, commits: map<string, Meta>, sha: string, final: nat, goal: Scanned)
    requires i < |lines| && Header(lines[i]) == Some((sha, final)) && j == i + 1 + MetaLength(lines[i + 1..])
    requires Continues(entries, Scan(lines[i..], commits), goal)
    ensures var known := commits[sha := Learned(MetaFor(commits, sha), lines[i + 1..][..j - i - 1])];
            if j == |lines| then Continues(entries, Scan(lines[j..], known), goal)
            else Continues(entries + [Entry(sha, final, lines[j][1..])], Scan(lines[j + 1..], known), goal)
  {
    ScanGroup(lines, i, j, commits, sha, final);
    var known := commits[sha := Learned(MetaFor(commits, sha), lines[i + 1..][..j - i - 1])];
    if j < |lines| {
      Assoc(entries, [Entry(sha, final, lines[j][1..])], Scan(lines[j + 1..], known).entries);
    } else {
      assert lines[j..] == [];
    }
  }

  /** A header at `i`, its block up to `j`, and the content line there if the text does not end before. */
  lemma ScanGroup(lines: seq<string>, i: nat, j: nat, commits: map<string, Meta>, sha: string, final: nat)
    requires i < |lines| && Header(lines[i]) == Some((sha, final)) && j == i + 1 + MetaLength(lines[i + 1..])
    ensures var known := commits[sha := Learned(MetaFor(commits, sha), lines[i + 1..][..j - i - 1])];
            Scan(lines[i..], commits) ==
              if j == |lines| then Scanned([], known)
              else
                var after := Scan(lines[j + 1..], known);
                Scanned([Entry(sha, final, lines[j][1..])] + after.entries, after.commits)
  {
    assert lines[i..][1..] == lines[i + 1..];
    assert lines[i + 1..][j - i - 1..] == lines[j..];
    if j < |lines| { assert lines[j..][1..] == lines[j + 1..]; }
  }

  predicate Continues(entries: seq<Entry>, rest: Scanned, goal: Scanned) {
    entries + rest.entries == goal.entries && rest.commits == goal.commits
  }

  /** The inner loop: the metadata lines up to the next content line. */
  method ReadBlock(rawLines: seq<string>, from: nat, start: Meta) returns (i: nat, meta: Meta)
    requires from <= |rawLines|
    ensures i == from + MetaLength(rawLines[from..]) && meta == Learned(start, rawLines[from..][..i - from])
  {
    i, meta := from, start;
    while i < |rawLines| && !IsContent(rawLines[i])
      invariant from <= i <= |rawLines| && forall k :: from <= k < i ==> !IsContent(rawLines[k])
      invariant meta == Learned(start, rawLines[from..i])
    {
      LearnedPush(start, rawLines[from..i], rawLines[i]);
      assert rawLines[from..i + 1] == rawLines[from..i] + [rawLines[i]];
      meta := Learn(meta, rawLines[i]);
      i := i + 1;
    }
    MetaLengthIs(rawLines[from..], i - from);
    assert rawLines[from..][..i - from] == rawLines[from..i];
  }

  lemma {:induction false} LearnedPush(meta: Meta, lines: seq<string>, line: string)
    ensures Learned(meta, lines + [line]) == Learn(Learned(meta, lines), line)
    decreases |lines|
  {
    if lines == [] {
      assert [line][1..] == [];
    } else {
      assert (lines + [line])[1..] == lines[1..] + [line];
      LearnedPush(Learn(meta, lines[0]), lines[1..], line);
    }
  }

  lemma {:induction false} MetaLengthIs(lines: seq<string>, n: nat)
    requires n <= |lines| && (forall k :: 0 <= k < n ==> !IsContent(lines[k])) && (n < |lines| ==> IsContent(lines[n]))
    ensures MetaLength(lines) == n
  {
  }

  // ------------------------------------------------------------- reading what was rendered

  lemma {:induction false} KeyAndValue(key: string, val: string)
    requires ' ' !in key
    ensures KeyOf(key + " " + val) == key && ValueOf(key + " " + val) == val
  {
    var line := key + " " + val;
    if key == [] {
      assert line[1..] == val;
    } else {
      assert line[1..] == key[1..] + " " + val;
      KeyAndValue(key[1..], val);
      assert [key[0]] + key[1..] == key;
    }
  }

  lemma UnwrapMail(mail: string)
    ensures Unwrapped("<" + mail + ">") == mail
  {
    var s := "<" + mail + ">";
    assert s[1..] == mail + ">";
    assert (mail + ">")[..|mail|] == mail;
  }

  function MetaOf(c: Commit): Meta { Meta(Some(c.author), Some(c.mail), Some(c.time), Some(c.summary)) }

  lemma {:induction false} UnusedLearned(meta: Meta, lines: seq<string>)
    requires forall s :: s in lines ==> IsUnused(s)
    ensures Learned(meta, lines) == meta
    decreases |lines|
  {
    if lines != [] {
      assert IsUnused(lines[0]);
      assert Learn(meta, lines[0]) == meta;
      UnusedLearned(meta, lines[1..]);
    }
  }

  lemma {:induction false} LearnedAppend(meta: Meta, a: seq<string>, b: seq<string>)
    ensures Learned(meta, a + b) == Learned(Learned(meta, a), b)
    decreases |a|
  {
    if a == [] {
      assert a + b == b;
    } else {
      assert (a + b)[1..] == a[1..] + b;
      LearnedAppend(Learn(meta, a[0]), a[1..], b);
    }
  }

  lemma LearnAuthor(meta: Meta, c: Commit)
    ensures Learn(meta, "author " + c.author) == meta.(author := Some(c.author))
  {
    KeyAndValue("author", c.author);
    assert "author " + c.author == "author" + " " + c.author;
  }

  lemma LearnMail(meta: Meta, c: Commit)
    ensures Learn(meta, "author-mail <" + c.mail + ">") == meta.(mail := Some(c.mail))
  {
    KeyAndValue("author-mail", "<" + c.mail + ">");
    assert "author-mail <" + c.mail + ">" == "author-mail" + " " + ("<" + c.mail + ">");
    UnwrapMail(c.mail);
  }

  lemma LearnTime(meta: Meta, c: Commit)
    ensures Learn(meta, "author-time " + c.time) == meta.(time := Some(c.time))
  {
    KeyAndValue("author-time", c.time);
    assert "author-time " + c.time == "author-time" + " " + c.time;
  }

  lemma LearnSummary(meta: Meta, c: Commit)
    ensures Learn(meta, "summary " + c.summary) == meta.(summary := Some(c.summary))
  {
    KeyAndValue("summary", c.summary);
    assert "summary " + c.summary == "summary" + " " + c.summary;
  }

  lemma HeadLearned(c: Commit)
    ensures Learned(NO_META, ["author " + c.author, "author-mail <" + c.mail + ">", "author-time " + c.time])
            == Meta(Some(c.author), Some(c.mail), Some(c.time), None)
  {
    var head := ["author " + c.author, "author-mail <" + c.mail + ">", "author-time " + c.time];
    var (one, two) := (Learn(NO_META, head[0]), Learn(Learn(NO_META, head[0]), head[1]));
    LearnAuthor(NO_META, c);
    LearnMail(one, c);
    LearnTime(two, c);
    assert head[1..] == [head[1], head[2]] && head[1..][1..] == [head[2]] && head[1..][1..][1..] == [];
    assert Learned(two, [head[2]]) == Learned(Learn(two, head[2]), []);
  }

  /** The block of a commit is read as its metadata. */
  lemma BlockLearned(c: Commit)
    requires CommitSound(c)
    ensures Learned(NO_META, Block(c)) == MetaOf(c)
  {
    var (head, summary) := (["author " + c.author, "author-mail <" + c.mail + ">", "author-time " + c.time], "summary " + c.summary);
    HeadLearned(c);
    var met := Learned(NO_META, head);
    LearnedAppend(NO_META, head, c.middle);
    UnusedLearned(met, c.middle);
    LearnedPush(NO_META, head + c.middle, summary);
    LearnSummary(met, c);
    LearnedAppend(NO_META, head + c.middle + [summary], c.rest);
    UnusedLearned(MetaOf(c), c.rest);
  }

  lemma BlockHasNoContent(c: Commit)
    requires CommitSound(c)
    ensures forall s :: s in Block(c) ==> OneLine(s) && !IsContent(s)
  {
    assert forall s :: s in Block(c) ==> s in c.middle || s in c.rest || s == "author " + c.author || s == "author-mail <" + c.mail + ">"
                                         || s == "author-time " + c.time || s == "summary " + c.summary;
  }

  lemma SplitSpaces(parts: seq<string>)
    requires parts != [] && forall k :: 0 <= k < |parts| ==> AllDigits(parts[k])
    ensures Split(Join(parts, " "), ' ') == parts
  {
    assert " " == [' '];
    SplitJoin(parts, ' ');
  }

  lemma HeaderRead(line: Line, final: nat)
    requires IsSha(line.sha)
    ensures Header(HeaderLine(line, final)) == Some((line.sha, final))
  {
    var parts := [Decimal(line.orig), Decimal(final)] + (if line.group.Some? then [Decimal(line.group.value)] else []);
    var s := HeaderLine(line, final);
    SplitSpaces(parts);
    assert s[..40] == line.sha && s[40] == ' ' && s[41..] == Join(parts, " ");
    ValueOfDecimal(final);
    assert parts[1] == Decimal(final);
  }

  function EntriesOf(lines: seq<Line>, final: nat): (es: seq<Entry>)
    ensures |es| == |lines| && forall k :: 0 <= k < |lines| ==> es[k] == Entry(lines[k].sha, final + k, lines[k].content)
  {
    seq(|lines|, k requires 0 <= k < |lines| => Entry(lines[k].sha, final + k, lines[k].content))
  }

  lemma {:induction false} MetaLengthOf(block: seq<string>, content: string, more: seq<string>)
    requires forall s :: s in block ==> !IsContent(s)
    ensures MetaLength(block + ["\t" + content] + more) == |block|
  {
    var all := block + ["\t" + content] + more;
    forall k | 0 <= k < |block| ensures !IsContent(all[k]) { assert all[k] in block; }
    MetaLengthIs(all, |block|);
  }

  /** One file line's part of the output. */
  lemma ScanOne(line: Line, final: nat, block: seq<string>, more: seq<string>, commits: map<string, Meta>)
    requires IsSha(line.sha) && forall s :: s in block ==> !IsContent(s)
    ensures var known := commits[line.sha := Learned(MetaFor(commits, line.sha), block)];
            var after := Scan(more, known);
            Scan([HeaderLine(line, final)] + block + ["\t" + line.content] + more, commits)
            == Scanned([Entry(line.sha, final, line.content)] + after.entries, after.commits)
  {
    var all := [HeaderLine(line, final)] + block + ["\t" + line.content] + more;
    HeaderRead(line, final);
    assert all[1..] == block + ["\t" + line.content] + more && all[0..] == all;
    MetaLengthOf(block, line.content, more);
    ScanGroup(all, 0, |block| + 1, commits, line.sha, final);
    assert all[1..][..|block|] == block && all[|block| + 2..] == more;
    assert ("\t" + line.content)[1..] == line.content;
  }

  function Shas(lines: seq<Line>): set<string> { set l | l in lines :: l.sha }

  predicate Known(info: map<string, Commit>, seen: set<string>, commits: map<string, Meta>) {
    commits.Keys == seen && forall sha :: sha in seen ==> sha in info && commits[sha] == MetaOf(info[sha])
  }

  /** What is rendered is read back line by line, whatever follows; each commit keeps the metadata of its block. */
  lemma {:induction false} ScanRendered(info: map<string, Commit>, seen: set<string>, lines: seq<Line>, final: nat, tail: seq<string>,
                                        commits: map<string, Meta>) returns (known: map<string, Meta>)
    requires Sound(info, lines) && Known(info, seen, commits)
    ensures Known(info, seen + Shas(lines), known)
    ensures Scan(Rendered(info, seen, lines, final) + tail, commits)
            == Scanned(EntriesOf(lines, final) + Scan(tail, known).entries, Scan(tail, known).commits)
    decreases |lines|
  {
    if lines == [] {
      known := commits;
      assert seen + Shas(lines) == seen;
      assert Rendered(info, seen, lines, final) + tail == tail;
      assert EntriesOf(lines, final) + Scan(tail, known).entries == Scan(tail, known).entries;
      return;
    }
    SoundCons(info, lines);
    var next := ScanFirst(info, seen, lines, final, tail, commits);
    known := ScanRendered(info, seen + {lines[0].sha}, lines[1..], final + 1, tail, next);
    ShasCons(seen, lines);
    EntriesCons(lines, final, Scan(tail, known).entries);
  }

  lemma SoundCons(info: map<string, Commit>, lines: seq<Line>)
    requires Sound(info, lines) && lines != []
    ensures Sound(info, lines[1..]) && IsSha(lines[0].sha) && lines[0].sha in info && CommitSound(info[lines[0].sha])
  {
    assert lines[0] in lines && forall l :: l in lines[1..] ==> l in lines;
  }

  lemma ScanFirst(info: map<string, Commit>, seen: set<string>, lines: seq<Line>, final: nat, tail: seq<string>, commits: map<string, Meta>)
      returns (next: map<string, Meta>)
    requires Sound(info, lines) && Known(info, seen, commits) && lines != [] && Sound(info, lines[1..])
    requires IsSha(lines[0].sha) && lines[0].sha in info && CommitSound(info[lines[0].sha])
    ensures Known(info, seen + {lines[0].sha}, next)
    ensures var after := Scan(Rendered(info, seen + {lines[0].sha}, lines[1..], final + 1) + tail, next);
            Scan(Rendered(info, seen, lines, final) + tail, commits)
            == Scanned([Entry(lines[0].sha, final, lines[0].content)] + after.entries, after.commits)
  {
    var (line, sha) := (lines[0], lines[0].sha);
    var block := if sha in seen then [] else Block(info[sha]);
    next := commits[sha := Learned(MetaFor(commits, sha), block)];
    BlockKnown(info, seen, sha, commits);
    var rest := Rendered(info, seen + {sha}, lines[1..], final + 1);
    ScanOne(line, final, block, rest + tail, commits);
    Regroup([HeaderLine(line, final)] + block, ["\t" + line.content], rest, tail);
  }

  lemma EntriesCons(lines: seq<Line>, final: nat, more: seq<Entry>)
    requires lines != []
    ensures EntriesOf(lines, final) + more == [Entry(lines[0].sha, final, lines[0].content)] + (EntriesOf(lines[1..], final + 1) + more)
  {
  }

  lemma BlockKnown(info: map<string, Commit>, seen: set<string>, sha: string, commits: map<string, Meta>)
    requires Known(info, seen, commits) && sha in info && CommitSound(info[sha])
    ensures var block := if sha in seen then [] else Block(info[sha]);
            Known(info, seen + {sha}, commits[sha := Learned(MetaFor(commits, sha), block)])
            && forall s :: s in block ==> !IsContent(s)
  {
    if sha !in seen {
      BlockLearned(info[sha]);
      BlockHasNoContent(info[sha]);
    }
  }

  lemma Regroup<T>(a: seq<T>, b: seq<T>, c: seq<T>, d: seq<T>)
    ensures a + b + (c + d) == (a + b + c) + d
  {
  }

  lemma ShasCons(seen: set<string>, lines: seq<Line>)
    requires lines != []
    ensures seen + {lines[0].sha} + Shas(lines[1..]) == seen + Shas(lines)
  {
    forall x ensures x in Shas(lines) <==> x in {lines[0].sha} + Shas(lines[1..]) {
      if x in Shas(lines) {
        var l :| l in lines && l.sha == x;
        assert l == lines[0] || l in lines[1..];
      }
      if x == lines[0].sha { assert lines[0] in lines; }
    }
  }

  lemma SplitText(lines: seq<string>, more: string)
    requires forall s :: s in lines ==> OneLine(s)
    ensures Split(Text(lines) + more, '\n') == lines + Split(more, '\n')
  {
    forall k | 0 <= k < |lines| ensures '\n' !in lines[k] { assert lines[k] in lines; }
    SplitTerminated(lines, '\n', more);
  }

  lemma HeaderIsOneLine(line: Line, final: nat)
    requires IsSha(line.sha)
    ensures OneLine(HeaderLine(line, final)) && !IsSpace(HeaderLine(line, final)[0])
    ensures !IsSpace(HeaderLine(line, final)[|HeaderLine(line, final)| - 1])
  {
    if line.group.Some? {
      JoinThree(Decimal(line.orig), Decimal(final), Decimal(line.group.value));
    } else {
      JoinTwo(Decimal(line.orig), Decimal(final));
    }
  }

  lemma JoinTwo(a: string, b: string)
    ensures Join([a, b] + [], " ") == a + " " + b
  {
    assert ([a, b] + [])[1..] == [b];
  }

  lemma JoinThree(a: string, b: string, c: string)
    ensures Join([a, b] + [c], " ") == a + " " + (b + " " + c)
  {
    assert ([a, b] + [c])[1..] == [b, c] && [b, c][1..] == [c];
    assert Join([b, c], " ") == b + " " + c;
    assert a + " " + Join([b, c], " ") == a + " " + (b + " " + c);
  }

  lemma {:induction false} RenderedLines(info: map<string, Commit>, seen: set<string>, lines: seq<Line>, final: nat)
    requires Sound(info, lines)
    ensures forall s :: s in Rendered(info, seen, lines, final) ==> OneLine(s)
    decreases |lines|
  {
    if lines != [] {
      var line := lines[0];
      assert line in lines;
      HeaderIsOneLine(line, final);
      BlockHasNoContent(info[line.sha]);
      assert forall l :: l in lines[1..] ==> l in lines;
      RenderedLines(info, seen + {line.sha}, lines[1..], final + 1);
    }
  }

  // -------------------------------------------------------------------- the hunks tile

  predicate IsLine(line: Line, sha: string, content: string) { line.sha == sha && line.content == content }

  /** A hunk holds the lines `start` to `end`, all of its commit, with that commit's metadata. */
  predicate HunkSound(info: map<string, Commit>, lines: seq<Line>, h: Hunk) {
    && 1 <= h.start <= h.end <= |lines| && |h.lines| == h.end - h.start + 1
    && (forall j :: 0 <= j < |h.lines| ==> IsLine(lines[h.start - 1 + j], h.sha, h.lines[j]))
    && h.sha in info && |h.sha| == 40 && h.shortSha == h.sha[..7]
    && h.author == info[h.sha].author && h.mail == info[h.sha].mail && h.time == info[h.sha].time && h.summary == info[h.sha].summary
  }

  /** The hunks tile the first `n` lines, and neighbours are of different commits. */
  predicate Tile(info: map<string, Commit>, lines: seq<Line>, hunks: seq<Hunk>, n: nat) {
    && (hunks == [] <==> n == 0)
    && (forall k :: 0 <= k < |hunks| ==> HunkSound(info, lines, hunks[k]))
    && (hunks != [] ==> hunks[0].start == 1 && hunks[|hunks| - 1].end == n)
    && (forall k :: 0 <= k < |hunks| - 1 ==> hunks[k + 1].start == hunks[k].end + 1 && hunks[k + 1].sha != hunks[k].sha)
  }

  lemma TilePush(info: map<string, Commit>, lines: seq<Line>, hunks: seq<Hunk>, n: nat, commits: map<string, Meta>)
    requires Sound(info, lines) && n < |lines| && Tile(info, lines, hunks, n)
    requires lines[n].sha in commits && commits[lines[n].sha] == MetaOf(info[lines[n].sha])
    ensures Tile(info, lines, Push(hunks, Entry(lines[n].sha, 1 + n, lines[n].content), commits), n + 1)
  {
    assert lines[n] in lines;
    var e := Entry(lines[n].sha, 1 + n, lines[n].content);
    if hunks != [] && hunks[|hunks| - 1].sha == e.sha {
      var prev := hunks[|hunks| - 1];
      HunkGrows(info, lines, prev, n);
      TileReplace(info, lines, hunks, n, prev.(end := e.final, lines := prev.lines + [e.content]));
    } else {
      TileAppend(info, lines, hunks, n, NewHunk(e, MetaFor(commits, e.sha)));
    }
  }

  lemma HunkGrows(info: map<string, Commit>, lines: seq<Line>, h: Hunk, n: nat)
    requires HunkSound(info, lines, h) && n < |lines| && h.end == n && lines[n].sha == h.sha
    ensures HunkSound(info, lines, h.(end := n + 1, lines := h.lines + [lines[n].content]))
  {
    var grown := h.lines + [lines[n].content];
    forall j | 0 <= j < |grown| ensures IsLine(lines[h.start - 1 + j], h.sha, grown[j]) {
      if j < |h.lines| { assert IsLine(lines[h.start - 1 + j], h.sha, h.lines[j]); }
    }
  }

  lemma TileReplace(info: map<string, Commit>, lines: seq<Line>, hunks: seq<Hunk>, n: nat, h: Hunk)
    requires Tile(info, lines, hunks, n) && hunks != [] && HunkSound(info, lines, h)
    requires h.sha == hunks[|hunks| - 1].sha && h.start == hunks[|hunks| - 1].start && h.end == n + 1
    ensures Tile(info, lines, hunks[|hunks| - 1 := h], n + 1)
  {
  }

  lemma TileAppend(info: map<string, Commit>, lines: seq<Line>, hunks: seq<Hunk>, n: nat, h: Hunk)
    requires Tile(info, lines, hunks, n) && HunkSound(info, lines, h) && h.start == h.end == n + 1
    requires hunks != [] ==> hunks[|hunks| - 1].sha != h.sha
    ensures Tile(info, lines, hunks + [h], n + 1)
  {
  }

  predicate AreEntries(lines: seq<Line>, es: seq<Entry>) {
    |es| <= |lines| && forall k :: 0 <= k < |es| ==> es[k] == Entry(lines[k].sha, 1 + k, lines[k].content)
  }

  /** The metadata of these commits has been read. */
  predicate Covers(info: map<string, Commit>, shas: set<string>, commits: map<string, Meta>) {
    forall sha :: sha in shas ==> sha in info && sha in commits && commits[sha] == MetaOf(info[sha])
  }

  lemma {:induction false} CoalescedTile(info: map<string, Commit>, lines: seq<Line>, es: seq<Entry>, commits: map<string, Meta>)
    requires Sound(info, lines) && AreEntries(lines, es) && Covers(info, Shas(lines), commits)
    ensures Tile(info, lines, Coalesced(es, commits), |es|)
  {
    if es != [] {
      var n := |es| - 1;
      CoalescedTile(info, lines, es[..n], commits);
      assert lines[n] in lines && lines[n].sha in Shas(lines);
      TilePush(info, lines, Coalesced(es[..n], commits), n, commits);
    }
  }

  /** Rendering any attribution and reading it back gives hunks that tile the file, with the right lines and metadata. */
  lemma BlameRoundTrip(info: map<string, Commit>, lines: seq<Line>)
    requires Sound(info, lines)
    ensures Tile(info, lines, Parsed(Text(Rendered(info, {}, lines, 1))), |lines|)
  {
    var raw := Rendered(info, {}, lines, 1);
    var known := ReadBack(info, lines, [""]);
    RenderedLines(info, {}, lines, 1);
    SplitText(raw, "");
    assert Text(raw) + "" == Text(raw);
    assert [""][1..] == [] && Scan([""], known) == Scanned([], known);
    assert EntriesOf(lines, 1) + [] == EntriesOf(lines, 1);
    CoalescedTile(info, lines, EntriesOf(lines, 1), known);
  }

  lemma ReadBack(info: map<string, Commit>, lines: seq<Line>, tail: seq<string>) returns (known: map<string, Meta>)
    requires Sound(info, lines)
    ensures Known(info, Shas(lines), known)
    ensures Scan(Rendered(info, {}, lines, 1) + tail, map[])
            == Scanned(EntriesOf(lines, 1) + Scan(tail, known).entries, Scan(tail, known).commits)
  {
    known := ScanRendered(info, {}, lines, 1, tail, map[]);
    assert {} + Shas(lines) == Shas(lines);
  }

  // ------------------------------------------------------------- through `git()`, trimmed

  function Flat(hunks: seq<Hunk>): seq<string> { if hunks == [] then [] else Flat(hunks[..|hunks| - 1]) + hunks[|hunks| - 1].lines }

  function Contents(entries: seq<Entry>): (cs: seq<string>)
    ensures |cs| == |entries| && forall k :: 0 <= k < |entries| ==> cs[k] == entries[k].content
  {
    seq(|entries|, k requires 0 <= k < |entries| => entries[k].content)
  }

  /** Coalescing keeps every line, whatever the entries. */
  lemma {:induction false} CoalescedFlat(entries: seq<Entry>, commits: map<string, Meta>)
    ensures Flat(Coalesced(entries, commits)) == Contents(entries)
  {
    if entries != [] {
      var (before, e) := (entries[..|entries| - 1], entries[|entries| - 1]);
      CoalescedFlat(before, commits);
      PushFlat(Coalesced(before, commits), e, commits);
      ContentsPush(before, e);
      assert entries == before + [e];
    }
  }

  lemma ContentsPush(entries: seq<Entry>, e: Entry)
    ensures Contents(entries + [e]) == Contents(entries) + [e.content]
  {
  }

  lemma PushFlat(hunks: seq<Hunk>, e: Entry, commits: map<string, Meta>)
    ensures Flat(Push(hunks, e, commits)) == Flat(hunks) + [e.content]
  {
    var pushed := Push(hunks, e, commits);
    if |pushed| == |hunks| {
      assert pushed[..|pushed| - 1] == hunks[..|hunks| - 1];
      Assoc(Flat(hunks[..|hunks| - 1]), hunks[|hunks| - 1].lines, [e.content]);
    } else {
      assert pushed[..|pushed| - 1] == hunks;
    }
  }

  lemma {:induction false} TextAppend(a: seq<string>, b: seq<string>)
    ensures Text(a + b) == Text(a) + Text(b)
  {
    if a == [] {
      assert a + b == b;
    } else {
      assert (a + b)[1..] == a[1..] + b;
      TextAppend(a[1..], b);
      Assoc(a[0] + ['\n'], Text(a[1..]), Text(b));
    }
  }

  /** The header and the block, if any, of the line after `front`. */
  function Lead(info: map<string, Commit>, front: seq<Line>, last: Line): seq<string>
    requires last.sha in info
  {
    [HeaderLine(last, 1 + |front|)] + if last.sha in Shas(front) then [] else Block(info[last.sha])
  }

  lemma RenderedOne(info: map<string, Commit>, seen: set<string>, line: Line, final: nat)
    requires line.sha in info
    ensures Rendered(info, seen, [line], final) == [] + Part(info, seen, line, final)
  {
    assert [line][1..] == [];
  }

  lemma RenderedCons(info: map<string, Commit>, seen: set<string>, line: Line, rest: seq<Line>, final: nat)
    requires line.sha in info && forall l :: l in rest ==> l.sha in info
    ensures Rendered(info, seen, [line] + rest, final) == Part(info, seen, line, final) + Rendered(info, seen + {line.sha}, rest, final + 1)
  {
    assert ([line] + rest)[1..] == rest;
  }

  lemma {:induction false} RenderedAppend(info: map<string, Commit>, seen: set<string>, front: seq<Line>, last: Line, final: nat)
    requires last.sha in info && forall l :: l in front ==> l.sha in info
    ensures Rendered(info, seen, front + [last], final)
            == Rendered(info, seen, front, final) + Part(info, seen + Shas(front), last, final + |front|)
    decreases |front|
  {
    if front == [] {
      RenderedOne(info, seen, last, final);
      assert front + [last] == [last] && seen + Shas(front) == seen;
    } else {
      var first, rest := front[0], front[1..];
      assert front == [first] + rest && front + [last] == [first] + (rest + [last]);
      ShasCons(seen, front);
      RenderedAppend(info, seen + {first.sha}, rest, last, final + 1);
      RenderedCons(info, seen, first, rest + [last], final);
      RenderedCons(info, seen, first, rest, final);
      Assoc(Part(info, seen, first, final), Rendered(info, seen + {first.sha}, rest, final + 1),
            Part(info, seen + Shas(front), last, final + |front|));
    }
  }

  lemma SoundFront(info: map<string, Commit>, front: seq<Line>, last: Line)
    requires Sound(info, front + [last])
    ensures Sound(info, front) && last.sha in info && IsSha(last.sha) && OneLine(last.content)
  {
    assert last in front + [last] && forall l :: l in front ==> l in front + [last];
  }

  lemma RenderedLast(info: map<string, Commit>, front: seq<Line>, last: Line)
    requires Sound(info, front + [last])
    ensures Sound(info, front) && last.sha in info && IsSha(last.sha) && OneLine(last.content)
    ensures Rendered(info, {}, front + [last], 1) == Rendered(info, {}, front, 1) + Lead(info, front, last) + ["\t" + last.content]
  {
    SoundFront(info, front, last);
    RenderedAppend(info, {}, front, last, 1);
    assert {} + Shas(front) == Shas(front);
    assert Part(info, Shas(front), last, 1 + |front|) == Lead(info, front, last) + ["\t" + last.content];
    Assoc(Rendered(info, {}, front, 1), Lead(info, front, last), ["\t" + last.content]);
  }

  lemma LeadLines(info: map<string, Commit>, front: seq<Line>, last: Line)
    requires last.sha in info && CommitSound(info[last.sha]) && IsSha(last.sha)
    ensures var lead := Lead(info, front, last);
            (forall s :: s in lead ==> OneLine(s)) && (forall k :: 1 <= k < |lead| ==> !IsContent(lead[k]))
  {
    HeaderIsOneLine(last, 1 + |front|);
    BlockHasNoContent(info[last.sha]);
    var lead := Lead(info, front, last);
    forall k | 1 <= k < |lead| ensures !IsContent(lead[k]) { assert lead[k] in Block(info[last.sha]); }
  }

  // What trimming the end does.

  lemma {:induction false} TrimEndPrefix(s: string)
    ensures TrimEnd(s) <= s
  {
    if s != [] && IsSpace(s[|s| - 1]) { TrimEndPrefix(s[..|s| - 1]); }
  }

  lemma {:induction false} TrimEndAppend(a: string, b: string)
    ensures TrimEnd(a + b) == if TrimEnd(b) == [] then TrimEnd(a) else a + TrimEnd(b)
    decreases |b|
  {
    if b == [] {
      assert a + b == a;
    } else if IsSpace(b[|b| - 1]) {
      assert (a + b)[..|a + b| - 1] == a + b[..|b| - 1];
      TrimEndAppend(a, b[..|b| - 1]);
    }
  }

  lemma TrimmedContent(content: string)
    ensures TrimEnd("\t" + content + "\n") == if TrimEnd(content) == [] then [] else "\t" + TrimEnd(content)
  {
    TrimEndAppend("\t" + content, "\n");
    assert "\n"[..0] == [] && TrimEnd("\n") == [];
    TrimEndAppend("\t", content);
    assert "\t"[..0] == [] && TrimEnd("\t") == [];
  }

  lemma TextStarts(info: map<string, Commit>, lines: seq<Line>)
    requires Sound(info, lines) && lines != []
    ensures TrimStart(Text(Rendered(info, {}, lines, 1))) == Text(Rendered(info, {}, lines, 1))
  {
    assert lines[0] in lines;
    HeaderIsOneLine(lines[0], 1);
    var raw := Rendered(info, {}, lines, 1);
    assert raw[0] == HeaderLine(lines[0], 1);
    assert Text(raw)[0] == raw[0][0];
  }

  lemma TextOfLast(info: map<string, Commit>, front: seq<Line>, last: Line)
    requires Sound(info, front + [last])
    ensures Sound(info, front) && last.sha in info
    ensures Text(Rendered(info, {}, front + [last], 1))
            == Text(Rendered(info, {}, front, 1) + Lead(info, front, last)) + ("\t" + last.content + "\n")
  {
    RenderedLast(info, front, last);
    var line := "\t" + last.content;
    TextAppend(Rendered(info, {}, front, 1) + Lead(info, front, last), [line]);
    assert [line][1..] == [] && Terminated([], '\n') == [] && Text([line]) == line + "\n" + [];
  }

  /** A last line with some text in it only loses the spaces at its end. */
  lemma TrimmedText(info: map<string, Commit>, front: seq<Line>, last: Line)
    requires Sound(info, front + [last]) && TrimEnd(last.content) != []
    ensures Sound(info, front + [last.(content := TrimEnd(last.content))])
    ensures Split(Trim(Text(Rendered(info, {}, front + [last], 1))), '\n')
            == Rendered(info, {}, front + [last.(content := TrimEnd(last.content))], 1)
  {
    var cut := last.(content := TrimEnd(last.content));
    RenderedLast(info, front, last);
    TrimEndPrefix(last.content);
    assert Sound(info, front + [cut]) by { assert forall l :: l in front + [cut] ==> l == cut || l in front + [last]; }
    RenderedLast(info, front, cut);
    var before := Rendered(info, {}, front, 1) + Lead(info, front, last);
    TextStarts(info, front + [last]);
    TextOfLast(info, front, last);
    TrimmedContent(last.content);
    TrimEndAppend(Text(before), "\t" + last.content + "\n");
    RenderedLines(info, {}, front, 1);
    LeadLines(info, front, last);
    SplitText(before, "\t" + cut.content);
    SplitNoSep("\t" + cut.content, '\n');
    assert Lead(info, front, cut) == Lead(info, front, last);
  }

  lemma {:induction false} SplitOfPrefix(p: string, rest: string, k: nat)
    requires k < |Split(p, '\n')|
    ensures k < |Split(p + rest, '\n')| && Split(p, '\n')[k] <= Split(p + rest, '\n')[k]
  {
    SplitAppend(p, rest, '\n');
  }

  lemma BlankTrim(info: map<string, Commit>, front: seq<Line>, last: Line)
    requires Sound(info, front + [last]) && TrimEnd(last.content) == []
    ensures Sound(info, front) && last.sha in info && IsSha(last.sha) && CommitSound(info[last.sha])
    ensures Trim(Text(Rendered(info, {}, front + [last], 1)))
            == TrimEnd(Text(Rendered(info, {}, front, 1)) + Text(Lead(info, front, last)))
  {
    RenderedLast(info, front, last);
    var (raw, lead) := (Rendered(info, {}, front, 1), Lead(info, front, last));
    TextStarts(info, front + [last]);
    TextOfLast(info, front, last);
    TrimmedContent(last.content);
    TrimEndAppend(Text(raw + lead), "\t" + last.content + "\n");
    TextAppend(raw, lead);
  }

  /** A blank last line takes its tab and line feed with it; of what comes before, only the header is sure to be whole. */
  lemma BlankText(info: map<string, Commit>, front: seq<Line>, last: Line) returns (tail: seq<string>)
    requires Sound(info, front + [last]) && TrimEnd(last.content) == [] && Sound(info, front)
    ensures Split(Trim(Text(Rendered(info, {}, front + [last], 1))), '\n')
            == Rendered(info, {}, front, 1) + ([HeaderLine(last, 1 + |front|)] + tail)
    ensures forall k :: 0 <= k < |tail| ==> !IsContent(tail[k])
    ensures last.sha in Shas(front) ==> tail == []
  {
    BlankTrim(info, front, last);
    var (raw, lead) := (Rendered(info, {}, front, 1), Lead(info, front, last));
    var (h, block) := (lead[0], lead[1..]);
    assert lead == [h] + block;
    LeadLines(info, front, last);
    TrimmedLead(h, block, last, 1 + |front|);
    TrimEndAppend(Text(raw), Text(lead));
    RenderedLines(info, {}, front, 1);
    var more := TrimEnd("\n" + Text(block));
    SplitText(raw, h + more);
    assert forall s :: s in block ==> s in lead;
    tail := LeadTail(h, block, more);
  }

  lemma TrimmedLead(h: string, block: seq<string>, last: Line, final: nat)
    requires h == HeaderLine(last, final) && IsSha(last.sha)
    ensures TrimEnd(Text([h] + block)) == h + TrimEnd("\n" + Text(block)) != []
  {
    HeaderIsOneLine(last, final);
    assert ([h] + block)[1..] == block;
    Assoc(h, "\n", Text(block));
    TrimEndAppend(h, "\n" + Text(block));
    assert h + [] == h;
  }

  lemma LineFeedIsTrimmed()
    ensures TrimEnd("\n") == []
  {
    assert "\n"[..0] == [];
  }

  /** A header and part of a block are split into the header and lines that hold no content. */
  lemma LeadTail(h: string, block: seq<string>, more: string) returns (tail: seq<string>)
    requires OneLine(h) && more == TrimEnd("\n" + Text(block))
    requires forall s :: s in block ==> OneLine(s) && !IsContent(s)
    ensures Split(h + more, '\n') == [h] + tail && forall k :: 0 <= k < |tail| ==> !IsContent(tail[k])
    ensures block == [] ==> tail == []
  {
    var all := "\n" + Text(block);
    TrimEndPrefix(all);
    if block == [] { assert all == "\n"; LineFeedIsTrimmed(); }
    if more == [] {
      assert h + more == h;
      SplitNoSep(h, '\n');
      return [];
    }
    var p := more[1..];
    assert all[1..] == Text(block) && p <= Text(block) && more == ['\n'] + p;
    Assoc(h, ['\n'], p);
    SplitFirst(h, p, '\n');
    tail := Split(p, '\n');
    var rest := Text(block)[|p|..];
    assert p + rest == Text(block) && Text(block) + [] == Text(block);
    SplitText(block, []);
    forall k | 0 <= k < |tail| ensures !IsContent(tail[k]) {
      SplitOfPrefix(p, rest, k);
      var whole := (block + [[]])[k];
      if k < |block| { assert whole in block; }
    }
  }

  lemma HeaderWithoutContent(line: Line, final: nat, tail: seq<string>, commits: map<string, Meta>)
    requires IsSha(line.sha) && forall k :: 0 <= k < |tail| ==> !IsContent(tail[k])
    ensures Scan([HeaderLine(line, final)] + tail, commits) == Scanned([], commits[line.sha := Learned(MetaFor(commits, line.sha), tail)])
  {
    var all := [HeaderLine(line, final)] + tail;
    HeaderRead(line, final);
    assert all[1..] == tail && all[0..] == all;
    MetaLengthIs(tail, |tail|);
    ScanGroup(all, 0, |all|, commits, line.sha, final);
    assert all[0 + 1..][..|all| - 0 - 1] == tail;
  }

  lemma BlankScan(info: map<string, Commit>, front: seq<Line>, last: Line) returns (commits: map<string, Meta>)
    requires Sound(info, front + [last]) && TrimEnd(last.content) == []
    ensures Sound(info, front) && Covers(info, Shas(front), commits)
    ensures Scan(Split(Trim(Text(Rendered(info, {}, front + [last], 1))), '\n'), map[]) == Scanned(EntriesOf(front, 1), commits)
  {
    RenderedLast(info, front, last);
    var tail := BlankText(info, front, last);
    var known := ReadBack(info, front, [HeaderLine(last, 1 + |front|)] + tail);
    HeaderWithoutContent(last, 1 + |front|, tail, known);
    commits := known[last.sha := Learned(MetaFor(known, last.sha), tail)];
    assert EntriesOf(front, 1) + [] == EntriesOf(front, 1);
  }

  lemma BlankBlame(info: map<string, Commit>, front: seq<Line>, last: Line)
    requires Sound(info, front + [last]) && TrimEnd(last.content) == []
    ensures var hunks := Parsed(Trim(Text(Rendered(info, {}, front + [last], 1))));
            Tile(info, front, hunks, |front|) && Flat(hunks) == ContentsOf(front)
  {
    var commits := BlankScan(info, front, last);
    CoalescedTile(info, front, EntriesOf(front, 1), commits);
    LinesOfEntries(front, EntriesOf(front, 1), commits);
  }

  lemma CutBlame(info: map<string, Commit>, front: seq<Line>, last: Line)
    requires Sound(info, front + [last]) && TrimEnd(last.content) != []
    ensures var lines := front + [last.(content := TrimEnd(last.content))];
            var hunks := Parsed(Trim(Text(Rendered(info, {}, front + [last], 1))));
            Tile(info, lines, hunks, |lines|) && Flat(hunks) == ContentsOf(lines)
  {
    TrimmedText(info, front, last);
    ReadLines(info, front + [last.(content := TrimEnd(last.content))]);
  }

  /** Read without a last empty line, rendered lines give the same hunks. */
  lemma ReadLines(info: map<string, Commit>, lines: seq<Line>)
    requires Sound(info, lines)
    ensures var scanned := Scan(Rendered(info, {}, lines, 1), map[]);
            var hunks := Coalesced(scanned.entries, scanned.commits);
            Tile(info, lines, hunks, |lines|) && Flat(hunks) == ContentsOf(lines)
  {
    var known := ReadAll(info, lines);
    var es := EntriesOf(lines, 1);
    CoalescedTile(info, lines, es, known);
    LinesOfEntries(lines, es, known);
  }

  lemma LinesOfEntries(lines: seq<Line>, es: seq<Entry>, commits: map<string, Meta>)
    requires |es| == |lines| && AreEntries(lines, es)
    ensures Flat(Coalesced(es, commits)) == ContentsOf(lines)
  {
    CoalescedFlat(es, commits);
    assert Contents(es) == ContentsOf(lines);
  }

  lemma ReadAll(info: map<string, Commit>, lines: seq<Line>) returns (known: map<string, Meta>)
    requires Sound(info, lines)
    ensures Known(info, Shas(lines), known) && Scan(Rendered(info, {}, lines, 1), map[]) == Scanned(EntriesOf(lines, 1), known)
  {
    known := ReadBack(info, lines, []);
    var (raw, es) := (Rendered(info, {}, lines, 1), EntriesOf(lines, 1));
    assert raw + [] == raw && es + [] == es;
  }

  /**
   * Through `git()`, which trims what git prints: the last line loses the spaces at its end, and is lost altogether
   * when it is blank; what is left is tiled by the hunks as before.
   */
  lemma TrimmedBlame(info: map<string, Commit>, front: seq<Line>, last: Line)
    requires Sound(info, front + [last])
    ensures var text := Text(Rendered(info, {}, front + [last], 1));
            && (TrimEnd(last.content) == [] ==> Tile(info, front, Parsed(Trim(text)), |front|))
            && (TrimEnd(last.content) != [] ==>
                Tile(info, front + [last.(content := TrimEnd(last.content))], Parsed(Trim(text)), |front| + 1))
            && Flat(Parsed(Trim(text))) == ContentsOf(front) + if TrimEnd(last.content) == [] then [] else [TrimEnd(last.content)]
  {
    hide *;
    if TrimEnd(last.content) == [] {
      BlankBlame(info, front, last);
      assert ContentsOf(front) + [] == ContentsOf(front);
    } else {
      CutBlame(info, front, last);
      ContentsOfLast(front, last.(content := TrimEnd(last.content)));
    }
  }

  lemma ContentsOfLast(front: seq<Line>, last: Line)
    ensures ContentsOf(front + [last]) == ContentsOf(front) + [last.content]
  {
  }

  function ContentsOf(lines: seq<Line>): (cs: seq<string>)
    ensures |cs| == |lines| && forall k :: 0 <= k < |lines| ==> cs[k] == lines[k].content
  {
    seq(|lines|, k requires 0 <= k < |lines| => lines[k].content)
  }

  /** What is left of the last line. */
  function Rest(last: Line): seq<string> { if TrimEnd(last.content) == [] then [] else [TrimEnd(last.content)] }

  lemma TrimmedLines(info: map<string, Commit>, front: seq<Line>, last: Line)
    requires Sound(info, front + [last])
    ensures Flat(Parsed(Trim(Text(Rendered(info, {}, front + [last], 1))))) == ContentsOf(front) + Rest(last)
  {
    TrimmedBlame(info, front, last);
  }

  lemma SameRest(last: Line)
    ensures Rest(last) == [last.content] <==> last.content != [] && !IsSpace(last.content[|last.content| - 1])
  {
    var c := last.content;
    TrimEndPrefix(c);
    if c != [] && IsSpace(c[|c| - 1]) { TrimEndPrefix(c[..|c| - 1]); }
    assert Rest(last) == [c] <==> TrimEnd(c) != [] && Rest(last)[0] == c;
  }

  /** Exactly: every line comes through unchanged if and only if the last one is not empty and does not end in a space. */
  lemma BlameKeepsLastLine(info: map<string, Commit>, front: seq<Line>, last: Line)
    requires Sound(info, front + [last])
    ensures Flat(Parsed(Trim(Text(Rendered(info, {}, front + [last], 1))))) == ContentsOf(front + [last])
            <==> last.content != [] && !IsSpace(last.content[|last.content| - 1])
  {
    TrimmedLines(info, front, last);
    SameRest(last);
    assert ContentsOf(front + [last]) == ContentsOf(front) + [last.content];
    assert (ContentsOf(front) + Rest(last))[|front|..] == Rest(last);
    assert (ContentsOf(front) + [last.content])[|front|..] == [last.content];
  }
}
