/**
 * One `git log` read as a stream: records, their parsing and the crediting of directory entries
 * (apps/api/src/tree-commits.ts `parseLogRecord`, `entryFor`, `walk`).
 */
module LogWalk {
  import opened Wrappers
  import opened Strings

  const NUL: char := '\0'
  const RS: char := '\U{001E}'
  const US: char := '\U{001F}'

  datatype EntryCommit = EntryCommit(sha: string, subject: string, date: string)

  // -------------------------------------------------------------------- records

  /** The text before the first `c`, and the text after it when there is one. */
  function CutAt(s: string, c: char): (r: (string, Option<string>))
  {
    if s == [] then ([], None)
    else if s[0] == c then ([], Some(s[1..]))
    else
      var (before, after) := CutAt(s[1..], c);
      ([s[0]] + before, after)
  }

  function ParseLogRecord(record: string): Option<(EntryCommit, seq<string>)> {
    var (header, body) := CutAt(record, NUL);
    var fields := Split(header, US);
    var sha := fields[0];
    if !IsSha(sha) then None
    else
      var rest := if body.None? then "" else if body.value != [] && body.value[0] == '\n' then body.value[1..] else body.value;
      var date := if |fields| > 1 then fields[1] else "";
      var subject := if |fields| > 2 then Join(fields[2..], [US]) else "";
      Some((EntryCommit(sha, subject, date), NonEmpty(Split(rest, NUL))))
  }

  /** What `git log -z --name-only` writes for one commit, after its leading record separator. */
  function LogRecord(c: EntryCommit, paths: seq<string>): string {
    c.sha + [US] + c.date + [US] + c.subject + [NUL] + (if paths == [] then "" else "\n" + Terminated(paths, NUL))
  }

  predicate WritableCommit(c: EntryCommit) {
    IsSha(c.sha) && US !in c.date && NUL !in c.date && NUL !in c.subject
  }

  predicate WritablePath(p: string) { p != [] && NUL !in p }

  lemma {:induction false} CutAtFirst(a: string, c: char, b: string)
    requires c !in a
    ensures CutAt(a + [c] + b, c) == (a, Some(b))
  {
    if a == [] {
      assert (a + [c] + b)[1..] == b;
    } else {
      assert (a + [c] + b)[1..] == a[1..] + [c] + b;
      CutAtFirst(a[1..], c, b);
      assert (a + [c] + b)[0] == a[0] && [a[0]] + a[1..] == a;
    }
  }

  lemma HeaderFields(c: EntryCommit)
    requires WritableCommit(c)
    ensures var fields := Split(c.sha + [US] + c.date + [US] + c.subject, US);
      && |fields| > 2 && fields[0] == c.sha && fields[1] == c.date && Join(fields[2..], [US]) == c.subject
  {
    assert US !in c.sha;
    Assoc(c.sha + [US], c.date, [US]);
    Assoc(c.sha + [US], c.date + [US], c.subject);
    SplitFirst(c.sha, c.date + [US] + c.subject, US);
    SplitFirst(c.date, c.subject, US);
    JoinSplit(c.subject, US);
    var more := Split(c.subject, US);
    assert ([c.sha] + ([c.date] + more))[2..] == more;
  }

  lemma {:induction false} NoSeparatorInPaths(paths: seq<string>)
    requires forall k :: 0 <= k < |paths| ==> RS !in paths[k]
    ensures RS !in Terminated(paths, NUL)
  {
    if paths != [] { NoSeparatorInPaths(paths[1..]); }
  }

  /** A written record reads back, whatever separators the subject holds beside NUL and the record separator. */
  lemma RecordRoundTrip(c: EntryCommit, paths: seq<string>)
    requires WritableCommit(c) && forall k :: 0 <= k < |paths| ==> WritablePath(paths[k])
    ensures ParseLogRecord(LogRecord(c, paths)) == Some((c, paths))
  {
    var header := c.sha + [US] + c.date + [US] + c.subject;
    var body := if paths == [] then "" else "\n" + Terminated(paths, NUL);
    assert NUL !in header;
    CutAtFirst(header, NUL, body);
    HeaderFields(c);
    PiecesOfTerminated(paths, NUL);
    if paths != [] { assert body[1..] == Terminated(paths, NUL); }
  }

  // -------------------------------------------------------------------- entries

  function Prefix(dir: string): string { if dir == [] then [] else dir + "/" }

  function EntryFor(dir: string, path: string): Option<string> {
    if !(Prefix(dir) <= path) then None else Some(CutAt(path[|Prefix(dir)|..], '/').0)
  }

  function JoinPath(dir: string, name: string): string { Prefix(dir) + name }

  /** What `git log -- <spec>` with literal pathspecs limits to: the file, or everything below the directory. */
  predicate UnderPathspec(spec: string, path: string) { path == spec || spec + "/" <= path }

  lemma {:induction false} CutAtSpec(s: string, c: char, a: string)
    requires c !in a
    ensures CutAt(s, c).0 == a <==> s == a || a + [c] <= s
  {
    if s == [] {
    } else if s[0] == c {
      if a + [c] <= s { assert (a + [c])[0] == c; }
      if a == [] { assert a + [c] == [c] <= s; }
    } else if a != [] {
      CutAtSpec(s[1..], c, a[1..]);
      assert a == [a[0]] + a[1..] && s == [s[0]] + s[1..];
      assert CutAt(s, c).0 == [s[0]] + CutAt(s[1..], c).0;
      assert a + [c] == [a[0]] + (a[1..] + [c]);
      if a[1..] + [c] <= s[1..] && a[0] == s[0] { assert a + [c] <= s; }
      if a + [c] <= s {
        assert a[0] == s[0];
        assert (a + [c])[1..] == a[1..] + [c] && s[..|a| + 1][1..] == s[1..][..|a|];
      }
    }
  }

  /** The entry a path falls under is the entry whose own pathspec covers the path. */
  lemma EntryIsPathspec(dir: string, name: string, path: string)
    requires '/' !in name
    ensures EntryFor(dir, path) == Some(name) <==> UnderPathspec(JoinPath(dir, name), path)
  {
    var prefix, spec := Prefix(dir), JoinPath(dir, name);
    if prefix <= path {
      var rest := path[|prefix|..];
      assert path == prefix + rest;
      CutAtSpec(rest, '/', name);
      assert path == spec <==> rest == name by {
        if path == spec { assert spec[|prefix|..] == name; }
      }
      assert spec + "/" == prefix + (name + "/");
      assert spec + "/" <= path <==> name + "/" <= rest by {
        if spec + "/" <= path { assert (spec + "/")[|prefix|..] == name + "/"; assert path[..|spec| + 1][|prefix|..] == rest[..|name| + 1]; }
        if name + "/" <= rest { assert path[..|spec| + 1] == prefix + rest[..|name| + 1]; }
      }
    }
  }

  // ------------------------------------------------------------------- crediting

  /** The walk's result so far; `pastMerge` once the newest first-parent merge has been read. */
  datatype Credits = Credits(commits: map<string, EntryCommit>, uncertain: set<string>, pastMerge: bool)

  const NOTHING := Credits(map[], {}, false)

  /** A walk's question: the entries of one directory, and the newest merge on the tip's line. */
  datatype Query = Query(dir: string, names: set<string>, firstMerge: Option<string>)

  function CreditPath(q: Query, c: EntryCommit, w: Credits, path: string): Credits {
    var name := EntryFor(q.dir, path);
    if name.Some? && name.value in q.names && name.value !in w.commits then
      w.(commits := w.commits[name.value := c], uncertain := if w.pastMerge then w.uncertain + {name.value} else w.uncertain)
    else w
  }

  function CreditPaths(q: Query, c: EntryCommit, w: Credits, paths: seq<string>): Credits
    decreases |paths|
  {
    if paths == [] then w else CreditPaths(q, c, CreditPath(q, c, w, paths[0]), paths[1..])
  }

  function CreditCommit(q: Query, w: Credits, c: EntryCommit, paths: seq<string>): Credits {
    CreditPaths(q, c, if q.firstMerge == Some(c.sha) then w.(pastMerge := true) else w, paths)
  }

  function CreditRecord(q: Query, w: Credits, record: string): Credits {
    var parsed := ParseLogRecord(record);
    if parsed.None? then w else CreditCommit(q, w, parsed.value.0, parsed.value.1)
  }

  function CreditRecords(q: Query, w: Credits, records: seq<string>): Credits
    decreases |records|
  {
    if records == [] then w else CreditRecords(q, CreditRecord(q, w, records[0]), records[1..])
  }

  /** The answer of a walk over a whole output: what the records credit, in order. */
  function WalkAnswer(q: Query, output: string): (map<string, EntryCommit>, set<string>) {
    var w := CreditRecords(q, NOTHING, NonEmpty(Split(output, RS)));
    (w.commits, w.uncertain)
  }

  lemma {:induction false} CreditRecordsAppend(q: Query, w: Credits, a: seq<string>, b: seq<string>)
    ensures CreditRecords(q, w, a + b) == CreditRecords(q, CreditRecords(q, w, a), b)
    decreases |a|
  {
    if a == [] {
      assert a + b == b;
    } else {
      assert (a + b)[1..] == a[1..] + b;
      CreditRecordsAppend(q, CreditRecord(q, w, a[0]), a[1..], b);
    }
  }

  lemma {:induction false} CreditPathsKeeps(q: Query, c: EntryCommit, w: Credits, paths: seq<string>)
    requires w.commits.Keys <= q.names
    ensures var w' := CreditPaths(q, c, w, paths);
      && w'.commits.Keys <= q.names && w.commits.Keys <= w'.commits.Keys
      && (w.commits.Keys == q.names ==> w'.commits == w.commits && w'.uncertain == w.uncertain)
    decreases |paths|
  {
    if paths != [] { CreditPathsKeeps(q, c, CreditPath(q, c, w, paths[0]), paths[1..]); }
  }

  predicate Names(dir: string, paths: seq<string>, name: string) {
    exists k :: 0 <= k < |paths| && EntryFor(dir, paths[k]) == Some(name)
  }

  /** One record credits its commit to the uncredited entries it lists, as uncertain once past the merge. */
  lemma {:induction false} CreditPathsEffect(q: Query, c: EntryCommit, w: Credits, paths: seq<string>, name: string)
    ensures var w' := CreditPaths(q, c, w, paths);
      && w'.pastMerge == w.pastMerge
      && (name in w'.commits <==> name in w.commits || (name in q.names && Names(q.dir, paths, name)))
      && (name in w'.commits ==> w'.commits[name] == if name in w.commits then w.commits[name] else c)
      && (name in w'.uncertain <==> name in w.uncertain || (w.pastMerge && name in w'.commits && name !in w.commits))
    decreases |paths|
  {
    if paths != [] {
      CreditPathsEffect(q, c, CreditPath(q, c, w, paths[0]), paths[1..], name);
      assert Names(q.dir, paths, name) <==> EntryFor(q.dir, paths[0]) == Some(name) || Names(q.dir, paths[1..], name) by {
        assert forall k :: 0 < k < |paths| ==> paths[k] == paths[1..][k - 1];
        assert forall k :: 0 <= k < |paths[1..]| ==> paths[1..][k] == paths[k + 1];
      }
    }
  }

  /** Once every entry is credited, no later record changes the answer: stopping early loses nothing. */
  lemma {:induction false} CreditRecordsKeeps(q: Query, w: Credits, records: seq<string>)
    requires w.commits.Keys <= q.names
    ensures var w' := CreditRecords(q, w, records);
      && w'.commits.Keys <= q.names
      && (w.commits.Keys == q.names ==> w'.commits == w.commits && w'.uncertain == w.uncertain)
    decreases |records|
  {
    if records != [] {
      var parsed := ParseLogRecord(records[0]);
      if parsed.Some? {
        var (c, paths) := parsed.value;
        CreditPathsKeeps(q, c, if q.firstMerge == Some(c.sha) then w.(pastMerge := true) else w, paths);
      }
      CreditRecordsKeeps(q, CreditRecord(q, w, records[0]), records[1..]);
    }
  }

  // ------------------------------------------------------------------- the stream

  /** The records a chunk closes are credited on top of what was credited before. */
  lemma ChunkCredits(q: Query, read: string, chunk: string)
    ensures var records := Split(Open(read, RS) + chunk, RS);
      && CreditRecords(q, NOTHING, Closed(read + chunk, RS))
         == CreditRecords(q, CreditRecords(q, NOTHING, Closed(read, RS)), NonEmpty(records[..|records| - 1]))
      && Open(read + chunk, RS) == records[|records| - 1]
  {
    ChunkCloses(read, chunk, RS);
    var records := Split(Open(read, RS) + chunk, RS);
    CreditRecordsAppend(q, NOTHING, Closed(read, RS), NonEmpty(records[..|records| - 1]));
  }

  /** The walk: the `data` and `close` callbacks of one `git log` process. */
  class Walk {
    const q: Query
    var commits: map<string, EntryCommit>
    var uncertain: set<string>
    var found: nat
    var pastMerge: bool
    var buffer: string
    var done: bool
    /** Everything the process has written, including what a finished walk no longer reads. */
    ghost var output: string

    function Now(): Credits
      reads this
    {
      Credits(commits, uncertain, pastMerge)
    }

    ghost predicate Valid()
      reads this
    {
      && commits.Keys <= q.names && found == |commits|
      && (done ==> CreditRecords(q, NOTHING, Closed(output, RS)).commits.Keys == q.names && (commits, uncertain) == WalkAnswer(q, output))
      && (!done ==> buffer == Open(output, RS) && Now() == CreditRecords(q, NOTHING, Closed(output, RS)))
    }

    constructor (q: Query)
      ensures Valid() && output == "" && this.q == q && !done
    {
      this.q := q;
      commits, uncertain, found, pastMerge, buffer, done := map[], {}, 0, false, "", false;
      output := "";
    }

    /** `take`: one record. */
    method Take(record: string)
      requires commits.Keys <= q.names && found == |commits|
      modifies this`commits, this`uncertain, this`found, this`pastMerge
      ensures commits.Keys <= q.names && found == |commits|
      ensures Now() == CreditRecord(q, old(Now()), record)
    {
      var parsed := ParseLogRecord(record);
      if parsed.None? { return; }
      var (commit, paths) := parsed.value;
      if Some(commit.sha) == q.firstMerge { pastMerge := true; }
      ghost var start := Now();
      for k := 0 to |paths|
        invariant commits.Keys <= q.names && found == |commits|
        invariant CreditPaths(q, commit, start, paths) == CreditPaths(q, commit, Now(), paths[k..])
      {
        assert paths[k..][0] == paths[k] && paths[k..][1..] == paths[k + 1..];
        var name := EntryFor(q.dir, paths[k]);
        if name.Some? && name.value in q.names && name.value !in commits {
          commits := commits[name.value := commit];
          if pastMerge { uncertain := uncertain + {name.value}; }
          found := found + 1;
        }
      }
    }

    method TakeAll(records: seq<string>)
      requires commits.Keys <= q.names && found == |commits|
      modifies this`commits, this`uncertain, this`found, this`pastMerge
      ensures commits.Keys <= q.names && found == |commits|
      ensures Now() == CreditRecords(q, old(Now()), NonEmpty(records))
    {
      ghost var start := Now();
      for k := 0 to |records|
        invariant commits.Keys <= q.names && found == |commits|
        invariant CreditRecords(q, start, NonEmpty(records)) == CreditRecords(q, Now(), NonEmpty(records[k..]))
      {
        assert records[k..][0] == records[k] && records[k..][1..] == records[k + 1..];
        assert [] + NonEmpty(records[k + 1..]) == NonEmpty(records[k + 1..]);
        if records[k] != [] {
          assert ([records[k]] + NonEmpty(records[k + 1..]))[1..] == NonEmpty(records[k + 1..]);
          Take(records[k]);
        }
      }
    }

    /** The `data` callback; `done` kills the process. */
    method OnData(chunk: string)
      requires Valid()
      modifies this
      ensures Valid() && output == old(output) + chunk
    {
      var before := Now();
      ghost var read := output;
      output := output + chunk;
      if done {
        FinishedStays(q, read, chunk);
        return;
      }
      ChunkCredits(q, read, chunk);
      var records := Split(buffer + chunk, RS);
      buffer := records[|records| - 1];
      TakeAll(records[..|records| - 1]);
      if found == |q.names| {
        SameSize(commits.Keys, q.names);
        FinishedAnswer(q, output);
        done := true;
      }
    }

    /** The `close` callback. */
    method OnClose() returns (answer: (map<string, EntryCommit>, set<string>))
      requires Valid()
      modifies this
      ensures answer == WalkAnswer(q, output) && output == old(output)
      ensures answer.0.Keys <= q.names
    {
      if !done {
        AllPieces(output, RS);
        CreditRecordsAppend(q, NOTHING, Closed(output, RS), NonEmpty([buffer]));
        if buffer != [] {
          assert [buffer][1..] == [];
          Take(buffer);
        }
      }
      done := true;
      answer := (commits, uncertain);
    }
  }

  lemma SameSize(a: set<string>, b: set<string>)
    requires a <= b && |a| == |b|
    ensures a == b
  {
    assert |b - a| == |b| - |a|;
  }

  /** All entries credited by closed records: whatever the process still writes, the answer stands. */
  lemma FinishedAnswer(q: Query, output: string)
    requires CreditRecords(q, NOTHING, Closed(output, RS)).commits.Keys == q.names
    ensures var w := CreditRecords(q, NOTHING, Closed(output, RS)); WalkAnswer(q, output) == (w.commits, w.uncertain)
  {
    AllPieces(output, RS);
    CreditRecordsAppend(q, NOTHING, Closed(output, RS), NonEmpty([Open(output, RS)]));
    CreditRecordsKeeps(q, CreditRecords(q, NOTHING, Closed(output, RS)), NonEmpty([Open(output, RS)]));
  }

  lemma FinishedStays(q: Query, output: string, chunk: string)
    requires CreditRecords(q, NOTHING, Closed(output, RS)).commits.Keys == q.names
    ensures WalkAnswer(q, output + chunk) == WalkAnswer(q, output)
    ensures CreditRecords(q, NOTHING, Closed(output + chunk, RS)).commits.Keys == q.names
  {
    var w := CreditRecords(q, NOTHING, Closed(output, RS));
    ChunkCloses(output, chunk, RS);
    CreditRecordsAppend(q, NOTHING, Closed(output, RS), Closed(Open(output, RS) + chunk, RS));
    CreditRecordsKeeps(q, w, Closed(Open(output, RS) + chunk, RS));
    FinishedAnswer(q, output);
    FinishedAnswer(q, output + chunk);
  }

  /**
   * `walk`: the answer is that of the records of the whole output, however it was cut into chunks and
   * wherever the early stop fell.
   */
  method WalkLog(q: Query, chunks: seq<string>) returns (answer: (map<string, EntryCommit>, set<string>))
    ensures answer == WalkAnswer(q, Concat(chunks))
    ensures answer.0.Keys <= q.names
  {
    if q.names == {} {
      CreditRecordsKeeps(q, NOTHING, NonEmpty(Split(Concat(chunks), RS)));
      return (map[], {});
    }
    var walk := new Walk(q);
    assert chunks[..0] == [];
    for n := 0 to |chunks|
      invariant walk.Valid() && walk.q == q && walk.output == Concat(chunks[..n])
    {
      walk.OnData(chunks[n]);
      assert chunks[..n + 1] == chunks[..n] + [chunks[n]] && [chunks[n]][1..] == [];
      ConcatAppend(chunks[..n], [chunks[n]]);
      assert chunks[n] + [] == chunks[n];
    }
    assert chunks[..|chunks|] == chunks;
    answer := walk.OnClose();
  }
}
