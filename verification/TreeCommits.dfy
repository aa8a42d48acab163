/**
 * The last commit of each entry of a directory listing (apps/api/src/tree-commits.ts `getTreeCommits`):
 * one walk in place of a `git log -1 <sha> -- <entry>` per entry, over a commit graph with git's per-path
 * history simplification.
 */
module TreeCommits {
  import opened Wrappers
  import opened Collections
  import opened Strings
  import opened LogWalk

  /** A commit: its parents (created before it), its files and what the log prints of it. */
  datatype Node = Node(parents: seq<nat>, tree: map<string, int>, info: EntryCommit)

  type History = map<nat, Node>

  predicate Linked(h: History) {
    forall c :: c in h ==> forall k :: 0 <= k < |h[c].parents| ==> h[c].parents[k] in h && h[c].parents[k] < c
  }

  /** Nothing the log prints holds the separators it prints with. */
  predicate Printable(h: History) {
    && (forall c :: c in h ==> WritableCommit(h[c].info) && RS !in h[c].info.date && RS !in h[c].info.subject)
    && (forall c :: c in h ==> forall p :: p in h[c].tree ==> WritablePath(p) && RS !in p)
  }

  predicate DistinctShas(h: History) {
    forall c, c' {:trigger h[c].info, h[c'].info} :: c in h && c' in h && c != c' ==> h[c].info.sha != h[c'].info.sha
  }

  predicate SameFile(a: map<string, int>, b: map<string, int>, p: string) {
    (p in a <==> p in b) && (p in a && p in b ==> a[p] == b[p])
  }

  /** Two commits agree on everything under an entry: they are TREESAME for its pathspec. */
  ghost predicate TreeSame(h: History, c: nat, c': nat, dir: string, name: string)
    requires c in h && c' in h
  {
    forall p: string :: EntryFor(dir, p) == Some(name) ==> SameFile(h[c].tree, h[c'].tree, p)
  }

  ghost predicate HasEntry(h: History, c: nat, dir: string, name: string)
    requires c in h
  {
    exists p: string :: p in h[c].tree && EntryFor(dir, p) == Some(name)
  }

  /** The first parent the commit is TREESAME to; the number of parents when there is none. */
  ghost function SameParent(h: History, c: nat, dir: string, name: string, k: nat): (r: nat)
    requires Linked(h) && c in h && k <= |h[c].parents|
    ensures k <= r <= |h[c].parents|
    ensures r < |h[c].parents| ==> TreeSame(h, c, h[c].parents[r], dir, name)
    ensures forall i :: k <= i < r ==> !TreeSame(h, c, h[c].parents[i], dir, name)
    decreases |h[c].parents| - k
  {
    if k == |h[c].parents| || TreeSame(h, c, h[c].parents[k], dir, name) then k else SameParent(h, c, dir, name, k + 1)
  }

  /**
   * `git log -1 <c> -- <entry>`: a root that has the entry, or a commit that differs there from every
   * parent, is the answer; otherwise follow the first parent it is TREESAME to.
   */
  ghost function LastCommit(h: History, c: nat, dir: string, name: string): Option<nat>
    requires Linked(h) && c in h
    decreases c
  {
    if h[c].parents == [] then (if HasEntry(h, c, dir, name) then Some(c) else None)
    else
      var k := SameParent(h, c, dir, name, 0);
      if k < |h[c].parents| then LastCommit(h, h[c].parents[k], dir, name) else Some(c)
  }

  // ------------------------------------------------------------- the tip's line

  predicate IsMerge(h: History, c: nat) requires c in h { |h[c].parents| > 1 }

  /** The first-parent line from `c` down to its newest merge, or to the root. */
  ghost function Line(h: History, c: nat): (line: seq<nat>)
    requires Linked(h) && c in h
    ensures line != [] && line[0] == c && forall i :: 0 <= i < |line| ==> line[i] in h
    decreases c
  {
    if |h[c].parents| != 1 then [c] else [c] + Line(h, h[c].parents[0])
  }

  /** `git rev-list --merges --first-parent -1`. */
  ghost function FirstMerge(h: History, tip: nat): Option<nat>
    requires Linked(h) && tip in h
  {
    var last := Line(h, tip)[|Line(h, tip)| - 1];
    if IsMerge(h, last) then Some(last) else None
  }

  lemma {:induction false} LineLinks(h: History, tip: nat, i: nat)
    requires Linked(h) && tip in h && i < |Line(h, tip)|
    ensures i + 1 < |Line(h, tip)| ==> h[Line(h, tip)[i]].parents == [Line(h, tip)[i + 1]]
    ensures i + 1 == |Line(h, tip)| ==> |h[Line(h, tip)[i]].parents| != 1
    ensures forall j :: 0 <= j < i ==> Line(h, tip)[i] < Line(h, tip)[j]
    decreases tip
  {
    if |h[tip].parents| == 1 {
      var parent := h[tip].parents[0];
      assert h[tip].parents == [parent];
      assert Line(h, tip)[1..] == Line(h, parent);
      if i > 0 {
        LineLinks(h, parent, i - 1);
        LineBelow(h, parent, i - 1);
        assert forall j :: 1 <= j < i ==> Line(h, tip)[j] == Line(h, parent)[j - 1];
      }
    }
  }

  lemma {:induction false} LineBelow(h: History, tip: nat, i: nat)
    requires Linked(h) && tip in h && i < |Line(h, tip)|
    ensures Line(h, tip)[i] <= tip
    decreases tip
  {
    if i > 0 {
      assert Line(h, tip)[i] == Line(h, h[tip].parents[0])[i - 1];
      LineBelow(h, h[tip].parents[0], i - 1);
    }
  }

  // --------------------------------------------------------------- git's output

  /** One record of the log: a commit and the paths listed for it. */
  datatype Listed = Listed(commit: nat, paths: seq<string>)

  /** A commit with at most one parent changes `p`. */
  predicate Changes(h: History, c: nat, p: string)
    requires Linked(h) && c in h && |h[c].parents| <= 1
  {
    if h[c].parents == [] then p in h[c].tree else !SameFile(h[c].tree, h[h[c].parents[0]].tree, p)
  }

  /** Paths as git prints them: non-empty, without the separators. */
  predicate WritableLog(h: History, log: seq<Listed>) {
    forall i :: 0 <= i < |log| ==> log[i].commit in h && forall k :: 0 <= k < |log[i].paths| ==> WritablePath(log[i].paths[k]) && RS !in log[i].paths[k]
  }

  /**
   * The log of `tip` limited to the entries asked for: along the tip's line it has no choice, so its records
   * are that line's commits, the merge itself without paths; below the merge it may list anything. `hidden`
   * are paths rename detection leaves out of a commit's list, because it names a moved file only by its new path.
   */
  ghost predicate LogOf(h: History, tip: nat, q: Query, hidden: map<nat, set<string>>, log: seq<Listed>)
    requires Linked(h) && tip in h
  {
    LogOrder(h, tip, log) && forall i :: 0 <= i < |log| ==> log[i].commit in h && ListsChanges(h, log[i], q, hidden)
  }

  ghost predicate LogOrder(h: History, tip: nat, log: seq<Listed>)
    requires Linked(h) && tip in h
  {
    var line := Line(h, tip);
    && WritableLog(h, log)
    && (FirstMerge(h, tip).None? ==> |log| <= |line|)
    && (forall i :: 0 <= i < |log| && i < |line| ==> log[i].commit == line[i] && (IsMerge(h, line[i]) ==> log[i].paths == []))
  }

  /** A commit with at most one parent lists what it changes under the entries asked for, but for what is hidden. */
  ghost predicate ListsChanges(h: History, l: Listed, q: Query, hidden: map<nat, set<string>>)
    requires Linked(h) && l.commit in h
  {
    !IsMerge(h, l.commit) ==> forall p: string :: EntryFor(q.dir, p).Some? && EntryFor(q.dir, p).value in q.names ==>
      (p in l.paths <==> Changes(h, l.commit, p) && p !in Hidden(hidden, l.commit))
  }

  function Hidden(hidden: map<nat, set<string>>, c: nat): set<string> { if c in hidden then hidden[c] else {} }

  /** The log as the process writes it. */
  ghost function Written(h: History, log: seq<Listed>): string
    requires forall i :: 0 <= i < |log| ==> log[i].commit in h
  {
    if log == [] then [] else [RS] + LogRecord(h[log[0].commit].info, log[0].paths) + Written(h, log[1..])
  }

  ghost function CreditLog(h: History, q: Query, w: Credits, log: seq<Listed>): Credits
    requires forall i :: 0 <= i < |log| ==> log[i].commit in h
    decreases |log|
  {
    if log == [] then w else CreditLog(h, q, CreditCommit(q, w, h[log[0].commit].info, log[0].paths), log[1..])
  }

  /** Reading what the process writes credits the log's own commits and paths. */
  lemma {:induction false} WrittenIsCredited(h: History, q: Query, w: Credits, log: seq<Listed>)
    requires Printable(h) && WritableLog(h, log)
    ensures CreditRecords(q, w, NonEmpty(Split(Written(h, log), RS))) == CreditLog(h, q, w, log)
    decreases |log|
  {
    if log != [] {
      var c, paths := h[log[0].commit].info, log[0].paths;
      var record, rest := LogRecord(c, paths), Written(h, log[1..]);
      NoSeparatorInPaths(paths);
      assert RS !in record;
      RecordRoundTrip(c, paths);
      SplitRecord(record, rest);
      assert ([record] + NonEmpty(Split(rest, RS)))[1..] == NonEmpty(Split(rest, RS));
      WrittenIsCredited(h, q, CreditCommit(q, w, c, paths), log[1..]);
    }
  }

  /** A record up to the next separator is one piece; the text before the first separator is empty. */
  lemma SplitRecord(record: string, rest: string)
    requires record != [] && RS !in record && (rest == [] || rest[0] == RS)
    ensures NonEmpty(Split([RS] + record + rest, RS)) == [record] + NonEmpty(Split(rest, RS))
  {
    var pieces := Split(rest, RS);
    assert [RS] + record + rest == [RS] + (record + rest) && ([RS] + (record + rest))[1..] == record + rest;
    assert pieces == [[]] + pieces[1..];
    SplitNoSep(record, RS);
    SplitAppend(record, rest, RS);
    GlueAtSeparator([record], pieces[1..]);
    NonEmptyOfPieces(record, pieces[1..]);
  }

  lemma NonEmptyOfPieces(record: string, more: seq<string>)
    requires record != []
    ensures NonEmpty([[]] + ([record] + more)) == [record] + NonEmpty([[]] + more)
  {
    assert ([[]] + ([record] + more))[1..] == [record] + more;
    assert ([record] + more)[1..] == more && ([[]] + more)[1..] == more;
    assert [] + NonEmpty(more) == NonEmpty(more);
    assert [] + NonEmpty([record] + more) == NonEmpty([record] + more);
  }

  // ------------------------------------------------------ what the walk credits

  /** Record `j` lists a path of the entry. */
  ghost predicate Lists(q: Query, log: seq<Listed>, j: int, name: string) {
    0 <= j < |log| && exists k :: 0 <= k < |log[j].paths| && EntryFor(q.dir, log[j].paths[k]) == Some(name)
  }

  ghost predicate ListsFirst(q: Query, log: seq<Listed>, j: int, name: string) {
    Lists(q, log, j, name) && forall i :: 0 <= i < j ==> !Lists(q, log, i, name)
  }

  lemma {:induction false} CreditLogAppend(h: History, q: Query, w: Credits, a: seq<Listed>, b: seq<Listed>)
    requires forall i :: 0 <= i < |a| ==> a[i].commit in h
    requires forall i :: 0 <= i < |b| ==> b[i].commit in h
    ensures CreditLog(h, q, w, a + b) == CreditLog(h, q, CreditLog(h, q, w, a), b)
    decreases |a|
  {
    if a == [] {
      assert a + b == b;
    } else {
      assert (a + b)[1..] == a[1..] + b;
      CreditLogAppend(h, q, CreditCommit(q, w, h[a[0].commit].info, a[0].paths), a[1..], b);
    }
  }

  /** Past the merge nothing credited changes and everything new is uncertain. */
  lemma {:induction false} CreditsPastMerge(h: History, q: Query, w: Credits, log: seq<Listed>, name: string)
    requires forall i :: 0 <= i < |log| ==> log[i].commit in h
    requires w.pastMerge
    ensures var w' := CreditLog(h, q, w, log);
      && (name in w.commits ==> name in w'.commits && w'.commits[name] == w.commits[name] && (name in w'.uncertain <==> name in w.uncertain))
      && (name in w'.commits && name !in w.commits ==> name in w'.uncertain)
    decreases |log|
  {
    if log != [] {
      var c, paths := h[log[0].commit].info, log[0].paths;
      CreditPathsEffect(q, c, w, paths, name);
      CreditsPastMerge(h, q, CreditCommit(q, w, c, paths), log[1..], name);
    }
  }

  /** `w` credits the entry for certain exactly when one of the first `i` records lists it, and then to the first that does. */
  ghost predicate CreditedFirst(h: History, q: Query, w: Credits, log: seq<Listed>, i: nat, name: string)
    requires i <= |log| && forall j :: 0 <= j < |log| ==> log[j].commit in h
  {
    && !w.pastMerge && name !in w.uncertain
    && (name in w.commits <==> name in q.names && exists j :: 0 <= j < i && Lists(q, log, j, name))
    && (forall j :: 0 <= j < i && name in w.commits && ListsFirst(q, log, j, name) ==> w.commits[name] == h[log[j].commit].info)
  }

  lemma CreditedNext(h: History, q: Query, w: Credits, log: seq<Listed>, i: nat, name: string)
    requires i < |log| && forall j :: 0 <= j < |log| ==> log[j].commit in h
    requires q.firstMerge != Some(h[log[i].commit].info.sha) && CreditedFirst(h, q, w, log, i, name)
    ensures CreditedFirst(h, q, CreditCommit(q, w, h[log[i].commit].info, log[i].paths), log, i + 1, name)
  {
    CreditPathsEffect(q, h[log[i].commit].info, w, log[i].paths, name);
    assert Names(q.dir, log[i].paths, name) <==> Lists(q, log, i, name);
  }

  /** Along the tip's line, above its merge: the first listing commit is credited, for certain. */
  lemma {:induction false} CreditsOnLine(h: History, q: Query, log: seq<Listed>, i: nat, name: string)
    requires i <= |log| && forall j :: 0 <= j < |log| ==> log[j].commit in h
    requires forall j :: 0 <= j < i ==> q.firstMerge != Some(h[log[j].commit].info.sha)
    ensures CreditedFirst(h, q, CreditLog(h, q, NOTHING, log[..i]), log, i, name)
  {
    if i > 0 {
      CreditsOnLine(h, q, log, i - 1, name);
      var w := CreditLog(h, q, NOTHING, log[..i - 1]);
      assert log[..i] == log[..i - 1] + [log[i - 1]] && [log[i - 1]][1..] == [];
      CreditLogAppend(h, q, NOTHING, log[..i - 1], [log[i - 1]]);
      CreditedNext(h, q, w, log, i - 1, name);
    }
  }

  /** How many records of the log lie above the first merge. */
  ghost function Above(h: History, tip: nat, log: seq<Listed>): (n: nat)
    requires Linked(h) && tip in h
    ensures n <= |log|
  {
    var line := Line(h, tip);
    var m := if FirstMerge(h, tip).Some? then |line| - 1 else |line|;
    if m <= |log| then m else |log|
  }

  lemma {:induction false} FirstListing(q: Query, log: seq<Listed>, n: nat, name: string) returns (j: nat)
    requires n <= |log| && exists i :: 0 <= i < n && Lists(q, log, i, name)
    ensures j < n && ListsFirst(q, log, j, name)
  {
    j := 0;
    while !Lists(q, log, j, name)
      invariant j < n && forall i :: 0 <= i < j ==> !Lists(q, log, i, name)
      invariant exists i :: j <= i < n && Lists(q, log, i, name)
      decreases n - j
    {
      j := j + 1;
    }
  }

  ghost predicate Asks(h: History, tip: nat, q: Query)
    requires Linked(h) && tip in h
  {
    q.firstMerge == if FirstMerge(h, tip).Some? then Some(h[FirstMerge(h, tip).value].info.sha) else None
  }

  /** The log starts with the tip's line, and only the record of the merge ends it. */
  lemma LogStartsWithLine(h: History, tip: nat, q: Query, log: seq<Listed>)
    requires Linked(h) && DistinctShas(h) && tip in h && LogOrder(h, tip, log) && Asks(h, tip, q)
    ensures forall i :: 0 <= i < |log| ==> log[i].commit in h
    ensures var n := Above(h, tip, log);
      && n <= |Line(h, tip)|
      && (forall i :: 0 <= i < n ==> log[i].commit == Line(h, tip)[i] && q.firstMerge != Some(h[log[i].commit].info.sha))
      && (n < |log| ==> log[n].paths == [] && q.firstMerge == Some(h[log[n].commit].info.sha))
  {
    var n := Above(h, tip, log);
    forall i | 0 <= i < n ensures log[i].commit == Line(h, tip)[i] && q.firstMerge != Some(h[log[i].commit].info.sha) {
      RecordOnLine(h, tip, q, log, i);
    }
    if n < |log| { RecordOfMerge(h, tip, q, log); }
  }

  lemma RecordOnLine(h: History, tip: nat, q: Query, log: seq<Listed>, i: nat)
    requires Linked(h) && DistinctShas(h) && tip in h && LogOrder(h, tip, log) && Asks(h, tip, q) && i < Above(h, tip, log)
    ensures log[i].commit == Line(h, tip)[i] && log[i].commit in h && q.firstMerge != Some(h[log[i].commit].info.sha)
  {
    if FirstMerge(h, tip).Some? { LineShas(h, tip, i, |Line(h, tip)| - 1); }
  }

  lemma RecordOfMerge(h: History, tip: nat, q: Query, log: seq<Listed>)
    requires Linked(h) && tip in h && LogOrder(h, tip, log) && Asks(h, tip, q) && Above(h, tip, log) < |log|
    ensures var n := Above(h, tip, log);
            log[n].commit in h && log[n].paths == [] && q.firstMerge == Some(h[log[n].commit].info.sha)
  {
    var line := Line(h, tip);
    assert FirstMerge(h, tip) == Some(line[|line| - 1]);
  }

  lemma LineShas(h: History, tip: nat, i: nat, j: nat)
    requires Linked(h) && DistinctShas(h) && tip in h && i < j < |Line(h, tip)|
    ensures h[Line(h, tip)[j]].info.sha != h[Line(h, tip)[i]].info.sha
  {
    LineLinks(h, tip, j);
    var c, c' := Line(h, tip)[i], Line(h, tip)[j];
    assert h[c].info.sha != h[c'].info.sha;
  }

  /** The merge's own record credits nothing and makes everything after it uncertain. */
  lemma CreditsFromMerge(h: History, q: Query, w: Credits, log: seq<Listed>, name: string)
    requires forall i :: 0 <= i < |log| ==> log[i].commit in h
    requires log != [] ==> log[0].paths == [] && q.firstMerge == Some(h[log[0].commit].info.sha)
    requires name in CreditLog(h, q, w, log).commits && name !in CreditLog(h, q, w, log).uncertain
    ensures name in w.commits && CreditLog(h, q, w, log).commits[name] == w.commits[name]
  {
    if log != [] {
      assert CreditCommit(q, w, h[log[0].commit].info, []) == w.(pastMerge := true);
      CreditsPastMerge(h, q, w.(pastMerge := true), log[1..], name);
    }
  }

  /** Credited without doubt means credited by the first of the records above the merge that list the entry. */
  lemma CertainAmong(h: History, q: Query, log: seq<Listed>, n: nat, name: string) returns (j: nat)
    requires n <= |log| && forall i :: 0 <= i < |log| ==> log[i].commit in h
    requires forall i :: 0 <= i < n ==> q.firstMerge != Some(h[log[i].commit].info.sha)
    requires n < |log| ==> log[n].paths == [] && q.firstMerge == Some(h[log[n].commit].info.sha)
    requires name in CreditLog(h, q, NOTHING, log).commits && name !in CreditLog(h, q, NOTHING, log).uncertain
    ensures j < n && ListsFirst(q, log, j, name) && name in q.names
    ensures CreditLog(h, q, NOTHING, log).commits[name] == h[log[j].commit].info
  {
    CreditsOnLine(h, q, log, n, name);
    assert log == log[..n] + log[n..];
    CreditLogAppend(h, q, NOTHING, log[..n], log[n..]);
    assert n < |log| ==> log[n..][0] == log[n];
    CreditsFromMerge(h, q, CreditLog(h, q, NOTHING, log[..n]), log[n..], name);
    j := FirstListing(q, log, n, name);
  }

  lemma CertainCredit(h: History, tip: nat, q: Query, log: seq<Listed>, name: string) returns (j: nat)
    requires Linked(h) && DistinctShas(h) && tip in h && LogOrder(h, tip, log) && Asks(h, tip, q)
    requires name in CreditLog(h, q, NOTHING, log).commits && name !in CreditLog(h, q, NOTHING, log).uncertain
    ensures j < Above(h, tip, log) && ListsFirst(q, log, j, name) && name in q.names
    ensures CreditLog(h, q, NOTHING, log).commits[name] == h[log[j].commit].info
  {
    LogStartsWithLine(h, tip, q, log);
    j := CertainAmong(h, q, log, Above(h, tip, log), name);
  }

  // --------------------------------------------------------------- exactness

  /** The commit differs under the entry from its parent, or is a root that has it. */
  ghost predicate Touches(h: History, c: nat, dir: string, name: string)
    requires Linked(h) && c in h && |h[c].parents| <= 1
  {
    if h[c].parents == [] then HasEntry(h, c, dir, name) else !TreeSame(h, c, h[c].parents[0], dir, name)
  }

  lemma TouchesMeansChanges(h: History, c: nat, dir: string, name: string)
    requires Linked(h) && c in h && |h[c].parents| <= 1
    ensures Touches(h, c, dir, name) <==> exists p: string :: EntryFor(dir, p) == Some(name) && Changes(h, c, p)
  {
  }

  /** Down a line of untouched commits the reference answer does not change. */
  lemma {:induction false} LastCommitOnLine(h: History, tip: nat, j: nat, dir: string, name: string)
    requires Linked(h) && tip in h && j < |Line(h, tip)|
    requires forall i :: 0 <= i < j ==> |h[Line(h, tip)[i]].parents| <= 1 && !Touches(h, Line(h, tip)[i], dir, name)
    ensures LastCommit(h, tip, dir, name) == LastCommit(h, Line(h, tip)[j], dir, name)
    decreases j
  {
    if j > 0 {
      LastCommitOnLine(h, tip, j - 1, dir, name);
      LineLinks(h, tip, j - 1);
      var c := Line(h, tip)[j - 1];
      assert h[c].parents == [Line(h, tip)[j]];
      assert SameParent(h, c, dir, name, 0) == 0;
    }
  }

  lemma LastCommitOfTouching(h: History, c: nat, dir: string, name: string)
    requires Linked(h) && c in h && |h[c].parents| <= 1 && Touches(h, c, dir, name)
    ensures LastCommit(h, c, dir, name) == Some(c)
  {
  }

  /** A commit above the `j`th of the tip's line touches the entry. */
  ghost predicate TouchedAbove(h: History, tip: nat, j: nat, dir: string, name: string)
    requires Linked(h) && tip in h && j <= |Line(h, tip)|
  {
    exists i :: 0 <= i < j && |h[Line(h, tip)[i]].parents| <= 1 && Touches(h, Line(h, tip)[i], dir, name)
  }

  /** On a line of commits, the reference answer is the first that touches the entry. */
  lemma ExactOnLine(h: History, tip: nat, j: nat, dir: string, name: string)
    requires Linked(h) && tip in h && j < |Line(h, tip)|
    requires forall i :: 0 <= i <= j ==> |h[Line(h, tip)[i]].parents| <= 1
    requires Touches(h, Line(h, tip)[j], dir, name)
    ensures LastCommit(h, tip, dir, name) == Some(Line(h, tip)[j]) <==> !TouchedAbove(h, tip, j, dir, name)
  {
    var line := Line(h, tip);
    var first := FirstTouch(h, tip, j, dir, name);
    LastCommitOnLine(h, tip, first, dir, name);
    LastCommitOfTouching(h, line[first], dir, name);
    if first < j {
      LineLinks(h, tip, j);
      assert line[j] < line[first];
    }
  }

  lemma {:induction false} FirstTouch(h: History, tip: nat, j: nat, dir: string, name: string) returns (i: nat)
    requires Linked(h) && tip in h && j <= |Line(h, tip)|
    requires forall k :: 0 <= k < j ==> |h[Line(h, tip)[k]].parents| <= 1
    ensures i <= j && (i < j ==> Touches(h, Line(h, tip)[i], dir, name))
    ensures forall k :: 0 <= k < i ==> !Touches(h, Line(h, tip)[k], dir, name)
  {
    if j == 0 { return 0; }
    i := FirstTouch(h, tip, j - 1, dir, name);
    if i == j - 1 && !Touches(h, Line(h, tip)[i], dir, name) { i := j; }
  }

  /** The reference answer as the log prints it. */
  ghost function Reference(h: History, tip: nat, dir: string, name: string): Option<EntryCommit>
    requires Linked(h) && tip in h
  {
    var c := LastCommit(h, tip, dir, name);
    if c.Some? && c.value in h then Some(h[c.value].info) else None
  }

  // -------------------------------------------------------- what must be listed

  /** The `i`th commit of the tip's line touches the entry. */
  ghost predicate TouchesAt(h: History, tip: nat, i: int, dir: string, name: string)
    requires Linked(h) && tip in h
  {
    0 <= i < |Line(h, tip)| && |h[Line(h, tip)[i]].parents| <= 1 && Touches(h, Line(h, tip)[i], dir, name)
  }

  /** The newest commit of the tip's line that touches the entry. */
  ghost predicate FirstTouching(h: History, tip: nat, i: int, dir: string, name: string)
    requires Linked(h) && tip in h
  {
    TouchesAt(h, tip, i, dir, name) && forall k :: 0 <= k < i ==> !TouchesAt(h, tip, k, dir, name)
  }

  /** Some change the commit makes under the entry is not hidden. */
  ghost predicate Shows(h: History, hidden: map<nat, set<string>>, c: nat, dir: string, name: string)
    requires Linked(h) && c in h && |h[c].parents| <= 1
  {
    exists p: string :: EntryFor(dir, p) == Some(name) && Changes(h, c, p) && p !in Hidden(hidden, c)
  }

  /** The newest commit of the tip's line that touches the entry shows a change under it. */
  ghost predicate NewestTouchShows(h: History, tip: nat, hidden: map<nat, set<string>>, dir: string, name: string)
    requires Linked(h) && tip in h
  {
    forall i: int :: FirstTouching(h, tip, i, dir, name) ==> Shows(h, hidden, Line(h, tip)[i], dir, name)
  }

  /** A commit's record lists a path of an entry asked for exactly when the commit shows a change under it. */
  lemma ListsMeansShows(h: History, q: Query, hidden: map<nat, set<string>>, log: seq<Listed>, j: nat, name: string)
    requires Linked(h) && j < |log| && log[j].commit in h && |h[log[j].commit].parents| <= 1
    requires ListsChanges(h, log[j], q, hidden) && name in q.names
    ensures Lists(q, log, j, name) <==> Shows(h, hidden, log[j].commit, q.dir, name)
  {
    var c := log[j].commit;
    if Lists(q, log, j, name) {
      var k :| 0 <= k < |log[j].paths| && EntryFor(q.dir, log[j].paths[k]) == Some(name);
      assert log[j].paths[k] in log[j].paths;
    }
    if p: string :| EntryFor(q.dir, p) == Some(name) && Changes(h, c, p) && p !in Hidden(hidden, c) {
      var k :| 0 <= k < |log[j].paths| && log[j].paths[k] == p;
    }
  }

  /** The newest touching commit at or above a touching one, which is the reference answer. */
  lemma NewestTouch(h: History, tip: nat, j: nat, dir: string, name: string) returns (i: nat)
    requires Linked(h) && tip in h && j < |Line(h, tip)| && TouchesAt(h, tip, j, dir, name)
    requires forall k :: 0 <= k <= j ==> |h[Line(h, tip)[k]].parents| <= 1
    ensures i <= j && FirstTouching(h, tip, i, dir, name)
    ensures forall k: int :: FirstTouching(h, tip, k, dir, name) ==> k == i
    ensures LastCommit(h, tip, dir, name) == Some(Line(h, tip)[i])
  {
    i := FirstTouch(h, tip, j, dir, name);
    LastCommitOnLine(h, tip, i, dir, name);
    LastCommitOfTouching(h, Line(h, tip)[i], dir, name);
    assert TouchesAt(h, tip, i, dir, name);
  }

  /** The commit of a certain credit lies on the tip's line and lists the entry, and no record above it does. */
  lemma CertainOnLine(h: History, tip: nat, q: Query, hidden: map<nat, set<string>>, log: seq<Listed>, name: string) returns (j: nat)
    requires Linked(h) && DistinctShas(h) && tip in h && LogOrder(h, tip, log) && LogOf(h, tip, q, hidden, log) && Asks(h, tip, q)
    requires name in CreditLog(h, q, NOTHING, log).commits && name !in CreditLog(h, q, NOTHING, log).uncertain
    ensures j < |Line(h, tip)| && CreditLog(h, q, NOTHING, log).commits[name] == h[Line(h, tip)[j]].info
    ensures forall i :: 0 <= i <= j ==> |h[Line(h, tip)[i]].parents| <= 1
    ensures forall i :: 0 <= i <= j ==> (Shows(h, hidden, Line(h, tip)[i], q.dir, name) <==> i == j)
  {
    j := CertainCredit(h, tip, q, log, name);
    LogStartsWithLine(h, tip, q, log);
    forall i | 0 <= i <= j
      ensures log[i].commit == Line(h, tip)[i] && |h[log[i].commit].parents| <= 1
      ensures Lists(q, log, i, name) <==> Shows(h, hidden, log[i].commit, q.dir, name)
    {
      LineLinks(h, tip, i);
      ListsMeansShows(h, q, hidden, log, i, name);
    }
  }

  /**
   * An entry credited above the merge has the commit of `git log -1 <tip> -- <entry>` exactly when the newest
   * commit of the tip's line that touches it shows a change there; so always, when nothing is hidden.
   */
  lemma CreditedAboveMergeIsExact(h: History, tip: nat, q: Query, hidden: map<nat, set<string>>, log: seq<Listed>, name: string)
    returns (j: nat)
    requires Linked(h) && DistinctShas(h) && tip in h && LogOrder(h, tip, log) && LogOf(h, tip, q, hidden, log) && Asks(h, tip, q)
    requires name in CreditLog(h, q, NOTHING, log).commits && name !in CreditLog(h, q, NOTHING, log).uncertain
    ensures j < |Line(h, tip)| && CreditLog(h, q, NOTHING, log).commits[name] == h[Line(h, tip)[j]].info
    ensures Some(CreditLog(h, q, NOTHING, log).commits[name]) == Reference(h, tip, q.dir, name)
            <==> NewestTouchShows(h, tip, hidden, q.dir, name)
    ensures Reference(h, tip, q.dir, name).Some?
    ensures (forall c :: Hidden(hidden, c) == {}) ==> LastCommit(h, tip, q.dir, name) == Some(Line(h, tip)[j])
  {
    var line := Line(h, tip);
    j := CertainOnLine(h, tip, q, hidden, log, name);
    TouchesMeansChanges(h, line[j], q.dir, name);
    var i := NewestTouch(h, tip, j, q.dir, name);
    if i < j { LineLinks(h, tip, j); }
    assert i < j ==> h[line[i]].info.sha != h[line[j]].info.sha;
    if forall c :: Hidden(hidden, c) == {} { TouchesMeansChanges(h, line[i], q.dir, name); }
  }

  // -------------------------------------------------------- the whole listing

  function Corrected(commits: map<string, EntryCommit>, exact: string -> Option<EntryCommit>, items: set<string>): map<string, EntryCommit> {
    (commits - items) + map name | name in items && exact(name).Some? :: exact(name).value
  }

  /** One re-asked entry: replaced by its exact commit, or deleted when there is none. */
  function Settle(commits: map<string, EntryCommit>, exact: string -> Option<EntryCommit>, name: string): map<string, EntryCommit> {
    if exact(name).Some? then commits[name := exact(name).value] else commits - {name}
  }

  lemma SettleOne(commits: map<string, EntryCommit>, exact: string -> Option<EntryCommit>, items: set<string>, name: string)
    ensures Settle(Corrected(commits, exact, items), exact, name) == Corrected(commits, exact, items + {name})
  {
  }

  /** Question `i` has been answered: its lane has gone on. */
  predicate Answered(i: nat, next: nat, open: set<nat>) { i < next && i !in open }

  /** The questions before `next` have been asked, those not open have been answered, and their entries are settled. */
  ghost predicate Tracks(items: seq<string>, next: nat, open: set<nat>, settled: set<string>) {
    && next <= |items| && (forall i :: i in open ==> i < next)
    && (forall i :: 0 <= i < |items| ==> (items[i] in settled <==> Answered(i, next, open)))
    && (forall n :: n in settled ==> n in items)
  }

  lemma AskNext(items: seq<string>, next: nat, open: set<nat>, settled: set<string>)
    requires Tracks(items, next, open, settled) && next < |items|
    ensures Tracks(items, next + 1, open + {next}, settled)
  {
    forall i | 0 <= i < |items| ensures items[i] in settled <==> Answered(i, next + 1, open + {next}) {
      assert items[i] in settled <==> Answered(i, next, open);
    }
  }

  lemma AnswerOne(items: seq<string>, next: nat, open: set<nat>, settled: set<string>, i: nat)
    requires Tracks(items, next, open, settled) && i in open && Distinct(items)
    ensures Tracks(items, next, open - {i}, settled + {items[i]})
  {
    forall k | 0 <= k < |items| ensures items[k] in settled + {items[i]} <==> Answered(k, next, open - {i}) {
      assert items[k] in settled <==> Answered(k, next, open);
    }
  }

  lemma AllSettled(items: seq<string>, settled: set<string>)
    requires Tracks(items, |items|, {}, settled)
    ensures settled == set n | n in items
  {
    assert forall i :: 0 <= i < |items| ==> Answered(i, |items|, {});
  }

  /**
   * `inBatches` over the uncertain entries: at most `limit` questions are open at any time, they are answered
   * in any order, and each one replaces or deletes its own entry.
   */
  method InBatches(commits: map<string, EntryCommit>, items: seq<string>, limit: nat, exact: string -> Option<EntryCommit>)
    returns (r: map<string, EntryCommit>)
    requires limit > 0
    requires Distinct(items)
    ensures r == Corrected(commits, exact, set n | n in items)
  {
    r := commits;
    var next := 0;
    var open: set<nat> := {};
    ghost var settled: set<string> := {};
    assert r == Corrected(commits, exact, settled);
    while next < |items| || open != {}
      invariant 0 <= next <= |items| && |open| <= limit && Tracks(items, next, open, settled)
      invariant r == Corrected(commits, exact, settled)
      decreases |items| - next, |open|
    {
      var ask: bool := *;
      if next < |items| && |open| < limit && (ask || open == {}) {
        AskNext(items, next, open, settled);
        open := open + {next};
        next := next + 1;
      } else {
        var i :| i in open;
        r := Settle(r, exact, items[i]);
        SettleOne(commits, exact, settled, items[i]);
        AnswerOne(items, next, open, settled, i);
        settled := settled + {items[i]};
        open := open - {i};
      }
    }
    AllSettled(items, settled);
  }

  const VERIFY_CONCURRENCY: nat := 8

  lemma AsksSomething()
    ensures VERIFY_CONCURRENCY > 0
  {
  }

  /** The entry is credited with the commit `git log -1` names. */
  ghost predicate CreditsReference(h: History, tip: nat, q: Query, commits: map<string, EntryCommit>, name: string)
    requires Linked(h) && tip in h
  {
    name in commits && Some(commits[name]) == Reference(h, tip, q.dir, name)
  }

  /** Some record of the log lists a path of the entry. */
  ghost predicate ListedIn(q: Query, log: seq<Listed>, name: string) { exists i :: Lists(q, log, i, name) }

  /** The entry is asked for again: some record lists it, but none above the newest merge of the tip's line. */
  ghost predicate AskedAgain(h: History, tip: nat, q: Query, log: seq<Listed>, name: string)
    requires Linked(h) && tip in h
  {
    name in q.names && ListedIn(q, log, name) && forall i :: 0 <= i < Above(h, tip, log) ==> !Lists(q, log, i, name)
  }

  /** The log goes down the whole line of a history without merges, and hides nothing. */
  ghost predicate WholeLine(h: History, tip: nat, hidden: map<nat, set<string>>, log: seq<Listed>)
    requires Linked(h) && tip in h
  {
    FirstMerge(h, tip).None? && |log| == |Line(h, tip)| && forall c :: Hidden(hidden, c) == {}
  }

  /** Every entry asked for that a record lists is credited, and no other. */
  lemma {:induction false} CreditedMeansListed(h: History, q: Query, w: Credits, log: seq<Listed>, name: string)
    requires forall i :: 0 <= i < |log| ==> log[i].commit in h
    ensures name in CreditLog(h, q, w, log).commits <==> name in w.commits || (name in q.names && ListedIn(q, log, name))
    decreases |log|
  {
    if log != [] {
      var c, paths := h[log[0].commit].info, log[0].paths;
      CreditPathsEffect(q, c, if q.firstMerge == Some(c.sha) then w.(pastMerge := true) else w, paths, name);
      CreditedMeansListed(h, q, CreditCommit(q, w, c, paths), log[1..], name);
      assert Names(q.dir, paths, name) <==> Lists(q, log, 0, name);
      forall i | 0 < i < |log| ensures Lists(q, log, i, name) <==> Lists(q, log[1..], i - 1, name) { assert log[i] == log[1..][i - 1]; }
      if i :| Lists(q, log[1..], i, name) { assert Lists(q, log, i + 1, name); }
      if i :| Lists(q, log, i, name) && i > 0 { assert Lists(q, log[1..], i - 1, name); }
    }
  }

  /** What the walk holds uncertain is what only records from the merge on list. */
  lemma UncertainMeansAskedAgain(h: History, tip: nat, q: Query, log: seq<Listed>, name: string)
    requires Linked(h) && DistinctShas(h) && tip in h && LogOrder(h, tip, log) && Asks(h, tip, q)
    requires forall i :: 0 <= i < |log| ==> log[i].commit in h
    ensures name in CreditLog(h, q, NOTHING, log).uncertain <==> AskedAgain(h, tip, q, log, name)
  {
    LogStartsWithLine(h, tip, q, log);
    CreditsOnLine(h, q, log, Above(h, tip, log), name);
    CreditedMeansListed(h, q, NOTHING, log, name);
    UncertainAreCredited(h, q, NOTHING, log);
    UncertainFrom(h, q, log, Above(h, tip, log), name);
  }

  /** From the merge on, every new credit is uncertain; what was credited above it is not. */
  lemma UncertainFrom(h: History, q: Query, log: seq<Listed>, n: nat, name: string)
    requires n <= |log| && forall i :: 0 <= i < |log| ==> log[i].commit in h
    requires n < |log| ==> log[n].paths == [] && q.firstMerge == Some(h[log[n].commit].info.sha)
    requires name !in CreditLog(h, q, NOTHING, log[..n]).uncertain
    ensures var w, w' := CreditLog(h, q, NOTHING, log[..n]), CreditLog(h, q, NOTHING, log);
      && (name in w.commits ==> name in w'.commits && name !in w'.uncertain)
      && (name in w'.commits && name !in w.commits ==> name in w'.uncertain)
  {
    var w := CreditLog(h, q, NOTHING, log[..n]);
    assert log == log[..n] + log[n..];
    CreditLogAppend(h, q, NOTHING, log[..n], log[n..]);
    if n < |log| {
      assert log[n..][0] == log[n];
      assert CreditCommit(q, w, h[log[n].commit].info, []) == w.(pastMerge := true);
      CreditsPastMerge(h, q, w.(pastMerge := true), log[n..][1..], name);
    } else {
      assert log[n..] == [];
    }
  }

  lemma ParentHasEntry(h: History, c: nat, dir: string, name: string)
    requires Linked(h) && c in h && |h[c].parents| == 1 && !Touches(h, c, dir, name) && HasEntry(h, c, dir, name)
    ensures HasEntry(h, h[c].parents[0], dir, name)
  {
    var p: string :| p in h[c].tree && EntryFor(dir, p) == Some(name);
    assert SameFile(h[c].tree, h[h[c].parents[0]].tree, p);
  }

  /** An entry that is at the tip was touched somewhere on the line below it, where nothing merges. */
  lemma {:induction false} PresentIsTouched(h: History, tip: nat, dir: string, name: string) returns (i: nat)
    requires Linked(h) && tip in h && FirstMerge(h, tip).None? && HasEntry(h, tip, dir, name)
    ensures TouchesAt(h, tip, i, dir, name)
    decreases tip
  {
    LineLinks(h, tip, |Line(h, tip)| - 1);
    if h[tip].parents == [] || Touches(h, tip, dir, name) { return 0; }
    var parent := h[tip].parents[0];
    ParentHasEntry(h, tip, dir, name);
    assert Line(h, tip)[1..] == Line(h, parent);
    var k := PresentIsTouched(h, parent, dir, name);
    assert Line(h, tip)[k + 1] == Line(h, parent)[k];
    i := k + 1;
  }

  lemma NoMergeOnLine(h: History, tip: nat, i: nat)
    requires Linked(h) && tip in h && FirstMerge(h, tip).None? && i < |Line(h, tip)|
    ensures |h[Line(h, tip)[i]].parents| <= 1
  {
    LineLinks(h, tip, i);
  }

  /** Down a whole line with nothing hidden, every entry of the tip is listed and has a reference commit. */
  lemma PresentIsListed(h: History, tip: nat, q: Query, hidden: map<nat, set<string>>, log: seq<Listed>, name: string)
    requires Linked(h) && tip in h && LogOrder(h, tip, log) && LogOf(h, tip, q, hidden, log)
    requires WholeLine(h, tip, hidden, log) && name in q.names && HasEntry(h, tip, q.dir, name)
    ensures ListedIn(q, log, name) && Reference(h, tip, q.dir, name).Some?
  {
    var i := PresentIsTouched(h, tip, q.dir, name);
    forall k | 0 <= k <= i ensures |h[Line(h, tip)[k]].parents| <= 1 { NoMergeOnLine(h, tip, k); }
    TouchesMeansChanges(h, Line(h, tip)[i], q.dir, name);
    assert log[i].commit == Line(h, tip)[i];
    ListsMeansShows(h, q, hidden, log, i, name);
    assert Lists(q, log, i, name);
    var first := NewestTouch(h, tip, i, q.dir, name);
  }

  /** Which entries come out with a commit. */
  lemma WhoIsCredited(h: History, tip: nat, q: Query, hidden: map<nat, set<string>>, log: seq<Listed>, exact: string -> Option<EntryCommit>,
                      name: string)
    requires Linked(h) && DistinctShas(h) && tip in h && Asks(h, tip, q) && LogOrder(h, tip, log) && LogOf(h, tip, q, hidden, log)
    requires exact(name) == Reference(h, tip, q.dir, name)
    ensures var w := CreditLog(h, q, NOTHING, log);
      name in Corrected(w.commits, exact, w.uncertain)
      <==> name in q.names && ListedIn(q, log, name) && Reference(h, tip, q.dir, name).Some?
  {
    var w := CreditLog(h, q, NOTHING, log);
    CreditedMeansListed(h, q, NOTHING, log, name);
    UncertainAreCredited(h, q, NOTHING, log);
    if name in w.commits && name !in w.uncertain {
      var j := CreditedAboveMergeIsExact(h, tip, q, hidden, log, name);
    }
  }

  /**
   * `getTreeCommits` on a resolved tip: the chunks are those of the tip's log with whatever rename detection
   * hides, `exact` is `lastCommitFor`, and `order` the set's own order. The entries that get a commit are those some
   * record lists and `git log -1` has an answer for, so all entries of the tip along a whole line. An entry that gets a
   * commit gets the reference commit exactly when it was asked for again or its newest touch shows, and the listing is
   * complete exactly when every entry has a commit.
   */
  method GetTreeCommits(ghost h: History, ghost tip: nat, q: Query, ghost hidden: map<nat, set<string>>, ghost log: seq<Listed>,
                        chunks: seq<string>, exact: string -> Option<EntryCommit>, order: set<string> -> seq<string>)
    returns (commits: map<string, EntryCommit>, complete: bool)
    requires Linked(h) && DistinctShas(h) && Printable(h) && tip in h && Asks(h, tip, q)
    requires LogOrder(h, tip, log) && LogOf(h, tip, q, hidden, log) && Concat(chunks) == Written(h, log)
    requires forall name :: exact(name) == Reference(h, tip, q.dir, name)
    requires forall s: set<string> :: IsOrderOf(order(s), s)
    ensures commits.Keys <= q.names && (complete <==> commits.Keys == q.names)
    ensures forall name :: name in commits <==> name in q.names && ListedIn(q, log, name) && Reference(h, tip, q.dir, name).Some?
    ensures WholeLine(h, tip, hidden, log) ==> forall name :: name in q.names && HasEntry(h, tip, q.dir, name) ==> name in commits
    ensures WholeLine(h, tip, hidden, log) && (forall name :: name in q.names ==> HasEntry(h, tip, q.dir, name)) ==> complete
    ensures forall name :: name in commits ==>
      (CreditsReference(h, tip, q, commits, name) <==> AskedAgain(h, tip, q, log, name) || NewestTouchShows(h, tip, hidden, q.dir, name))
    ensures (forall c :: Hidden(hidden, c) == {}) ==> forall name :: name in commits ==> CreditsReference(h, tip, q, commits, name)
  {
    hide *;
    var answer := WalkLog(q, chunks);
    WalkedIsCredited(h, tip, q, log, chunks);
    OrderedSet(order(answer.1), answer.1);
    AsksSomething();
    commits := InBatches(answer.0, order(answer.1), VERIFY_CONCURRENCY, exact);
    SettledIsReference(h, tip, q, hidden, log, exact);
    CreditedEntries(h, tip, q, hidden, log, exact, commits);
    complete := |commits| == |q.names|;
    if complete { SameSize(commits.Keys, q.names); }
  }

  lemma WalkedIsCredited(h: History, tip: nat, q: Query, log: seq<Listed>, chunks: seq<string>)
    requires Linked(h) && tip in h && Printable(h) && LogOrder(h, tip, log) && Concat(chunks) == Written(h, log)
    ensures var w := CreditLog(h, q, NOTHING, log); WalkAnswer(q, Concat(chunks)) == (w.commits, w.uncertain)
  {
    WrittenIsCredited(h, q, NOTHING, log);
  }

  lemma OrderedSet(items: seq<string>, s: set<string>)
    requires IsOrderOf(items, s)
    ensures Distinct(items) && (set n | n in items) == s
  {
  }

  lemma CreditedEntries(h: History, tip: nat, q: Query, hidden: map<nat, set<string>>, log: seq<Listed>, exact: string -> Option<EntryCommit>,
                        commits: map<string, EntryCommit>)
    requires Linked(h) && DistinctShas(h) && tip in h && Asks(h, tip, q) && LogOrder(h, tip, log) && LogOf(h, tip, q, hidden, log)
    requires forall name :: exact(name) == Reference(h, tip, q.dir, name)
    requires commits == Corrected(CreditLog(h, q, NOTHING, log).commits, exact, CreditLog(h, q, NOTHING, log).uncertain)
    ensures forall name :: name in commits <==> name in q.names && ListedIn(q, log, name) && Reference(h, tip, q.dir, name).Some?
    ensures WholeLine(h, tip, hidden, log) ==> forall name :: name in q.names && HasEntry(h, tip, q.dir, name) ==> name in commits
  {
    forall name ensures name in commits <==> name in q.names && ListedIn(q, log, name) && Reference(h, tip, q.dir, name).Some? {
      WhoIsCredited(h, tip, q, hidden, log, exact, name);
    }
    if WholeLine(h, tip, hidden, log) {
      forall name | name in q.names && HasEntry(h, tip, q.dir, name) ensures name in commits {
        PresentIsListed(h, tip, q, hidden, log, name);
      }
    }
  }

  lemma SettledIsReference(h: History, tip: nat, q: Query, hidden: map<nat, set<string>>, log: seq<Listed>, exact: string -> Option<EntryCommit>)
    requires Linked(h) && DistinctShas(h) && tip in h && Asks(h, tip, q) && LogOrder(h, tip, log) && LogOf(h, tip, q, hidden, log)
    requires forall name :: exact(name) == Reference(h, tip, q.dir, name)
    ensures var w := CreditLog(h, q, NOTHING, log); var r := Corrected(w.commits, exact, w.uncertain);
      && r.Keys <= q.names
      && (forall name :: name in r ==>
          (CreditsReference(h, tip, q, r, name) <==> AskedAgain(h, tip, q, log, name) || NewestTouchShows(h, tip, hidden, q.dir, name)))
      && ((forall c :: Hidden(hidden, c) == {}) ==> forall name :: name in r ==> CreditsReference(h, tip, q, r, name))
  {
    CertainIsReference(h, tip, q, hidden, log);
    UncertainAreCredited(h, q, NOTHING, log);
    forall name ensures name in CreditLog(h, q, NOTHING, log).uncertain <==> AskedAgain(h, tip, q, log, name) {
      UncertainMeansAskedAgain(h, tip, q, log, name);
    }
  }

  lemma CertainIsReference(h: History, tip: nat, q: Query, hidden: map<nat, set<string>>, log: seq<Listed>)
    requires Linked(h) && DistinctShas(h) && tip in h && Asks(h, tip, q) && LogOrder(h, tip, log) && LogOf(h, tip, q, hidden, log)
    ensures var w := CreditLog(h, q, NOTHING, log);
      forall name :: name in w.commits && name !in w.uncertain ==>
        && (CreditsReference(h, tip, q, w.commits, name) <==> NewestTouchShows(h, tip, hidden, q.dir, name))
        && ((forall c :: Hidden(hidden, c) == {}) ==> CreditsReference(h, tip, q, w.commits, name))
  {
    var w := CreditLog(h, q, NOTHING, log);
    forall name | name in w.commits && name !in w.uncertain
      ensures CreditsReference(h, tip, q, w.commits, name) <==> NewestTouchShows(h, tip, hidden, q.dir, name)
      ensures (forall c :: Hidden(hidden, c) == {}) ==> CreditsReference(h, tip, q, w.commits, name)
    {
      var j := CreditedAboveMergeIsExact(h, tip, q, hidden, log, name);
    }
  }

  ghost predicate IsOrderOf(items: seq<string>, s: set<string>) {
    (forall n :: n in items <==> n in s) && Distinct(items)
  }

  lemma {:induction false} UncertainAreCredited(h: History, q: Query, w: Credits, log: seq<Listed>)
    requires forall i :: 0 <= i < |log| ==> log[i].commit in h
    requires w.uncertain <= w.commits.Keys <= q.names
    ensures CreditLog(h, q, w, log).uncertain <= CreditLog(h, q, w, log).commits.Keys <= q.names
    decreases |log|
  {
    if log != [] {
      var c, paths := h[log[0].commit].info, log[0].paths;
      forall name ensures name in CreditCommit(q, w, c, paths).uncertain ==> name in CreditCommit(q, w, c, paths).commits
        ensures name in CreditCommit(q, w, c, paths).commits ==> name in q.names
      {
        CreditPathsEffect(q, c, if q.firstMerge == Some(c.sha) then w.(pastMerge := true) else w, paths, name);
      }
      UncertainAreCredited(h, q, CreditCommit(q, w, c, paths), log[1..]);
    }
  }

  // ----------------------------------------------------------------- a rename

  function Printed(c: char): EntryCommit { EntryCommit(seq(40, _ => c), "", "") }

  /** A root with two files in `x`, and a commit that moves one of them to `y`. */
  const MOVED: History := map[0 := Node([], map["x/f" := 1, "x/k" := 2], Printed('0')),
                              1 := Node([0], map["y/f" := 1, "x/k" := 2], Printed('1'))]

  const MOVE_QUERY := Query("", {"x", "y"}, None)
  const MOVE_LOG := [Listed(1, ["y/f"]), Listed(0, ["x/f", "x/k"])]

  lemma EntriesOfMove()
    ensures EntryFor("", "x/f") == Some("x") && EntryFor("", "x/k") == Some("x") && EntryFor("", "y/f") == Some("y")
  {
    EntryIsPathspec("", "x", "x/f");
    EntryIsPathspec("", "x", "x/k");
    EntryIsPathspec("", "y", "y/f");
  }

  lemma LineOfMove()
    ensures Linked(MOVED) && DistinctShas(MOVED) && Line(MOVED, 1) == [1, 0] && FirstMerge(MOVED, 1) == None
  {
    assert Printed('0').sha[0] != Printed('1').sha[0];
    assert Line(MOVED, 0) == [0];
  }

  lemma PathsOfMove()
    ensures WritableLog(MOVED, MOVE_LOG)
  {
  }

  lemma OrderOfMove()
    ensures Linked(MOVED) && DistinctShas(MOVED) && Asks(MOVED, 1, MOVE_QUERY) && LogOrder(MOVED, 1, MOVE_LOG)
  {
    LineOfMove();
    PathsOfMove();
  }

  lemma CreditsOfMove()
    ensures CreditLog(MOVED, MOVE_QUERY, NOTHING, MOVE_LOG).commits == map["y" := Printed('1'), "x" := Printed('0')]
  {
    EntriesOfMove();
    var q, a, b := MOVE_QUERY, Printed('1'), Printed('0');
    assert MOVE_LOG[1..] == [MOVE_LOG[1]] && [MOVE_LOG[1]][1..] == [];
    assert ["y/f"][1..] == [] && ["x/f", "x/k"][1..] == ["x/k"] && ["x/k"][1..] == [];
    var w1 := CreditCommit(q, NOTHING, a, ["y/f"]);
    assert w1 == CreditPath(q, a, NOTHING, "y/f");
    var w2 := CreditCommit(q, w1, b, ["x/f", "x/k"]);
    assert w2 == CreditPath(q, b, CreditPath(q, b, w1, "x/f"), "x/k");
    assert CreditLog(MOVED, q, w1, [MOVE_LOG[1]]) == CreditLog(MOVED, q, w2, []);
  }

  lemma ListingOfMove()
    ensures Linked(MOVED) && LogOf(MOVED, 1, MOVE_QUERY, map[1 := {"x/f"}], MOVE_LOG)
  {
    OrderOfMove();
    var hidden: map<nat, set<string>> := map[1 := {"x/f"}];
    assert ListsChanges(MOVED, MOVE_LOG[0], MOVE_QUERY, hidden);
    assert ListsChanges(MOVED, MOVE_LOG[1], MOVE_QUERY, hidden);
  }

  /**
   * With rename detection the moved file is listed under its new path alone: the entry it left keeps the
   * commit before the move, which is not the one `git log -1` names.
   */
  lemma MovesHideTheEntryLeft()
    ensures Linked(MOVED) && DistinctShas(MOVED) && Asks(MOVED, 1, MOVE_QUERY)
    ensures LogOf(MOVED, 1, MOVE_QUERY, map[1 := {"x/f"}], MOVE_LOG) && LogOrder(MOVED, 1, MOVE_LOG)
    ensures CreditLog(MOVED, MOVE_QUERY, NOTHING, MOVE_LOG).commits == map["y" := Printed('1'), "x" := Printed('0')]
    ensures LastCommit(MOVED, 1, "", "x") == Some(1)
  {
    OrderOfMove();
    ListingOfMove();
    CreditsOfMove();
    EntriesOfMove();
    assert !SameFile(MOVED[1].tree, MOVED[0].tree, "x/f");
    assert !TreeSame(MOVED, 1, 0, "", "x");
    LastCommitOfTouching(MOVED, 1, "", "x");
  }
}
