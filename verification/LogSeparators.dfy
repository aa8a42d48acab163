/**
 * The log's record separator inside what git prints (apps/api/src/tree-commits.ts `walk`): a commit subject may hold
 * one, and so may a file name. The reader cuts the output at every separator, whoever wrote it.
 */
module LogSeparators {
  import opened Wrappers
  import opened Strings
  import opened LogWalk

  /** What one record of the log credits on its own. */
  function CreditedAlone(q: Query, c: EntryCommit, paths: seq<string>): Credits {
    CreditRecords(q, NOTHING, NonEmpty(Split([RS] + LogRecord(c, paths), RS)))
  }

  predicate Listable(paths: seq<string>) { forall k :: 0 <= k < |paths| ==> WritablePath(paths[k]) && RS !in paths[k] }

  lemma {:induction false} PieceWithin(s: string, sep: char, c: char, k: nat)
    requires c !in s && k < |Split(s, sep)|
    ensures c !in Split(s, sep)[k]
  {
    if s != [] {
      if s[0] == sep {
        if k > 0 { PieceWithin(s[1..], sep, c, k - 1); }
      } else {
        PieceWithin(s[1..], sep, c, k);
      }
    }
  }

  lemma {:induction false} NonEmptyIn(parts: seq<string>)
    ensures forall p :: p in NonEmpty(parts) ==> p in parts
  {
    if parts != [] { NonEmptyIn(parts[1..]); }
  }

  lemma LeadingSeparator(text: string)
    ensures NonEmpty(Split([RS] + text, RS)) == NonEmpty(Split(text, RS))
  {
    assert ([RS] + text)[1..] == text && ([[]] + Split(text, RS))[1..] == Split(text, RS);
    assert [] + NonEmpty(Split(text, RS)) == NonEmpty(Split(text, RS));
  }

  // ----------------------------------------------------------------- in a subject

  lemma WholeRecord(q: Query, c: EntryCommit, paths: seq<string>)
    requires WritableCommit(c) && RS !in c.date && RS !in c.subject && Listable(paths)
    ensures CreditedAlone(q, c, paths) == CreditCommit(q, NOTHING, c, paths)
  {
    var record := LogRecord(c, paths);
    NoSeparatorInPaths(paths);
    assert RS !in record;
    LeadingSeparator(record);
    SplitNoSep(record, RS);
    RecordRoundTrip(c, paths);
    assert [record][1..] == [];
    assert CreditRecords(q, CreditRecord(q, NOTHING, record), []) == CreditRecord(q, NOTHING, record);
  }

  lemma {:induction false} LastSeparator(s: string) returns (a: string, b: string)
    requires RS in s
    ensures s == a + [RS] + b && RS !in b
  {
    if RS in s[1..] {
      var a', b' := LastSeparator(s[1..]);
      a, b := [s[0]] + a', b';
      assert s == [s[0]] + s[1..];
    } else {
      a, b := [], s[1..];
    }
  }

  lemma {:induction false} CutAtNone(s: string, c: char)
    requires c !in s
    ensures CutAt(s, c) == (s, None)
  {
    if s != [] {
      CutAtNone(s[1..], c);
      assert [s[0]] + s[1..] == s;
    }
  }

  /** A record without the header's end lists nothing. */
  lemma CutRecordListsNothing(record: string)
    requires NUL !in record
    ensures ParseLogRecord(record).Some? ==> ParseLogRecord(record).value.1 == []
  {
    CutAtNone(record, NUL);
    assert [""][1..] == [] && NonEmpty([""]) == [];
  }

  lemma {:induction false} CutRecordsCreditNothing(q: Query, w: Credits, records: seq<string>)
    requires forall r :: r in records ==> NUL !in r
    ensures CreditRecords(q, w, records).commits == w.commits
    decreases |records|
  {
    if records != [] {
      CutRecordListsNothing(records[0]);
      CutRecordsCreditNothing(q, CreditRecord(q, w, records[0]), records[1..]);
    }
  }

  lemma JoinTail(parts: seq<string>)
    ensures parts != [] ==> |Join(parts[1..], [US])| <= |Join(parts, [US])|
  {
  }

  lemma SubjectIsShort(header: string)
    ensures var fields := Split(header, US); |fields| > 2 ==> |Join(fields[2..], [US])| <= |header|
  {
    var fields := Split(header, US);
    JoinSplit(header, US);
    JoinTail(fields);
    JoinTail(fields[1..]);
    if |fields| > 2 { assert fields[1..][1..] == fields[2..]; }
  }

  /** What the last piece of a cut record credits has a subject no longer than the piece's header. */
  lemma LastPieceCredits(q: Query, w: Credits, header: string, body: string, name: string)
    requires NUL !in header && name !in w.commits
    ensures var w' := CreditRecord(q, w, header + [NUL] + body);
            name in w'.commits ==> |w'.commits[name].subject| <= |header|
  {
    var record := header + [NUL] + body;
    CutAtFirst(header, NUL, body);
    SubjectIsShort(header);
    var parsed := ParseLogRecord(record);
    if parsed.Some? {
      var (c, paths) := parsed.value;
      CreditPathsEffect(q, c, if q.firstMerge == Some(c.sha) then w.(pastMerge := true) else w, paths, name);
    }
  }

  const ONE_FILE := Query("", {"x"}, None)

  lemma OneFileCredited(c: EntryCommit)
    ensures CreditCommit(ONE_FILE, NOTHING, c, ["x"]).commits == map["x" := c]
  {
    EntryIsPathspec("", "x", "x");
    assert ["x"][1..] == [];
    assert CreditPaths(ONE_FILE, c, CreditPath(ONE_FILE, c, NOTHING, "x"), []) == CreditPath(ONE_FILE, c, NOTHING, "x");
  }

  /** A separator in the subject cuts the record: the header's last part cannot give the whole subject. */
  lemma CutRecord(c: EntryCommit)
    requires WritableCommit(c) && RS in c.subject
    ensures var w := CreditedAlone(ONE_FILE, c, ["x"]); "x" in w.commits ==> w.commits["x"] != c
  {
    var a, b := LastSeparator(c.subject);
    var front, body := c.sha + [US] + c.date + [US] + a, "\n" + Terminated(["x"], NUL);
    var last := b + [NUL] + body;
    CutText(c, a, b, body);
    LeadingSeparator(LogRecord(c, ["x"]));
    SplitAtSeparator(front, last, RS);
    assert Listable(["x"]);
    NoSeparatorInPaths(["x"]);
    SplitNoSep(last, RS);
    NonEmptyAppend(Split(front, RS), [last]);
    assert [last][1..] == [] && [last] + [] == [last];
    var before := NonEmpty(Split(front, RS));
    CreditRecordsAppend(ONE_FILE, NOTHING, before, [last]);
    NonEmptyIn(Split(front, RS));
    forall r | r in before ensures NUL !in r {
      var k :| 0 <= k < |Split(front, RS)| && Split(front, RS)[k] == r;
      PieceWithin(front, RS, NUL, k);
    }
    CutRecordsCreditNothing(ONE_FILE, NOTHING, before);
    var w := CreditRecords(ONE_FILE, NOTHING, before);
    LastPieceCredits(ONE_FILE, w, b, body, "x");
    assert CreditRecords(ONE_FILE, w, [last]) == CreditRecord(ONE_FILE, w, last);
  }

  lemma CutText(c: EntryCommit, a: string, b: string, body: string)
    requires c.subject == a + [RS] + b && body == "\n" + Terminated(["x"], NUL)
    ensures LogRecord(c, ["x"]) == (c.sha + [US] + c.date + [US] + a) + [RS] + (b + [NUL] + body)
  {
  }

  /**
   * Exactly: a commit's record is read back, whatever paths it lists and whatever is asked, if and only if its
   * subject holds no record separator.
   */
  lemma SubjectsMustHoldNoSeparator(c: EntryCommit)
    requires WritableCommit(c) && RS !in c.date
    ensures RS !in c.subject <==>
      forall q: Query, paths: seq<string> :: Listable(paths) ==> CreditedAlone(q, c, paths) == CreditCommit(q, NOTHING, c, paths)
  {
    if RS !in c.subject {
      forall q: Query, paths: seq<string> | Listable(paths) ensures CreditedAlone(q, c, paths) == CreditCommit(q, NOTHING, c, paths) {
        WholeRecord(q, c, paths);
      }
    } else {
      CutRecord(c);
      OneFileCredited(c);
      assert Listable(["x"]) && CreditedAlone(ONE_FILE, c, ["x"]) != CreditCommit(ONE_FILE, NOTHING, c, ["x"]);
    }
  }

  // ---------------------------------------------------------------- in a file name

  lemma {:induction false} CutAtWithin(s: string, c: char, x: char)
    requires x !in s
    ensures x !in CutAt(s, c).0 && (CutAt(s, c).1.Some? ==> x !in CutAt(s, c).1.value)
  {
    if s != [] && s[0] != c { CutAtWithin(s[1..], c, x); }
  }

  lemma PathsWithin(record: string)
    requires RS !in record
    ensures ParseLogRecord(record).Some? ==> forall p :: p in ParseLogRecord(record).value.1 ==> RS !in p
  {
    CutAtWithin(record, NUL, RS);
    var body := CutAt(record, NUL).1;
    var rest := if body.None? then "" else if body.value != [] && body.value[0] == '\n' then body.value[1..] else body.value;
    var pieces := Split(rest, NUL);
    NonEmptyIn(pieces);
    forall p | p in pieces ensures RS !in p {
      var k :| 0 <= k < |pieces| && pieces[k] == p;
      PieceWithin(rest, NUL, RS, k);
    }
  }

  lemma {:induction false} PathsLeaveName(q: Query, c: EntryCommit, w: Credits, paths: seq<string>, name: string)
    requires RS in name && name !in w.commits && forall p :: p in paths ==> RS !in p
    ensures name !in CreditPaths(q, c, w, paths).commits
    decreases |paths|
  {
    if paths != [] {
      assert paths[0] in paths;
      if Prefix(q.dir) <= paths[0] { CutAtWithin(paths[0][|Prefix(q.dir)|..], '/', RS); }
      PathsLeaveName(q, c, CreditPath(q, c, w, paths[0]), paths[1..], name);
    }
  }

  lemma {:induction false} RecordsLeaveName(q: Query, w: Credits, records: seq<string>, name: string)
    requires RS in name && name !in w.commits && forall r :: r in records ==> RS !in r
    ensures name !in CreditRecords(q, w, records).commits
    decreases |records|
  {
    if records != [] {
      assert records[0] in records;
      PathsWithin(records[0]);
      var parsed := ParseLogRecord(records[0]);
      if parsed.Some? {
        var (c, paths) := parsed.value;
        PathsLeaveName(q, c, if q.firstMerge == Some(c.sha) then w.(pastMerge := true) else w, paths, name);
      }
      RecordsLeaveName(q, CreditRecord(q, w, records[0]), records[1..], name);
    }
  }

  /** Whatever the output: an entry whose own name holds the separator never gets a commit, so no listing with one is complete. */
  lemma SeparatorInNameStaysUncredited(q: Query, output: string, name: string)
    requires RS in name
    ensures name !in WalkAnswer(q, output).0
  {
    var pieces := Split(output, RS);
    NonEmptyIn(pieces);
    forall r | r in NonEmpty(pieces) ensures RS !in r {
      var k :| 0 <= k < |pieces| && pieces[k] == r;
      PiecesHaveNoSep(output, RS, k);
    }
    RecordsLeaveName(q, NOTHING, NonEmpty(pieces), name);
  }
}
