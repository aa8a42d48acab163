/** Strings as the API code cuts and glues them: split, join, trim and decimal numerals. */
module Strings {

  lemma Assoc<T>(a: seq<T>, b: seq<T>, c: seq<T>)
    ensures (a + b) + c == a + (b + c)
  {
  }

  /** The pieces of `s` between occurrences of `sep`; always at least one piece. */
  function Split(s: string, sep: char): (parts: seq<string>)
    ensures |parts| >= 1
  {
    if s == [] then [[]]
    else
      var rest := Split(s[1..], sep);
      if s[0] == sep then [[]] + rest else [[s[0]] + rest[0]] + rest[1..]
  }

  function Join(parts: seq<string>, sep: string): string {
    if parts == [] then []
    else if |parts| == 1 then parts[0]
    else parts[0] + sep + Join(parts[1..], sep)
  }

  function Concat(parts: seq<string>): string {
    if parts == [] then [] else parts[0] + Concat(parts[1..])
  }

  function NonEmpty(parts: seq<string>): (r: seq<string>) {
    if parts == [] then []
    else (if parts[0] == [] then [] else [parts[0]]) + NonEmpty(parts[1..])
  }

  /** Two piece lists meeting in one text: the last piece of `a` and the first of `b` are one piece. */
  function Glue(a: seq<string>, b: seq<string>): (r: seq<string>)
    requires a != [] && b != []
    ensures |r| == |a| + |b| - 1
  {
    a[..|a| - 1] + [a[|a| - 1] + b[0]] + b[1..]
  }

  lemma GlueCons(x: string, a: seq<string>, b: seq<string>)
    requires a != [] && b != []
    ensures Glue([x] + a, b) == [x] + Glue(a, b)
  {
    assert ([x] + a)[..|a|] == [x] + a[..|a| - 1];
  }

  lemma GluePush(c: char, a: seq<string>, b: seq<string>)
    requires a != [] && b != []
    ensures Glue([[c] + a[0]] + a[1..], b) == [[c] + Glue(a, b)[0]] + Glue(a, b)[1..]
  {
    if |a| == 1 {
      assert [c] + (a[0] + b[0]) == ([c] + a[0]) + b[0];
    } else {
      assert a == [a[0]] + a[1..];
      GlueCons(a[0], a[1..], b);
      GlueCons([c] + a[0], a[1..], b);
    }
  }

  lemma GlueAtSeparator(a: seq<string>, b: seq<string>)
    requires a != []
    ensures Glue(a, [[]] + b) == a + b
  {
    assert ([[]] + b)[1..] == b;
    assert a[|a| - 1] + [] == a[|a| - 1];
    assert a[..|a| - 1] + [a[|a| - 1]] == a;
  }

  /** Splitting a concatenation. */
  lemma {:induction false} SplitAppend(a: string, b: string, sep: char)
    ensures Split(a + b, sep) == Glue(Split(a, sep), Split(b, sep))
  {
    if a == [] {
      assert a + b == b;
      assert [] + Split(b, sep)[0] == Split(b, sep)[0];
    } else {
      assert (a + b)[1..] == a[1..] + b;
      SplitAppend(a[1..], b, sep);
      if a[0] == sep {
        GlueCons([], Split(a[1..], sep), Split(b, sep));
      } else {
        GluePush(a[0], Split(a[1..], sep), Split(b, sep));
      }
    }
  }

  lemma {:induction false} SplitNoSep(s: string, sep: char)
    requires sep !in s
    ensures Split(s, sep) == [s]
  {
    if s != [] {
      SplitNoSep(s[1..], sep);
      assert [s[0]] + s[1..] == s;
    }
  }

  lemma SplitAtSeparator(a: string, b: string, sep: char)
    ensures Split(a + [sep] + b, sep) == Split(a, sep) + Split(b, sep)
  {
    Assoc(a, [sep], b);
    SplitAppend(a, [sep] + b, sep);
    assert ([sep] + b)[1..] == b;
    GlueAtSeparator(Split(a, sep), Split(b, sep));
  }

  /** A piece without the separator, the separator, and more text. */
  lemma SplitFirst(a: string, b: string, sep: char)
    requires sep !in a
    ensures Split(a + [sep] + b, sep) == [a] + Split(b, sep)
  {
    SplitNoSep(a, sep);
    SplitAtSeparator(a, b, sep);
  }

  lemma {:induction false} PiecesHaveNoSep(s: string, sep: char, k: nat)
    requires k < |Split(s, sep)|
    ensures sep !in Split(s, sep)[k]
  {
    if s != [] {
      if s[0] == sep {
        if k > 0 { PiecesHaveNoSep(s[1..], sep, k - 1); }
      } else {
        PiecesHaveNoSep(s[1..], sep, k);
      }
    }
  }

  lemma {:induction false} JoinCons(head: string, tail: seq<string>, sep: string)
    requires tail != []
    ensures Join([head] + tail, sep) == head + sep + Join(tail, sep)
  {
    assert ([head] + tail)[1..] == tail;
  }

  lemma {:induction false} SplitJoin(parts: seq<string>, sep: char)
    requires parts != []
    requires forall k :: 0 <= k < |parts| ==> sep !in parts[k]
    ensures Split(Join(parts, [sep]), sep) == parts
  {
    if |parts| == 1 {
      SplitNoSep(parts[0], sep);
    } else {
      SplitJoin(parts[1..], sep);
      SplitFirst(parts[0], Join(parts[1..], [sep]), sep);
      assert [parts[0]] + parts[1..] == parts;
    }
  }

  lemma {:induction false} JoinSplit(s: string, sep: char)
    ensures Join(Split(s, sep), [sep]) == s
  {
    if s != [] {
      JoinSplit(s[1..], sep);
      var rest := Split(s[1..], sep);
      if s[0] == sep {
        JoinCons([], rest, [sep]);
      } else if |rest| > 1 {
        JoinCons([s[0]] + rest[0], rest[1..], [sep]);
        JoinCons(rest[0], rest[1..], [sep]);
        assert [rest[0]] + rest[1..] == rest;
      }
    }
  }

  lemma {:induction false} NonEmptyAppend(a: seq<string>, b: seq<string>)
    ensures NonEmpty(a + b) == NonEmpty(a) + NonEmpty(b)
  {
    if a == [] {
      assert a + b == b;
    } else {
      assert (a + b)[1..] == a[1..] + b;
      NonEmptyAppend(a[1..], b);
    }
  }

  lemma {:induction false} ConcatAppend(a: seq<string>, b: seq<string>)
    ensures Concat(a + b) == Concat(a) + Concat(b)
  {
    if a == [] {
      assert a + b == b;
    } else {
      assert (a + b)[1..] == a[1..] + b;
      ConcatAppend(a[1..], b);
    }
  }

  // ------------------------------------------------------------- streams in chunks

  /** The non-empty pieces of a text that a later separator has closed. */
  function Closed(text: string, sep: char): seq<string> {
    var pieces := Split(text, sep);
    NonEmpty(pieces[..|pieces| - 1])
  }

  /** The piece that is still open. */
  function Open(text: string, sep: char): string {
    var pieces := Split(text, sep);
    pieces[|pieces| - 1]
  }

  lemma GlueInit(a: seq<string>, b: seq<string>)
    requires a != [] && b != []
    ensures var joined := Glue([a[|a| - 1]], b);
      && Glue(a, b)[..|a| + |b| - 2] == a[..|a| - 1] + joined[..|joined| - 1]
      && Glue(a, b)[|a| + |b| - 2] == joined[|joined| - 1]
  {
  }

  /** One more chunk: what was open and the chunk close what was not closed before. */
  lemma ChunkCloses(text: string, chunk: string, sep: char)
    ensures var pieces := Split(Open(text, sep) + chunk, sep);
      && Closed(text + chunk, sep) == Closed(text, sep) + NonEmpty(pieces[..|pieces| - 1])
      && Open(text + chunk, sep) == pieces[|pieces| - 1]
  {
    var a, b := Split(text, sep), Split(chunk, sep);
    SplitAppend(text, chunk, sep);
    GlueInit(a, b);
    SplitOpen(text, chunk, sep);
    NonEmptyAppend(a[..|a| - 1], Glue([a[|a| - 1]], b)[..|b| - 1]);
  }

  lemma SplitOpen(text: string, chunk: string, sep: char)
    ensures Split(Open(text, sep) + chunk, sep) == Glue([Open(text, sep)], Split(chunk, sep))
  {
    PiecesHaveNoSep(text, sep, |Split(text, sep)| - 1);
    SplitNoSep(Open(text, sep), sep);
    SplitAppend(Open(text, sep), chunk, sep);
  }

  lemma AllPieces(text: string, sep: char)
    ensures NonEmpty(Split(text, sep)) == Closed(text, sep) + NonEmpty([Open(text, sep)])
  {
    var pieces := Split(text, sep);
    assert pieces == pieces[..|pieces| - 1] + [Open(text, sep)];
    NonEmptyAppend(pieces[..|pieces| - 1], [Open(text, sep)]);
  }

  /** Every part followed by its terminator. */
  function Terminated(parts: seq<string>, end: char): string {
    if parts == [] then [] else parts[0] + [end] + Terminated(parts[1..], end)
  }

  lemma TerminatedCons(parts: seq<string>, end: char, more: string)
    requires parts != []
    ensures Terminated(parts, end) + more == parts[0] + [end] + (Terminated(parts[1..], end) + more)
  {
    Assoc(parts[0] + [end], Terminated(parts[1..], end), more);
  }

  lemma {:induction false} SplitTerminated(parts: seq<string>, end: char, more: string)
    requires forall k :: 0 <= k < |parts| ==> end !in parts[k]
    ensures Split(Terminated(parts, end) + more, end) == parts + Split(more, end)
  {
    if parts == [] {
      assert Terminated(parts, end) + more == more;
    } else {
      TerminatedCons(parts, end, more);
      SplitFirst(parts[0], Terminated(parts[1..], end) + more, end);
      SplitTerminated(parts[1..], end, more);
      Assoc([parts[0]], parts[1..], Split(more, end));
      assert [parts[0]] + parts[1..] == parts;
    }
  }

  lemma {:induction false} NonEmptyOfNonEmpty(parts: seq<string>)
    requires forall k :: 0 <= k < |parts| ==> parts[k] != []
    ensures NonEmpty(parts) == parts
  {
    if parts != [] { NonEmptyOfNonEmpty(parts[1..]); }
  }

  /** Non-empty parts without their terminator are read back as they were. */
  lemma PiecesOfTerminated(parts: seq<string>, end: char)
    requires forall k :: 0 <= k < |parts| ==> parts[k] != [] && end !in parts[k]
    ensures NonEmpty(Split(Terminated(parts, end), end)) == parts && Closed(Terminated(parts, end), end) == parts
  {
    var text := Terminated(parts, end);
    SplitTerminated(parts, end, []);
    assert text + [] == text && Split([], end) == [[]];
    assert (parts + [[]])[..|parts|] == parts;
    NonEmptyOfNonEmpty(parts);
    AllPieces(text, end);
    NoPieces();
    assert parts + [] == parts;
  }

  lemma NoPieces()
    ensures NonEmpty([[]]) == []
  {
    var blank: seq<string> := [[]];
    assert blank[1..] == [];
  }

  // ---------------------------------------------------------------- whitespace

  /** The characters ECMAScript's `trim` and `\s` treat as whitespace. */
  predicate IsSpace(c: char) {
    c == ' ' || '\t' <= c <= '\r' || c == '\U{00A0}' || c == '\U{1680}' || '\U{2000}' <= c <= '\U{200A}'
    || c == '\U{2028}' || c == '\U{2029}' || c == '\U{202F}' || c == '\U{205F}' || c == '\U{3000}' || c == '\U{FEFF}'
  }

  function TrimStart(s: string): (t: string) {
    if s != [] && IsSpace(s[0]) then TrimStart(s[1..]) else s
  }

  function TrimEnd(s: string): (t: string) {
    if s != [] && IsSpace(s[|s| - 1]) then TrimEnd(s[..|s| - 1]) else s
  }

  function Trim(s: string): string { TrimEnd(TrimStart(s)) }

  /** Neither end of `s` is whitespace. */
  predicate Trimmed(s: string) {
    s != [] ==> !IsSpace(s[0]) && !IsSpace(s[|s| - 1])
  }

  predicate Spaces(s: string) { forall k :: 0 <= k < |s| ==> IsSpace(s[k]) }

  lemma {:induction false} TrimStartCuts(s: string) returns (i: nat)
    ensures i <= |s| && Spaces(s[..i]) && TrimStart(s) == s[i..] && (i < |s| ==> !IsSpace(s[i]))
  {
    i := 0;
    if s != [] && IsSpace(s[0]) {
      var j := TrimStartCuts(s[1..]);
      i := j + 1;
      assert forall k :: 0 < k < i ==> s[k] == s[1..][..j][k - 1];
    }
  }

  lemma {:induction false} TrimEndCuts(s: string) returns (j: nat)
    ensures j <= |s| && Spaces(s[j..]) && TrimEnd(s) == s[..j] && (j > 0 ==> !IsSpace(s[j - 1]))
  {
    j := |s|;
    if s != [] && IsSpace(s[|s| - 1]) {
      var front := s[..|s| - 1];
      j := TrimEndCuts(front);
      assert forall k :: 0 <= k < |s| - 1 - j ==> s[j..][k] == front[j..][k];
      assert front[..j] == s[..j];
    }
  }

  /** Trimming cuts off spaces at both ends, and all of them. */
  lemma TrimCuts(s: string) returns (i: nat, j: nat)
    ensures i <= j <= |s| && Trim(s) == s[i..j] && Spaces(s[..i]) && Spaces(s[j..]) && Trimmed(Trim(s))
  {
    i := TrimStartCuts(s);
    var t := s[i..];
    var n := TrimEndCuts(t);
    j := i + n;
    assert s[j..] == t[n..] && s[i..j] == t[..n];
    if n > 0 { assert t[0] == s[i] && t[..n][n - 1] == t[n - 1] && t[..n][0] == t[0]; }
  }

  /** What has no space at its ends stays. */
  lemma TrimmedStays(s: string)
    requires Trimmed(s)
    ensures Trim(s) == s
  {
  }

  // ------------------------------------------------------------------ decimals

  function Digit(d: nat): char requires d < 10 { '0' + d as char }

  predicate IsDigit(c: char) { '0' <= c <= '9' }

  predicate IsHex(c: char) { IsDigit(c) || 'a' <= c <= 'f' }

  /** A full commit id. */
  predicate IsSha(s: string) { |s| == 40 && forall k :: 0 <= k < 40 ==> IsHex(s[k]) }

  function DigitValue(c: char): nat requires IsDigit(c) { (c - '0') as nat }

  /** The decimal numeral of `n`, as template literals print it. */
  function Decimal(n: nat): (s: string)
    ensures s != [] && forall k :: 0 <= k < |s| ==> IsDigit(s[k])
  {
    if n < 10 then [Digit(n)] else Decimal(n / 10) + [Digit(n % 10)]
  }

  /** The value of a run of digits, as `Number` and `parseInt` read it. */
  function Value(s: string): nat
    requires forall k :: 0 <= k < |s| ==> IsDigit(s[k])
  {
    if s == [] then 0 else 10 * Value(s[..|s| - 1]) + DigitValue(s[|s| - 1])
  }

  lemma {:induction false} ValueOfDecimal(n: nat)
    ensures Value(Decimal(n)) == n
  {
    if n >= 10 {
      ValueOfDecimal(n / 10);
      var s := Decimal(n);
      assert s[..|s| - 1] == Decimal(n / 10);
    } else {
      assert [Digit(n)][..0] == [];
    }
  }

  lemma DecimalInjective(a: nat, b: nat)
    requires Decimal(a) == Decimal(b)
    ensures a == b
  {
    ValueOfDecimal(a);
    ValueOfDecimal(b);
  }
}
