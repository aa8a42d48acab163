/** Durations in working minutes (apps/api/src/duration.ts): `1w` is 5 days, `1d` 8 hours, `1h` 60 minutes. */
module Duration {
  import opened Wrappers
  import opened Strings

  predicate IsUnit(c: char) { c == 'w' || c == 'd' || c == 'h' || c == 'm' }

  /** The units, largest first. */
  function UnitAt(place: nat): char { if place == 0 then 'w' else if place == 1 then 'd' else if place == 2 then 'h' else 'm' }

  function Size(unit: char): (n: nat)
    ensures n > 0
  {
    if unit == 'w' then 2400 else if unit == 'd' then 480 else if unit == 'h' then 60 else 1
  }

  function Times(n: nat, unit: char): nat {
    if unit == 'w' then n * 2400 else if unit == 'd' then n * 480 else if unit == 'h' then n * 60 else n
  }

  /** The whole quotient of `rem` by the size of the unit. */
  function Over(rem: nat, unit: char): (n: nat)
    ensures Times(n, unit) <= rem < Times(n, unit) + Size(unit)
  {
    if rem < Size(unit) then 0 else 1 + Over(rem - Size(unit), unit)
  }

  function Left(rem: nat, unit: char): (r: nat)
    ensures r == rem - Times(Over(rem, unit), unit) < Size(unit)
  {
    rem - Times(Over(rem, unit), unit)
  }

  // ------------------------------------------------------------------- the grammar

  /** A number in digits and its unit. */
  datatype Chunk = Chunk(digits: string, unit: char)

  predicate IsChunk(c: Chunk) { c.digits != [] && IsUnit(c.unit) && forall k :: 0 <= k < |c.digits| ==> IsDigit(c.digits[k]) }

  predicate AreChunks(cs: seq<Chunk>) { forall k :: 0 <= k < |cs| ==> IsChunk(cs[k]) }

  function Spelled(cs: seq<Chunk>): string { if cs == [] then [] else cs[0].digits + [cs[0].unit] + Spelled(cs[1..]) }

  function DigitRun(s: string): (n: nat)
    ensures n <= |s| && (forall k :: 0 <= k < n ==> IsDigit(s[k])) && (n < |s| ==> !IsDigit(s[n]))
  {
    if s != [] && IsDigit(s[0]) then 1 + DigitRun(s[1..]) else 0
  }

  /** The chunks a text consists of, when it consists of chunks. */
  function Chunks(s: string): (r: Option<seq<Chunk>>)
    ensures r.Some? ==> AreChunks(r.value) && (r.value == [] <==> s == [])
  {
    if s == [] then Some([])
    else
      var n := DigitRun(s);
      if n == 0 || n == |s| || !IsUnit(s[n]) then None
      else
        match Chunks(s[n + 1..])
        case None => None
        case Some(rest) => Some([Chunk(s[..n], s[n])] + rest)
  }

  lemma SpelledCons(c: Chunk, cs: seq<Chunk>)
    ensures Spelled([c] + cs) == c.digits + [c.unit] + Spelled(cs)
  {
    assert ([c] + cs)[1..] == cs;
  }

  lemma CutAt(s: string, n: nat)
    requires n < |s|
    ensures s == s[..n] + [s[n]] + s[n + 1..]
  {
  }

  lemma {:induction false} SpelledChunks(s: string)
    requires Chunks(s).Some?
    ensures Spelled(Chunks(s).value) == s
  {
    if s != [] {
      var n := DigitRun(s);
      var rest := Chunks(s[n + 1..]);
      assert rest.Some? && Chunks(s).value == [Chunk(s[..n], s[n])] + rest.value;
      SpelledChunks(s[n + 1..]);
      SpelledCons(Chunk(s[..n], s[n]), rest.value);
      CutAt(s, n);
    }
  }

  lemma {:induction false} DigitRunOf(digits: string, unit: char, rest: string)
    requires (forall k :: 0 <= k < |digits| ==> IsDigit(digits[k])) && !IsDigit(unit)
    ensures DigitRun(digits + [unit] + rest) == |digits|
  {
    if digits != [] {
      assert (digits + [unit] + rest)[1..] == digits[1..] + [unit] + rest;
      DigitRunOf(digits[1..], unit, rest);
    }
  }

  /** One step of the reader, over digits, their unit and the rest. */
  lemma ChunksStep(digits: string, unit: char, rest: string)
    requires digits != [] && (forall k :: 0 <= k < |digits| ==> IsDigit(digits[k])) && IsUnit(unit) && Chunks(rest).Some?
    ensures Chunks(digits + [unit] + rest) == Some([Chunk(digits, unit)] + Chunks(rest).value)
  {
    var s := digits + [unit] + rest;
    DigitRunOf(digits, unit, rest);
    assert s[..|digits|] == digits && s[|digits|] == unit && s[|digits| + 1..] == rest;
    hide DigitRun;
  }

  lemma {:induction false} ChunksOfSpelled(cs: seq<Chunk>)
    requires AreChunks(cs)
    ensures Chunks(Spelled(cs)) == Some(cs)
  {
    hide Chunks;
    if cs == [] {
      NoChunks();
    } else {
      assert IsChunk(cs[0]);
      ChunksOfSpelled(cs[1..]);
      ChunksStep(cs[0].digits, cs[0].unit, Spelled(cs[1..]));
      assert cs == [cs[0]] + cs[1..];
    }
  }

  lemma NoChunks()
    ensures Chunks([]) == Some([])
  {
  }

  lemma {:induction false} SpelledAppend(a: seq<Chunk>, b: seq<Chunk>)
    ensures Spelled(a + b) == Spelled(a) + Spelled(b)
  {
    if a == [] {
      assert a + b == b;
    } else {
      assert (a + b)[1..] == a[1..] + b;
      SpelledAppend(a[1..], b);
      Assoc(a[0].digits + [a[0].unit], Spelled(a[1..]), Spelled(b));
    }
  }

  function Minutes(cs: seq<Chunk>): nat
    requires AreChunks(cs)
  {
    if cs == [] then 0 else Times(Value(cs[0].digits), cs[0].unit) + Minutes(cs[1..])
  }

  lemma {:induction false} MinutesAppend(a: seq<Chunk>, b: seq<Chunk>)
    requires AreChunks(a) && AreChunks(b)
    ensures AreChunks(a + b) && Minutes(a + b) == Minutes(a) + Minutes(b)
  {
    if a == [] {
      assert a + b == b;
    } else {
      assert (a + b)[1..] == a[1..] + b;
      MinutesAppend(a[1..], b);
    }
  }

  // ----------------------------------------------------------------------- parsing

  /** `toLowerCase`; no other character lowers to a sign, a space, a digit or a unit. */
  function Lower(c: char): char { if 'A' <= c <= 'Z' then c - 'A' + 'a' else c }

  function Lowered(s: string): (t: string)
    ensures |t| == |s| && forall k :: 0 <= k < |s| ==> t[k] == Lower(s[k])
  {
    seq(|s|, k requires 0 <= k < |s| => Lower(s[k]))
  }

  function NoSpace(s: string): string {
    if s == [] then [] else (if IsSpace(s[0]) then [] else [s[0]]) + NoSpace(s[1..])
  }

  /** The minutes of a text without spaces. */
  function Compact(s: string): Option<int> {
    if s == [] || Chunks(s) == None then None else Some(Minutes(Chunks(s).value))
  }

  /** The minutes of a duration without a sign. */
  function Unsigned(s: string): Option<int> { Compact(NoSpace(s)) }

  function Parsed(input: string): Option<int> {
    var s := Lowered(Trim(input));
    if s == [] then None
    else if s[0] == '-' then
      Negated(Unsigned(TrimStart(s[1..])))
    else
      Unsigned(if s[0] == '+' then TrimStart(s[1..]) else s)
  }

  function Negated(n: Option<int>): Option<int> { if n.Some? then Some(-n.value) else None }

  /** The loop over the matches. */
  method Total(cs: seq<Chunk>) returns (total: nat)
    requires AreChunks(cs)
    ensures total == Minutes(cs)
  {
    total := 0;
    for n := 0 to |cs|
      invariant AreChunks(cs[n..]) && total + Minutes(cs[n..]) == Minutes(cs)
    {
      assert cs[n..][1..] == cs[n + 1..];
      total := total + Times(Value(cs[n].digits), cs[n].unit);
    }
  }

  /** What comes after the sign. */
  method UnsignedTotal(s: string) returns (r: Option<int>)
    ensures r == Unsigned(s)
  {
    var compact := NoSpace(s);
    var chunks := Chunks(compact);
    if compact == [] || chunks == None { return None; }
    var total := Total(chunks.value);
    r := Some(total);
  }

  /** `parseDuration`. */
  method ParseDuration(input: Option<string>) returns (r: Option<int>)
    ensures r == if input.None? then None else Parsed(input.value)
  {
    if input.None? { return None; }
    var s := Lowered(Trim(input.value));
    if s == [] { return None; }
    var sign: int := 1;
    if s[0] == '-' {
      sign := -1;
      s := TrimStart(s[1..]);
    } else if s[0] == '+' {
      s := TrimStart(s[1..]);
    }
    var total := UnsignedTotal(s);
    if total.None? { return None; }
    r := Some(sign * total.value);
  }

  // ---------------------------------------------------------------------- printing

  /** Greedy amounts of the units from place `from` on; units without any are left out. */
  function Greedy(rem: nat, from: nat): seq<(nat, char)>
    decreases rem, 4 - from
  {
    if from >= 4 then []
    else
      var unit := UnitAt(from);
      (if Over(rem, unit) > 0 then [(Over(rem, unit), unit)] else []) + Greedy(Left(rem, unit), from + 1)
  }

  function Text(part: (nat, char)): string { Decimal(part.0) + [part.1] }

  function Texts(parts: seq<(nat, char)>): (ts: seq<string>)
    ensures |ts| == |parts| && forall k :: 0 <= k < |parts| ==> ts[k] == Text(parts[k])
  {
    seq(|parts|, k requires 0 <= k < |parts| => Text(parts[k]))
  }

  function Printed(minutes: int): string {
    if minutes <= 0 then "0m" else Join(Texts(Greedy(minutes, 0)), " ")
  }

  /** `Math.round`: halves go up. */
  function Round(minutes: real): (n: int)
    ensures minutes - 0.5 <= n as real <= minutes + 0.5 && (minutes == minutes.Floor as real ==> n == minutes.Floor)
  {
    (minutes + 0.5).Floor
  }

  /** `formatDuration`: the nearest whole number of minutes is printed. */
  method FormatDuration(minutes: real) returns (s: string)
    ensures s == Printed(Round(minutes))
  {
    var rounded := Round(minutes);
    if rounded <= 0 { return "0m"; }
    var rem: nat := rounded;
    var parts := [];
    ghost var pairs: seq<(nat, char)> := [];
    for k := 0 to 4
      invariant parts == Texts(pairs) && pairs + Greedy(rem, k) == Greedy(rounded, 0)
    {
      var unit := UnitAt(k);
      var n := Over(rem, unit);
      if n > 0 {
        parts := parts + [Decimal(n) + [unit]];
        Assoc(pairs, [(n, unit)], Greedy(Left(rem, unit), k + 1));
        pairs := pairs + [(n, unit)];
        rem := rem - Times(n, unit);
      } else {
        assert [] + Greedy(rem, k + 1) == Greedy(rem, k + 1);
      }
    }
    assert pairs + [] == pairs;
    s := Join(parts, " ");
  }

  // -------------------------------------------------------------------- round trips

  function ChunksOf(parts: seq<(nat, char)>): (cs: seq<Chunk>)
    ensures |cs| == |parts| && forall k :: 0 <= k < |parts| ==> cs[k] == Chunk(Decimal(parts[k].0), parts[k].1)
  {
    seq(|parts|, k requires 0 <= k < |parts| => Chunk(Decimal(parts[k].0), parts[k].1))
  }

  function Sum(parts: seq<(nat, char)>): nat {
    if parts == [] then 0 else Times(parts[0].0, parts[0].1) + Sum(parts[1..])
  }

  predicate UnitsOnly(parts: seq<(nat, char)>) { forall k :: 0 <= k < |parts| ==> IsUnit(parts[k].1) }

  lemma {:induction false} MinutesOfParts(parts: seq<(nat, char)>)
    requires UnitsOnly(parts)
    ensures AreChunks(ChunksOf(parts)) && Minutes(ChunksOf(parts)) == Sum(parts)
  {
    if parts != [] {
      MinutesOfParts(parts[1..]);
      assert ChunksOf(parts)[1..] == ChunksOf(parts[1..]);
      ValueOfDecimal(parts[0].0);
    }
  }

  /** Printed and spelled out, the parts differ by spaces only. */
  lemma {:induction false} SpacesOnly(parts: seq<(nat, char)>)
    requires UnitsOnly(parts)
    ensures NoSpace(Lowered(Join(Texts(parts), " "))) == Spelled(ChunksOf(parts))
  {
    if |parts| == 1 {
      TextIsPlain(parts[0]);
      assert ChunksOf(parts)[1..] == [];
      assert Text(parts[0]) + [] == Text(parts[0]);
    } else if parts != [] {
      var rest := Join(Texts(parts[1..]), " ");
      assert Texts(parts)[1..] == Texts(parts[1..]) && ChunksOf(parts)[1..] == ChunksOf(parts[1..]);
      SpacesOnly(parts[1..]);
      TextIsPlain(parts[0]);
      LoweredAppend(Text(parts[0]) + " ", rest);
      LoweredAppend(Text(parts[0]), " ");
      NoSpaceAppend(Lowered(Text(parts[0]) + " "), Lowered(rest));
      NoSpaceAppend(Lowered(Text(parts[0])), Lowered(" "));
      assert NoSpace(Lowered(" ")) == [];
      assert Text(parts[0]) + [] == Text(parts[0]);
    }
  }

  lemma TextIsPlain(part: (nat, char))
    requires IsUnit(part.1)
    ensures NoSpace(Lowered(Text(part))) == Text(part)
  {
    assert Lowered(Text(part)) == Text(part);
    NoSpaceOfPlain(Text(part));
  }

  lemma {:induction false} NoSpaceOfPlain(s: string)
    requires forall k :: 0 <= k < |s| ==> !IsSpace(s[k])
    ensures NoSpace(s) == s
  {
    if s != [] {
      NoSpaceOfPlain(s[1..]);
      assert [s[0]] + s[1..] == s;
    }
  }

  lemma LoweredAppend(a: string, b: string)
    ensures Lowered(a + b) == Lowered(a) + Lowered(b)
  {
  }

  lemma {:induction false} NoSpaceAppend(a: string, b: string)
    ensures NoSpace(a + b) == NoSpace(a) + NoSpace(b)
  {
    if a == [] {
      assert a + b == b;
    } else {
      assert (a + b)[1..] == a[1..] + b;
      NoSpaceAppend(a[1..], b);
    }
  }

  lemma {:induction false} NoSpaceTrimStart(s: string)
    ensures NoSpace(TrimStart(s)) == NoSpace(s)
  {
    if s != [] && IsSpace(s[0]) { NoSpaceTrimStart(s[1..]); }
  }

  lemma {:induction false} NoSpaceTrimEnd(s: string)
    ensures NoSpace(TrimEnd(s)) == NoSpace(s)
    ensures s != [] && !IsSpace(s[0]) ==> TrimEnd(s) != [] && TrimEnd(s)[0] == s[0]
  {
    if s != [] && IsSpace(s[|s| - 1]) {
      var front := s[..|s| - 1];
      NoSpaceTrimEnd(front);
      assert s == front + [s[|s| - 1]];
      NoSpaceAppend(front, [s[|s| - 1]]);
    }
  }

  lemma {:induction false} NoSpaceLowered(s: string)
    ensures NoSpace(Lowered(s)) == Lowered(NoSpace(s))
  {
    if s != [] {
      assert Lowered(s)[1..] == Lowered(s[1..]);
      NoSpaceLowered(s[1..]);
    }
  }

  /** The text holds something, and does not start with a sign. */
  predicate NoSign(s: string) { var t := TrimStart(s); t != [] && t[0] != '-' && t[0] != '+' }

  lemma {:induction false} TrimStartsAtText(s: string)
    ensures TrimStart(s) != [] ==> !IsSpace(TrimStart(s)[0])
  {
    if s != [] && IsSpace(s[0]) { TrimStartsAtText(s[1..]); }
  }

  /** Trimming takes spaces only, and keeps the first character that is none. */
  lemma TrimFacts(s: string)
    ensures NoSpace(Lowered(Trim(s))) == NoSpace(Lowered(s))
    ensures TrimStart(s) != [] ==> Trim(s) != [] && Trim(s)[0] == TrimStart(s)[0]
  {
    TrimStartsAtText(s);
    NoSpaceTrimEnd(TrimStart(s));
    NoSpaceTrimStart(s);
    NoSpaceLowered(Trim(s));
    NoSpaceLowered(s);
  }

  /** The minutes of a text without spaces, of any sign. */
  function Signed(x: string): Option<int> {
    if x == [] then None
    else if x[0] == '-' then Negated(Compact(x[1..]))
    else if x[0] == '+' then Compact(x[1..])
    else Compact(x)
  }

  lemma {:induction false} NoSpaceHead(s: string)
    requires s != [] && !IsSpace(s[0])
    ensures NoSpace(s) == [s[0]] + NoSpace(s[1..])
  {
  }

  lemma {:induction false} NothingLeft(s: string)
    ensures TrimStart(s) == [] <==> NoSpace(s) == []
  {
    if s != [] && IsSpace(s[0]) { NothingLeft(s[1..]); }
  }

  /** A duration is read from what is not a space, in lower case. */
  lemma ParsedIsSigned(s: string)
    ensures Parsed(s) == Signed(NoSpace(Lowered(s)))
  {
    var t := Lowered(Trim(s));
    TrimFacts(s);
    NothingLeft(s);
    NoSpaceLowered(s);
    if TrimStart(s) == [] {
      assert Trim(s) == [] && NoSpace(Lowered(s)) == [];
    } else {
      TrimStartsAtText(s);
      assert !IsSpace(t[0]);
      NoSpaceHead(t);
      NoSpaceTrimStart(t[1..]);
      assert NoSpace(t)[1..] == NoSpace(t[1..]);
    }
  }

  lemma NoSignLeft(s: string)
    requires NoSign(s)
    ensures var x := NoSpace(Lowered(s)); x != [] && x[0] != '-' && x[0] != '+'
  {
    TrimStartsAtText(s);
    NoSpaceTrimStart(s);
    NoSpaceHead(TrimStart(s));
    NoSpaceLowered(s);
  }

  /** Without a sign, only what is not a space matters. */
  lemma ParsedUnsigned(s: string)
    requires NoSign(s)
    ensures Parsed(s) == Unsigned(Lowered(s))
  {
    hide NoSign, Parsed, NoSpace, Compact;
    ParsedIsSigned(s);
    NoSignLeft(s);
  }

  lemma TrimMinus(s: string)
    ensures Trim("-" + s) != [] && Trim("-" + s)[0] == '-' && NoSpace(Trim("-" + s)[1..]) == NoSpace(s)
  {
    var t := "-" + s;
    NoSpaceTrimEnd(t);
    var u := TrimEnd(t);
    assert TrimStart(t) == t && t[1..] == s;
    assert NoSpace(u) == ['-'] + NoSpace(u[1..]) && NoSpace(t) == ['-'] + NoSpace(s);
    assert NoSpace(u[1..]) == NoSpace(u)[1..] && NoSpace(s) == NoSpace(t)[1..];
  }

  lemma UnsignedOfText(rest: string, s: string)
    requires NoSpace(rest) == NoSpace(s)
    ensures Unsigned(TrimStart(Lowered(rest))) == Unsigned(Lowered(s))
  {
    NoSpaceTrimStart(Lowered(rest));
    NoSpaceLowered(rest);
    NoSpaceLowered(s);
  }

  /** With a leading minus, what follows is negated. */
  lemma ParsedNegative(s: string)
    ensures Parsed("-" + s) == Negated(Unsigned(Lowered(s)))
  {
    TrimMinus(s);
    var u := Trim("-" + s);
    assert Lowered(u)[1..] == Lowered(u[1..]);
    UnsignedOfText(u[1..], s);
  }

  function Upper(c: char): char { if 'a' <= c <= 'z' then c - 'a' + 'A' else c }

  function Uppered(s: string): (t: string)
    ensures |t| == |s| && forall k :: 0 <= k < |s| ==> t[k] == Upper(s[k])
  {
    seq(|s|, k requires 0 <= k < |s| => Upper(s[k]))
  }

  lemma UpperedLowers(s: string)
    ensures Lowered(Uppered(s)) == Lowered(s)
  {
  }

  /** Spaces do not matter, wherever they stand, nor does the case of units. */
  lemma SpacesAndCaseDoNotMatter(s: string, t: string)
    ensures NoSpace(s) == NoSpace(t) ==> Parsed(s) == Parsed(t)
    ensures Parsed(Uppered(s)) == Parsed(s)
  {
    hide Parsed, Signed, NoSpace;
    ParsedIsSigned(s);
    ParsedIsSigned(t);
    ParsedIsSigned(Uppered(s));
    NoSpaceLowered(s);
    NoSpaceLowered(t);
    UpperedLowers(s);
  }

  /** A plus changes nothing and a minus negates. */
  lemma SignsCount(s: string)
    requires NoSign(s)
    ensures Parsed("+" + s) == Parsed(s)
    ensures Parsed("-" + s) == Negated(Parsed(s))
  {
    ParsedNegative(s);
    ParsedUnsigned(s);
    ParsedIsSigned("+" + s);
    assert Lowered("+" + s) == "+" + Lowered(s);
    NoSpaceHead("+" + Lowered(s));
    assert ("+" + Lowered(s))[1..] == Lowered(s);
    assert NoSpace(Lowered("+" + s))[1..] == NoSpace(Lowered(s));
  }

  lemma {:induction false} GreedyParts(rem: nat, from: nat)
    ensures UnitsOnly(Greedy(rem, from)) && (from < 4 ==> Sum(Greedy(rem, from)) == rem)
    decreases 4 - from
  {
    if from < 4 {
      var unit := UnitAt(from);
      GreedyParts(Left(rem, unit), from + 1);
      var rest := Greedy(Left(rem, unit), from + 1);
      if Over(rem, unit) > 0 {
        assert Greedy(rem, from)[1..] == rest;
      } else {
        assert Greedy(rem, from) == rest;
      }
      if from == 3 { assert rest == []; }
    }
  }

  /** Any parts, printed, are read as their sum, and start with a digit. */
  lemma PartsPrinted(parts: seq<(nat, char)>)
    requires UnitsOnly(parts) && parts != []
    ensures Unsigned(Lowered(Join(Texts(parts), " "))) == Some(Sum(parts)) && NoSign(Join(Texts(parts), " "))
  {
    SpacesOnly(parts);
    MinutesOfParts(parts);
    ChunksOfSpelled(ChunksOf(parts));
    PartsStart(parts);
  }

  lemma PartsStart(parts: seq<(nat, char)>)
    requires parts != []
    ensures NoSign(Join(Texts(parts), " "))
  {
    var first := Text(parts[0]);
    assert Join(Texts(parts), " ")[0] == first[0] && IsDigit(first[0]);
  }

  lemma ZeroPrinted()
    ensures Join(Texts([(0, 'm')]), " ") == "0m" && Sum([(0, 'm')]) == 0
  {
    assert Decimal(0) == ['0'];
    assert Text((0, 'm')) == "0m";
    assert [(0, 'm')][1..] == [];
  }

  lemma PrintedParts(n: nat) returns (parts: seq<(nat, char)>)
    ensures UnitsOnly(parts) && parts != [] && Sum(parts) == n && Printed(n) == Join(Texts(parts), " ")
  {
    if n == 0 {
      ZeroPrinted();
      return [(0, 'm')];
    }
    parts := Greedy(n, 0);
    GreedyParts(n, 0);
  }

  /** Every whole number of minutes parses back from its printed form, in either case and with a plus, and its negative with a minus. */
  lemma RoundTrip(n: nat)
    ensures Parsed(Printed(n)) == Some(n)
    ensures Parsed("-" + Printed(n)).Some? && Parsed("-" + Printed(n)).value + n == 0
    ensures Parsed("+" + Printed(n)) == Some(n) && Parsed(Uppered(Printed(n))) == Some(n)
  {
    var parts := PrintedParts(n);
    PartsPrinted(parts);
    ParsedUnsigned(Printed(n));
    ParsedNegative(Printed(n));
    SignsCount(Printed(n));
    SpacesAndCaseDoNotMatter(Printed(n), Printed(n));
  }

  /** Two durations without signs, one after the other, parse to their sum. */
  lemma ParsedSum(a: string, b: string)
    requires NoSign(a) && NoSign(b) && Parsed(a).Some? && Parsed(b).Some?
    ensures Parsed(a + b) == Some(Parsed(a).value + Parsed(b).value)
  {
    hide *;
    ParsedUnsigned(a);
    ParsedUnsigned(b);
    NoSignAppend(a, b);
    ParsedUnsigned(a + b);
    UnsignedSum(a, b);
  }

  lemma NoSignAppend(a: string, b: string)
    requires NoSign(a)
    ensures NoSign(a + b)
  {
    TrimStartAppend(a, b);
  }

  lemma UnsignedSum(a: string, b: string)
    requires Unsigned(Lowered(a)).Some? && Unsigned(Lowered(b)).Some?
    ensures Unsigned(Lowered(a + b)) == Some(Unsigned(Lowered(a)).value + Unsigned(Lowered(b)).value)
  {
    LoweredAppend(a, b);
    NoSpaceAppend(Lowered(a), Lowered(b));
    CompactSum(NoSpace(Lowered(a)), NoSpace(Lowered(b)));
  }

  lemma CompactSum(x: string, y: string)
    requires Compact(x).Some? && Compact(y).Some?
    ensures Compact(x + y) == Some(Compact(x).value + Compact(y).value)
  {
    ChunksAppend(x, y);
  }

  lemma ChunksAppend(x: string, y: string)
    requires Chunks(x).Some? && Chunks(y).Some?
    ensures Chunks(x + y).Some? && Minutes(Chunks(x + y).value) == Minutes(Chunks(x).value) + Minutes(Chunks(y).value)
  {
    var (cs, ds) := (Chunks(x).value, Chunks(y).value);
    SpelledChunks(x);
    SpelledChunks(y);
    SpelledAppend(cs, ds);
    MinutesAppend(cs, ds);
    ChunksOfSpelled(cs + ds);
  }

  lemma {:induction false} TrimStartAppend(a: string, b: string)
    requires TrimStart(a) != []
    ensures TrimStart(a + b) == TrimStart(a) + b
  {
    if IsSpace(a[0]) {
      assert (a + b)[1..] == a[1..] + b;
      TrimStartAppend(a[1..], b);
    }
  }

  // ----------------------------------------------------------------- canonical form

  function Place(unit: char): nat { if unit == 'w' then 0 else if unit == 'd' then 1 else if unit == 'h' then 2 else 3 }

  /** How many of a unit make the next larger one. */
  function Limit(unit: char): nat { if unit == 'd' then 5 else if unit == 'h' then 8 else 60 }

  /** Units in order, each at most once and at least one of it, less than the next larger unit. */
  predicate Canonical(parts: seq<(nat, char)>) {
    && (forall k :: 0 <= k < |parts| ==> IsUnit(parts[k].1) && parts[k].0 > 0 && (parts[k].1 != 'w' ==> parts[k].0 < Limit(parts[k].1)))
    && (forall j, k :: 0 <= j < k < |parts| ==> Place(parts[j].1) < Place(parts[k].1))
  }

  lemma {:induction false} GreedyTail(rem: nat, from: nat)
    requires from <= 4 && Fits(rem, from)
    ensures Canonical(Greedy(rem, from)) && PlacesFrom(Greedy(rem, from), from)
    decreases 4 - from
  {
    if from < 4 {
      var unit := UnitAt(from);
      var (n, rest) := (Over(rem, unit), Greedy(Left(rem, unit), from + 1));
      GreedyTail(Left(rem, unit), from + 1);
      if n > 0 { CanonicalCons(n, unit, rest); } else { assert Greedy(rem, from) == rest; }
    }
  }

  lemma CanonicalCons(n: nat, unit: char, rest: seq<(nat, char)>)
    requires IsUnit(unit) && n > 0 && (unit != 'w' ==> n < Limit(unit)) && Canonical(rest) && PlacesFrom(rest, Place(unit) + 1)
    ensures Canonical([(n, unit)] + rest) && PlacesFrom([(n, unit)] + rest, Place(unit))
  {
  }

  /** What is printed for a positive number is canonical, and no other canonical parts have that sum. */
  lemma PrintedIsCanonical(n: nat, parts: seq<(nat, char)>)
    requires n > 0
    ensures Canonical(Greedy(n, 0)) && Sum(Greedy(n, 0)) == n
    ensures Canonical(parts) && Sum(parts) == n ==> parts == Greedy(n, 0)
  {
    GreedyTail(n, 0);
    GreedyParts(n, 0);
    if Canonical(parts) && Sum(parts) == n { CanonicalIsGreedy(parts, 0); }
  }

  /** What a sum of units from `from` on stays below. */
  predicate Fits(sum: nat, from: nat) {
    (from == 1 ==> sum < 2400) && (from == 2 ==> sum < 480) && (from == 3 ==> sum < 60) && (from == 4 ==> sum == 0)
  }

  predicate PlacesFrom(parts: seq<(nat, char)>, from: nat) { forall k :: 0 <= k < |parts| ==> from <= Place(parts[k].1) }

  lemma {:induction false} CanonicalIsGreedy(parts: seq<(nat, char)>, from: nat)
    requires Canonical(parts) && from <= 4 && PlacesFrom(parts, from)
    ensures parts == Greedy(Sum(parts), from) && Fits(Sum(parts), from)
    decreases 4 - from
  {
    if from < 4 {
      if parts != [] && Place(parts[0].1) == from {
        CanonicalTail(parts);
        CanonicalIsGreedy(parts[1..], from + 1);
        FirstPart(parts, from);
      } else {
        LaterPlaces(parts, from);
        CanonicalIsGreedy(parts, from + 1);
        LaterPart(parts, from);
      }
    }
  }

  lemma LaterPart(parts: seq<(nat, char)>, from: nat)
    requires from < 4 && parts == Greedy(Sum(parts), from + 1) && Fits(Sum(parts), from + 1)
    ensures parts == Greedy(Sum(parts), from) && Fits(Sum(parts), from)
  {
    GreedyOfSum(0, from, Sum(parts));
  }

  lemma FirstPart(parts: seq<(nat, char)>, from: nat)
    requires Canonical(parts) && parts != [] && Place(parts[0].1) == from
    requires parts[1..] == Greedy(Sum(parts[1..]), from + 1) && Fits(Sum(parts[1..]), from + 1)
    ensures parts == Greedy(Sum(parts), from) && Fits(Sum(parts), from)
  {
    var (n, unit, rest) := (parts[0].0, parts[0].1, Sum(parts[1..]));
    assert unit == UnitAt(from) && parts == [(n, unit)] + parts[1..];
    GreedyOfSum(n, from, rest);
    FitsMore(n, from, rest);
  }

  lemma FitsMore(n: nat, from: nat, rest: nat)
    requires from < 4 && Fits(rest, from + 1) && (from > 0 ==> n < Limit(UnitAt(from)))
    ensures Fits(Times(n, UnitAt(from)) + rest, from)
  {
  }

  lemma GreedyOfSum(n: nat, from: nat, rest: nat)
    requires from < 4 && rest < Size(UnitAt(from))
    ensures var all := Greedy(Times(n, UnitAt(from)) + rest, from);
            all == if n > 0 then [(n, UnitAt(from))] + Greedy(rest, from + 1) else Greedy(rest, from + 1)
  {
    OverOfSum(n, UnitAt(from), rest);
  }

  lemma CanonicalTail(parts: seq<(nat, char)>)
    requires Canonical(parts) && parts != []
    ensures Canonical(parts[1..]) && PlacesFrom(parts[1..], Place(parts[0].1) + 1)
  {
  }

  lemma LaterPlaces(parts: seq<(nat, char)>, from: nat)
    requires Canonical(parts) && PlacesFrom(parts, from) && (parts != [] ==> Place(parts[0].1) != from)
    ensures PlacesFrom(parts, from + 1)
  {
  }

  lemma OverOfSum(n: nat, unit: char, rest: nat)
    requires rest < Size(unit)
    ensures Over(Times(n, unit) + rest, unit) == n && Left(Times(n, unit) + rest, unit) == rest
  {
  }
}
