/**
 * CODEOWNERS patterns (apps/api/src/codeowners.ts): the compiler from a gitignore-style pattern to
 * a regular expression, the segment-level meaning of such patterns, and last-match-wins ownership.
 */
module Codeowners {
  import opened Wrappers
  import opened Strings
  import opened Regex

  // ------------------------------------------------------------ what is emitted

  /** The token emitted at the head of `p` and how much of `p` it uses; `start`: a segment starts here. */
  function First(p: string, start: bool): (r: (Token, nat))
    requires p != []
    ensures 1 <= r.1 <= |p|
  {
    if p[0] == '*' && |p| > 1 && p[1] == '*' then
      if start && |p| > 2 && p[2] == '/' then (Dirs, 3) else (Deep, 2)
    else if p[0] == '*' then (Run, 1)
    else if p[0] == '?' then (One, 1)
    else if p[0] == '[' && Close(p) < |p| then (Set(ClassBody(p[1..Close(p)])), Close(p) + 1)
    else (Lit(p[0]), 1)
  }

  /** The bracket that closes a class opened at the head of `p`, or the length of `p`. */
  function Close(p: string): (k: nat)
    ensures k <= |p| && (p != [] && p[0] == '[' ==> k > 0)
  {
    IndexOf(p, ']')
  }

  /** What is written between the brackets of the expression: a leading `!` becomes `^`. */
  function ClassBody(inner: string): string { if inner != [] && inner[0] == '!' then "^" + inner[1..] else inner }

  /** The tokens emitted for the rest `p` of a pattern. */
  function Tokens(p: string, start: bool): seq<Token> {
    if p == [] then []
    else
      var (t, n) := First(p, start);
      [t] + Tokens(p[n..], p[n - 1] == '/')
  }

  predicate AtStart(p: string, i: nat) requires i <= |p| { i == 0 || p[i - 1] == '/' }

  /** `First` as the compiler's index tests see it. */
  lemma FirstAtIndex(p: string, i: nat)
    requires i < |p|
    ensures First(p[i..], AtStart(p, i)) ==
              if p[i] == '*' && i + 1 < |p| && p[i + 1] == '*' then
                if AtStart(p, i) && i + 2 < |p| && p[i + 2] == '/' then (Dirs, 3) else (Deep, 2)
              else if p[i] == '*' then (Run, 1)
              else if p[i] == '?' then (One, 1)
              else if p[i] == '[' && Close(p[i..]) < |p| - i then (Set(ClassBody(p[i + 1..i + Close(p[i..])])), Close(p[i..]) + 1)
              else (Lit(p[i]), 1)
  {
    var q := p[i..];
    assert p[i] == '[' ==> q[1..Close(q)] == p[i + 1..i + Close(q)];
    assert q[0] == p[i] && (|q| > 1 ==> q[1] == p[i + 1]) && (|q| > 2 ==> q[2] == p[i + 2]);
  }

  ghost function Ahead(p: string, i: nat): string requires i <= |p| { Sources(Tokens(p[i..], AtStart(p, i))) }

  lemma Advance(p: string, i: nat, t: Token, n: nat)
    requires i < |p| && First(p[i..], AtStart(p, i)) == (t, n)
    ensures Ahead(p, i) == Source(t) + Ahead(p, i + n)
  {
    assert p[i..][n..] == p[i + n..];
    var rest := Tokens(p[i + n..], AtStart(p, i + n));
    assert Tokens(p[i..], AtStart(p, i)) == [t] + rest;
    SourcesCons(t, rest);
  }

  /** `body` is what the first `i` characters of the pattern compile to. */
  ghost predicate Compiled(p: string, i: nat, body: string)
    requires i <= |p|
  {
    body + Ahead(p, i) == Sources(Tokens(p, true))
  }

  lemma CompiledStarts(p: string)
    ensures Compiled(p, 0, [])
  {
    assert p[0..] == p && [] + Ahead(p, 0) == Ahead(p, 0);
  }

  lemma CompiledNext(p: string, i: nat, body: string, t: Token, n: nat)
    requires i + n <= |p| && Compiled(p, i, body) && Ahead(p, i) == Source(t) + Ahead(p, i + n)
    ensures Compiled(p, i + n, body + Source(t))
  {
    Assoc(body, Source(t), Ahead(p, i + n));
  }

  lemma CompiledEnds(p: string, body: string)
    requires Compiled(p, |p|, body)
    ensures body == Sources(Tokens(p, true))
  {
    assert p[|p|..] == [] && body + [] == body;
  }

  predicate DirOnly(pattern: string) { pattern != [] && pattern[|pattern| - 1] == '/' }

  function WithoutTrailing(pattern: string): string {
    if DirOnly(pattern) then pattern[..|pattern| - 1] else pattern
  }

  predicate Anchored(pattern: string) { '/' in WithoutTrailing(pattern) }

  function Core(pattern: string): string {
    var p := WithoutTrailing(pattern);
    if p != [] && p[0] == '/' then p[1..] else p
  }

  function Suffix(dirOnly: bool): seq<Token> { if dirOnly then [Lit('/'), Deep] else [Beneath] }

  function AllTokens(pattern: string): seq<Token> {
    (if Anchored(pattern) then [] else [Dirs]) + Tokens(Core(pattern), true) + Suffix(DirOnly(pattern))
  }

  /** `indexOf` from a position on, -1 when there is none. */
  method Find(s: string, c: char, from: nat) returns (k: int)
    requires from <= |s|
    ensures k == if IndexOf(s[from..], c) < |s| - from then from + IndexOf(s[from..], c) else -1
  {
    assert s[from..from] == [];
    for i := from to |s|
      invariant c !in s[from..i]
    {
      if s[i] == c {
        assert s[from..] == s[from..i] + [c] + s[i + 1..];
        IndexOfFirst(s[from..i], c, s[i + 1..]);
        return i;
      }
    }
    assert s[from..|s|] == s[from..];
    IndexOfNone(s[from..], c);
    return -1;
  }

  /** One turn of the loop: the token that comes next in what is ahead, and how many characters it stands for. */
  method TokenAt(p: string, i: nat) returns (token: Token, n: nat)
    requires i < |p|
    ensures 1 <= n <= |p| - i && Ahead(p, i) == Source(token) + Ahead(p, i + n)
  {
    FirstAtIndex(p, i);
    var c := p[i];
    token, n := Lit(c), 1;
    if c == '*' {
      if i + 1 < |p| && p[i + 1] == '*' {
        var atSegmentStart := i == 0 || p[i - 1] == '/';
        if atSegmentStart && i + 2 < |p| && p[i + 2] == '/' {
          token, n := Dirs, 3;
        } else {
          token, n := Deep, 2;
        }
      } else {
        token := Run;
      }
    } else if c == '?' {
      token := One;
    } else if c == '[' {
      var close := Find(p, ']', i + 1);
      CloseAhead(p, i);
      if close >= 0 {
        var inner := p[i + 1..close];
        token, n := Set(if inner != [] && inner[0] == '!' then "^" + inner[1..] else inner), close - i + 1;
      }
    }
    Advance(p, i, token, n);
  }

  lemma CloseAhead(p: string, i: nat)
    requires i < |p| && p[i] == '['
    ensures Close(p[i..]) == 1 + IndexOf(p[i + 1..], ']')
  {
    assert p[i..][1..] == p[i + 1..];
  }

  /** The loop of `compilePattern` over what is left of a pattern. */
  method CompileBody(p: string) returns (body: string)
    ensures body == Sources(Tokens(p, true))
  {
    hide *;
    body := "";
    var i := 0;
    CompiledStarts(p);
    while i < |p|
      invariant 0 <= i <= |p| && Compiled(p, i, body)
    {
      var token, n := TokenAt(p, i);
      CompiledNext(p, i, body, token, n);
      body := body + Source(token);
      i := i + n;
    }
    CompiledEnds(p, body);
  }

  /** No class of the pattern holds a backslash. */
  predicate NoEscapes(pattern: string) { Plain(AllTokens(pattern)) }

  /**
   * `compilePattern`: null exactly when nothing is left to match or a class has a range out of order, and otherwise
   * text that reads back as the tokens.
   */
  method CompilePattern(pattern: string) returns (source: Option<string>)
    requires NoEscapes(pattern)
    ensures source.None? <==> Core(pattern) == [] || !InOrder(AllTokens(pattern))
    ensures source.Some? ==> Read(source.value) == Some(ExprsOf(AllTokens(pattern)))
  {
    var p := pattern;
    var dirOnly := p != [] && p[|p| - 1] == '/';
    if dirOnly { p := p[..|p| - 1]; }
    var anchored := '/' in p;
    if p != [] && p[0] == '/' { p := p[1..]; }
    if p == [] { return None; }

    var body := CompileBody(p);
    var prefix := if anchored then "^" else "^(?:.*/)?";
    var suffix := if dirOnly then "/.*$" else "(?:/.*)?$";
    Assemble(pattern, body);
    if Read(prefix + body + suffix).None? { return None; }
    source := Some(prefix + body + suffix);
  }

  lemma Assemble(pattern: string, body: string)
    requires body == Sources(Tokens(Core(pattern), true)) && NoEscapes(pattern)
    ensures Read((if Anchored(pattern) then "^" else "^(?:.*/)?") + body + (if DirOnly(pattern) then "/.*$" else "(?:/.*)?$"))
         == if InOrder(AllTokens(pattern)) then Some(ExprsOf(AllTokens(pattern))) else None
  {
    var head: seq<Token> := if Anchored(pattern) then [] else [Dirs];
    var mid, tail := Tokens(Core(pattern), true), Suffix(DirOnly(pattern));
    SourcesAppend(head, mid);
    SourcesAppend(head + mid, tail);
    var opening, closing := if Anchored(pattern) then "" else "(?:.*/)?", if DirOnly(pattern) then "/.*" else "(?:/.*)?";
    SourceOfAffixes(pattern);
    ReadAnchored(head + mid + tail);
    AffixText(opening, body, closing);
    AffixLiterals();
  }

  lemma AffixLiterals()
    ensures "^" + "" == "^" && "^" + "(?:.*/)?" == "^(?:.*/)?"
    ensures "/.*" + "$" == "/.*$" && "(?:/.*)?" + "$" == "(?:/.*)?$"
  {
  }

  lemma AffixText(opening: string, body: string, closing: string)
    ensures "^" + (opening + body + closing) + "$" == ("^" + opening) + body + (closing + "$")
  {
  }

  lemma SourceOfAffixes(pattern: string)
    ensures Sources(Suffix(DirOnly(pattern))) == if DirOnly(pattern) then "/.*" else "(?:/.*)?"
    ensures Sources([Dirs]) == "(?:.*/)?"
  {
    assert [Lit('/'), Deep][1..] == [Deep];
    assert [Deep][1..] == [] && [Beneath][1..] == [] && [Dirs][1..] == [];
  }

  // ----------------------------------------------- what a pattern means (gitignore)

  /** One pattern segment against one path segment: `*` any run, `?` any character, a class one that it has. */
  ghost predicate SegmentMatch(g: string, t: string)
    decreases |g| + |t|
  {
    if g == [] then t == []
    else if g[0] == '*' then SegmentMatch(g[1..], t) || (t != [] && SegmentMatch(g, t[1..]))
    else if g[0] == '[' && Close(g) < |g| then
      t != [] && InClass(ClassBody(g[1..Close(g)]), t[0]) && SegmentMatch(g[Close(g) + 1..], t[1..])
    else t != [] && (g[0] == '?' || g[0] == t[0]) && SegmentMatch(g[1..], t[1..])
  }

  /** Segments a `**` or the owned subtree may span; `breaks` says whether they may hold line breaks. */
  predicate Spannable(segments: seq<string>, breaks: bool) {
    breaks || forall k :: 0 <= k < |segments| ==> Clean(segments[k])
  }

  /**
   * Pattern segments against a leading run of path segments. `**` stands for zero or more segments
   * (one or more when it comes last); what is left of the path is the owned subtree, which must be
   * non-empty for a pattern that named a directory with a trailing slash.
   */
  ghost predicate SegmentsMatch(pats: seq<string>, segs: seq<string>, dirOnly: bool, breaks: bool)
    requires pats != [] && segs != []
    decreases |pats|
  {
    if pats[0] == "**" && |pats| == 1 then
      (dirOnly ==> |segs| > 1) && Spannable(segs, breaks)
    else if pats[0] == "**" then
      exists j :: 0 <= j < |segs| && Spannable(segs[..j], breaks) && SegmentsMatch(pats[1..], segs[j..], dirOnly, breaks)
    else
      SegmentMatch(pats[0], segs[0]) &&
      if |pats| == 1 then (dirOnly ==> |segs| > 1) && Spannable(segs[1..], breaks)
      else |segs| > 1 && SegmentsMatch(pats[1..], segs[1..], dirOnly, breaks)
  }

  /** The segments of a pattern: one that is not anchored matches at any depth. */
  function PatternSegments(pattern: string): (pats: seq<string>)
    ensures pats != []
  {
    (if Anchored(pattern) then [] else ["**"]) + Split(Core(pattern), '/')
  }

  ghost predicate PatternMatch(pattern: string, path: string, breaks: bool) {
    SegmentsMatch(PatternSegments(pattern), Split(path, '/'), DirOnly(pattern), breaks)
  }

  predicate NoDoubleStar(g: string) { forall k :: 0 <= k < |g| - 1 ==> !(g[k] == '*' && g[k + 1] == '*') }

  /** `**` occurs only as a whole segment. */
  predicate WholeStars(pats: seq<string>) { forall k :: 0 <= k < |pats| ==> pats[k] == "**" || NoDoubleStar(pats[k]) }

  /** No class holds a slash, so that cutting the pattern at its slashes cuts no class. */
  predicate KeepsSegments(ts: seq<Token>) { forall t :: t in ts && t.Set? ==> '/' !in t.body }

  /** A class that has the slash meets none in the text. */
  predicate Fits(ts: seq<Token>, s: string) { forall t :: t in ts && t.Set? && InClass(t.body, '/') ==> '/' !in s }

  // ------------------------------------------------------ tokens by segment

  lemma {:induction false} IndexOfAppend(a: string, b: string, c: char)
    ensures IndexOf(a + b, c) == if IndexOf(a, c) < |a| then IndexOf(a, c) else |a| + IndexOf(b, c)
  {
    if a == [] {
      assert a + b == b;
    } else {
      assert (a + b)[1..] == a[1..] + b;
      IndexOfAppend(a[1..], b, c);
    }
  }

  lemma SlashInBody(inner: string)
    requires '/' in inner
    ensures '/' in ClassBody(inner)
  {
    if inner[0] == '!' { assert inner == [inner[0]] + inner[1..]; }
  }

  lemma SubTokens(ts: seq<Token>, more: seq<Token>, s: string)
    requires forall t :: t in more ==> t in ts
    ensures (KeepsSegments(ts) ==> KeepsSegments(more)) && (Fits(ts, s) ==> Fits(more, s))
  {
  }

  /** A class of a slash-free segment closes inside it, if it closes without a slash at all. */
  lemma ClassOfSegment(g: string, after: string, start: bool)
    requires g != [] && g[0] == '[' && '/' !in g && after != [] && after[0] == '/'
    requires First(g + after, start).0.Set? ==> '/' !in First(g + after, start).0.body
    ensures First(g + after, start) == First(g, start)
  {
    var p := g + after;
    IndexOfAppend(g, after, ']');
    assert p[0] == g[0];
    if Close(g) < |g| {
      assert p[1..Close(p)] == g[1..Close(g)];
    } else if Close(p) < |p| {
      assert p[|g|] == '/' && p[1..Close(p)][|g| - 1] == '/';
      SlashInBody(p[1..Close(p)]);
    }
  }

  /** Inside a segment the compiler never looks past the slash that ends it. */
  lemma FirstOfSegment(g: string, after: string, start: bool)
    requires g != [] && '/' !in g && NoDoubleStar(g) && after != [] && after[0] == '/'
    requires First(g + after, start).0.Set? ==> '/' !in First(g + after, start).0.body
    ensures First(g + after, start) == First(g, start)
  {
    var p := g + after;
    assert p[0] == g[0] && (|g| > 1 ==> p[1] == g[1] && !(g[0] == '*' && g[0 + 1] == '*')) && (|g| == 1 ==> p[1] == '/');
    if g[0] == '[' { ClassOfSegment(g, after, start); }
  }

  lemma TokensUnroll(p: string, start: bool)
    requires p != []
    ensures var (t, n) := First(p, start); t in Tokens(p, start) && Tokens(p, start) == [t] + Tokens(p[n..], p[n - 1] == '/')
  {
  }

  lemma NoDoubleStarTail(g: string, n: nat)
    requires n <= |g| && NoDoubleStar(g)
    ensures NoDoubleStar(g[n..])
  {
    assert forall k :: 0 <= k < |g[n..]| ==> g[n..][k] == g[k + n];
  }

  lemma TailOfSegment(g: string, after: string, n: nat)
    requires 1 <= n <= |g| && '/' !in g
    ensures (g + after)[n..] == g[n..] + after && (g + after)[n - 1] != '/' && g[n - 1] != '/'
  {
    assert g[n - 1] in g;
  }

  /** The first token of a segment, with and without what follows the segment. */
  lemma SegmentUnroll(g: string, rest: string, start: bool)
    requires g != [] && '/' !in g && NoDoubleStar(g) && KeepsSegments(Tokens(g + ("/" + rest), start))
    ensures var (t, n) := First(g, start);
      && NoDoubleStar(g[n..]) && KeepsSegments(Tokens(g[n..] + ("/" + rest), false))
      && Tokens(g + ("/" + rest), start) == [t] + Tokens(g[n..] + ("/" + rest), false)
      && Tokens(g, start) == [t] + Tokens(g[n..], false)
  {
    var p := g + ("/" + rest);
    TokensUnroll(p, start);
    FirstOfSegment(g, "/" + rest, start);
    TokensUnroll(g, start);
    var n := First(g, start).1;
    TailOfSegment(g, "/" + rest, n);
    NoDoubleStarTail(g, n);
    SubTokens(Tokens(p, start), Tokens(g[n..] + ("/" + rest), false), []);
  }

  lemma TokensOfSlash(rest: string, start: bool)
    ensures Tokens("/" + rest, start) == [Lit('/')] + Tokens(rest, true)
  {
    assert ("/" + rest)[1..] == rest;
  }

  lemma {:induction false} TokensOfSegment(g: string, rest: string, start: bool)
    requires '/' !in g && NoDoubleStar(g) && KeepsSegments(Tokens(g + ("/" + rest), start))
    ensures Tokens(g + ("/" + rest), start) == Tokens(g, start) + ([Lit('/')] + Tokens(rest, true))
    decreases |g|
  {
    if g == [] {
      assert g + ("/" + rest) == "/" + rest;
      TokensOfSlash(rest, start);
    } else {
      SegmentUnroll(g, rest, start);
      var (t, n) := First(g, start);
      TokensOfSegment(g[n..], rest, false);
      Assoc([t], Tokens(g[n..], false), [Lit('/')] + Tokens(rest, true));
    }
  }

  function SegmentTokens(pats: seq<string>, tail: seq<Token>): seq<Token>
    requires pats != []
  {
    if |pats| == 1 then Tokens(pats[0], true) + tail
    else if pats[0] == "**" then [Dirs] + SegmentTokens(pats[1..], tail)
    else Tokens(pats[0], true) + ([Lit('/')] + SegmentTokens(pats[1..], tail))
  }

  lemma TokensOfStars(rest: string)
    ensures Tokens("**/" + rest, true) == [Dirs] + Tokens(rest, true)
  {
    assert ("**/" + rest)[3..] == rest;
  }

  lemma {:induction false} TokensBySegment(pats: seq<string>, tail: seq<Token>)
    requires pats != [] && WholeStars(pats) && KeepsSegments(Tokens(Join(pats, "/"), true))
    requires forall k :: 0 <= k < |pats| ==> '/' !in pats[k]
    ensures Tokens(Join(pats, "/"), true) + tail == SegmentTokens(pats, tail)
  {
    if |pats| > 1 {
      var rest := Join(pats[1..], "/");
      if pats[0] == "**" {
        Assoc("**", "/", rest);
        assert "**" + "/" == "**/";
        TokensOfStars(rest);
        SubTokens(Tokens(Join(pats, "/"), true), Tokens(rest, true), []);
        TokensBySegment(pats[1..], tail);
        Assoc([Dirs], Tokens(rest, true), tail);
      } else {
        Assoc(pats[0], "/", rest);
        TokensOfSegment(pats[0], rest, true);
        SubTokens(Tokens(Join(pats, "/"), true), Tokens(rest, true), []);
        TokensBySegment(pats[1..], tail);
        Assoc(Tokens(pats[0], true), [Lit('/')] + Tokens(rest, true), tail);
        Assoc([Lit('/')], Tokens(rest, true), tail);
      }
    }
  }

  /** The splits of `s` that give the segment `g` its head and `ts` the rest. */
  ghost predicate SegmentEnds(g: string, ts: seq<Token>, s: string, k: int) {
    0 <= k <= |s| && NoSlash(s[..k]) && SegmentMatch(g, s[..k]) && TokensMatch(ts, s[k..])
  }

  /** The characters that a token of one character takes. */
  predicate Takes(t: Token, c: char) {
    match t
    case Lit(x) => c == x
    case One => c != '/'
    case Set(body) => InClass(body, c)
    case _ => false
  }

  lemma TakesOne(t: Token, ts: seq<Token>, s: string)
    requires t.Lit? || t.One? || t.Set?
    ensures TokensMatch([t] + ts, s) <==> s != [] && Takes(t, s[0]) && TokensMatch(ts, s[1..])
  {
    assert ([t] + ts)[1..] == ts;
  }

  lemma SegmentHead(g: string, start: bool, s: string)
    requires g != [] && g[0] != '*' && s != [] && s[0] != '/'
    ensures var (t, n) := First(g, start);
      (t.Lit? || t.One? || t.Set?) && (SegmentMatch(g, s) <==> Takes(t, s[0]) && SegmentMatch(g[n..], s[1..]))
  {
  }

  lemma TakesNoSlash(g: string, start: bool, s: string)
    requires g != [] && '/' !in g && g[0] != '*' && s != [] && Fits([First(g, start).0], s) && Takes(First(g, start).0, s[0])
    ensures s[0] != '/'
  {
    var t := First(g, start).0;
    assert t in [t] && g[0] in g;
  }

  lemma CharEnds(g: string, start: bool, ts: seq<Token>, s: string, k: int)
    requires g != [] && '/' !in g && g[0] != '*' && s != [] && Fits([First(g, start).0], s) && 0 < k <= |s|
    ensures var (t, n) := First(g, start);
      SegmentEnds(g, ts, s, k) <==> Takes(t, s[0]) && SegmentEnds(g[n..], ts, s[1..], k - 1)
  {
    Shift(g, ts, s);
    if Takes(First(g, start).0, s[0]) { TakesNoSlash(g, start, s); }
    if s[0] != '/' { SegmentHead(g, start, s[..k]); }
  }

  lemma NoCharNoEnd(g: string, start: bool, ts: seq<Token>, s: string)
    requires g != [] && g[0] != '*'
    ensures !SegmentEnds(g, ts, s, 0) && (First(g, start).0.Lit? || First(g, start).0.One? || First(g, start).0.Set?)
  {
  }

  lemma SegmentUnrolls(g: string, start: bool, ts: seq<Token>)
    requires g != [] && '/' !in g
    ensures var (t, n) := First(g, start); Tokens(g, start) + ts == [t] + (Tokens(g[n..], false) + ts)
  {
    var (t, n) := First(g, start);
    assert g[n - 1] in g;
    Assoc([t], Tokens(g[n..], false), ts);
  }

  /** A token of one character in front of a segment. */
  lemma CharInFront(g: string, start: bool, ts: seq<Token>, s: string)
    requires g != [] && '/' !in g && g[0] != '*' && s != [] && Fits([First(g, start).0], s)
    requires var (t, n) := First(g, start);
             TokensMatch(Tokens(g[n..], false) + ts, s[1..]) <==> exists k :: SegmentEnds(g[n..], ts, s[1..], k)
    ensures TokensMatch(Tokens(g, start) + ts, s) <==> exists k :: SegmentEnds(g, ts, s, k)
  {
    hide *;
    var (t, n) := First(g, start);
    NoCharNoEnd(g, start, ts, s);
    SegmentUnrolls(g, start, ts);
    TakesOne(t, Tokens(g[n..], false) + ts, s);
    if k :| SegmentEnds(g[n..], ts, s[1..], k) {
      EndsWithin(g[n..], ts, s[1..], k);
      CharEnds(g, start, ts, s, k + 1);
    }
    if k :| SegmentEnds(g, ts, s, k) {
      EndsWithin(g, ts, s, k);
      CharEnds(g, start, ts, s, k);
    }
  }

  lemma EndsWithin(g: string, ts: seq<Token>, s: string, k: int)
    requires SegmentEnds(g, ts, s, k)
    ensures 0 <= k <= |s|
  {
  }

  lemma StarEnds(g: string, ts: seq<Token>, s: string, k: int)
    requires g != [] && g[0] == '*' && s != [] && 0 <= k <= |s|
    ensures SegmentEnds(g, ts, s, k) <==> SegmentEnds(g[1..], ts, s, k) || (k > 0 && s[0] != '/' && SegmentEnds(g, ts, s[1..], k - 1))
  {
    Shift(g, ts, s);
    if k > 0 { assert s[..k] == [s[0]] + s[1..][..k - 1]; }
  }

  lemma RunTaken(ts: seq<Token>, s: string)
    ensures TokensMatch([Run] + ts, s) <==> TokensMatch(ts, s) || (s != [] && s[0] != '/' && TokensMatch([Run] + ts, s[1..]))
  {
    assert ([Run] + ts)[1..] == ts;
  }

  lemma StarIsRun(g: string, start: bool)
    requires g != [] && NoDoubleStar(g) && g[0] == '*'
    ensures First(g, start) == (Run, 1)
  {
    assert |g| > 1 ==> !(g[0] == '*' && g[0 + 1] == '*');
  }

  lemma StarInFront(g: string, start: bool, ts: seq<Token>, s: string)
    requires g != [] && '/' !in g && NoDoubleStar(g) && g[0] == '*' && s != []
    requires TokensMatch(Tokens(g[1..], false) + ts, s) <==> exists k :: SegmentEnds(g[1..], ts, s, k)
    requires TokensMatch(Tokens(g, start) + ts, s[1..]) <==> exists k :: SegmentEnds(g, ts, s[1..], k)
    ensures TokensMatch(Tokens(g, start) + ts, s) <==> exists k :: SegmentEnds(g, ts, s, k)
  {
    hide *;
    StarIsRun(g, start);
    SegmentUnrolls(g, start, ts);
    RunTaken(Tokens(g[1..], false) + ts, s);
    if k :| SegmentEnds(g, ts, s[1..], k) {
      EndsWithin(g, ts, s[1..], k);
      StarEnds(g, ts, s, k + 1);
    }
    if k :| SegmentEnds(g[1..], ts, s, k) {
      EndsWithin(g[1..], ts, s, k);
      StarEnds(g, ts, s, k);
    }
    if k :| SegmentEnds(g, ts, s, k) {
      EndsWithin(g, ts, s, k);
      StarEnds(g, ts, s, k);
    }
  }

  /** Where the text is used up, only stars can match. */
  lemma {:induction false} SegmentAtEnd(g: string, start: bool, ts: seq<Token>)
    requires '/' !in g && NoDoubleStar(g)
    ensures TokensMatch(Tokens(g, start) + ts, []) <==> SegmentEnds(g, ts, [], 0)
    decreases |g|
  {
    if g == [] {
      assert Tokens(g, start) + ts == ts;
    } else {
      var (t, n) := First(g, start);
      var after := Tokens(g[n..], g[n - 1] == '/') + ts;
      assert g[n - 1] in g;
      assert Tokens(g, start) + ts == [t] + after && ([t] + after)[1..] == after;
      if g[0] == '*' {
        NoDoubleStarTail(g, 1);
        SegmentAtEnd(g[1..], false, ts);
      }
    }
  }

  lemma {:induction false} SegmentTokensMatch(g: string, start: bool, ts: seq<Token>, s: string)
    requires '/' !in g && NoDoubleStar(g) && Fits(Tokens(g, start), s)
    ensures TokensMatch(Tokens(g, start) + ts, s) <==> exists k :: SegmentEnds(g, ts, s, k)
    decreases |g| + |s|
  {
    assert s[0..] == s && s[..0] == [];
    if g == [] {
      assert Tokens(g, start) + ts == ts;
      assert TokensMatch(ts, s) <==> SegmentEnds(g, ts, s, 0);
    } else if s == [] {
      SegmentAtEnd(g, start, ts);
    } else {
      var (t, n) := First(g, start);
      NoDoubleStarTail(g, n);
      assert g[n - 1] in g && Tokens(g, start) == [t] + Tokens(g[n..], false);
      SubTokens(Tokens(g, start), [t], s);
      SubTokens(Tokens(g, start), Tokens(g[n..], false), s);
      assert '/' !in s ==> '/' !in s[1..];
      if g[0] == '*' {
        SegmentTokensMatch(g[1..], false, ts, s);
        SegmentTokensMatch(g, start, ts, s[1..]);
        StarInFront(g, start, ts, s);
      } else {
        SegmentTokensMatch(g[n..], false, ts, s[1..]);
        CharInFront(g, start, ts, s);
      }
    }
  }

  /** Splits of `s[1..]` are the splits of `s` that leave its first character on the left. */
  lemma Shift(g: string, ts: seq<Token>, s: string)
    requires s != []
    ensures forall k :: 0 <= k < |s| ==> s[1..][..k] == s[..k + 1][1..] && s[1..][k..] == s[k + 1..] && s[..k + 1] == [s[0]] + s[1..][..k]
    ensures forall k :: 0 < k <= |s| ==> s[..k] == [s[0]] + s[1..][..k - 1] && s[..k][1..] == s[1..][..k - 1] && s[k..] == s[1..][k - 1..]
  {
  }

  // --------------------------------------------------- paths and their segments

  lemma Cut(s: string, k: nat)
    requires k < |s| && s[k] == '/'
    ensures Split(s, '/') == Split(s[..k], '/') + Split(s[k + 1..], '/')
  {
    assert s == s[..k] + ['/'] + s[k + 1..];
    SplitAtSeparator(s[..k], s[k + 1..], '/');
  }

  /** `k` is the slash after the first `j` segments. */
  predicate Cuts(s: string, j: nat, k: nat) {
    && k < |s| && s[k] == '/' && j < |Split(s, '/')|
    && Split(s[..k], '/') == Split(s, '/')[..j] && Split(s[k + 1..], '/') == Split(s, '/')[j..]
  }

  lemma CutsLater(s: string, j: nat, k: nat)
    requires s != [] && j >= 1 && Cuts(s[1..], j, k)
    ensures Cuts(s, if s[0] == '/' then j + 1 else j, k + 1)
  {
    var left, rest := s[1..][..k], Split(s[1..], '/');
    assert s[k + 2..] == s[1..][k + 1..] && s[..k + 1][1..] == left && s[..k + 1][0] == s[0];
    if s[0] == '/' {
      assert ([[]] + rest)[..j + 1] == [[]] + rest[..j];
      assert ([[]] + rest)[j + 1..] == rest[j..];
    } else {
      assert Split(left, '/')[0] == rest[0] && Split(left, '/')[1..] == rest[1..j];
    }
  }

  /** Where the first `j` segments of a path end. */
  lemma {:induction false} SplitAt(s: string, j: nat) returns (k: nat)
    requires 1 <= j < |Split(s, '/')|
    ensures k < |s| && s[k] == '/'
    ensures Split(s[..k], '/') == Split(s, '/')[..j] && Split(s[k + 1..], '/') == Split(s, '/')[j..]
  {
    if s[0] == '/' && j == 1 {
      k := 0;
      assert [[]] + Split(s[1..], '/') == Split(s, '/');
    } else {
      var j' := if s[0] == '/' then j - 1 else j;
      var k' := SplitAt(s[1..], j');
      CutsLater(s, j', k');
      k := k' + 1;
    }
  }

  lemma CleanCons(c: char, s: string)
    ensures Clean([c] + s) <==> !IsLineBreak(c) && Clean(s)
  {
    assert forall k :: 0 <= k < |s| ==> ([c] + s)[k + 1] == s[k];
    assert ([c] + s)[0] == c;
  }

  lemma {:induction false} CleanPieces(s: string)
    ensures Clean(s) <==> Spannable(Split(s, '/'), false)
  {
    if s != [] {
      CleanPieces(s[1..]);
      var rest, all := Split(s[1..], '/'), Split(s, '/');
      CleanCons(s[0], s[1..]);
      assert [s[0]] + s[1..] == s;
      if s[0] == '/' {
        assert all[1..] == rest;
        assert forall k :: 0 <= k < |rest| ==> rest[k] == all[k + 1];
      } else {
        assert forall k :: 1 <= k < |rest| ==> rest[k] == all[k];
        assert all[0] == [s[0]] + rest[0];
        CleanCons(s[0], rest[0]);
      }
    }
  }

  predicate OwnedTail(s: string, dirOnly: bool) {
    if s == [] then !dirOnly else s[0] == '/' && Clean(s[1..])
  }

  lemma SuffixMatches(s: string, dirOnly: bool)
    ensures TokensMatch(Suffix(dirOnly), s) <==> OwnedTail(s, dirOnly)
  {
    assert [Lit('/'), Deep][1..] == [Deep] && [Deep] + [] == [Deep] && [Beneath][1..] == [];
    if s != [] {
      DeepSplits([], s[1..]);
      assert s[1..][..|s| - 1] == s[1..];
      assert TokensMatch([Deep], s[1..]) <==> Clean(s[1..]);
    }
  }

  /** The last segment of a pattern, and what it owns below. */
  lemma LastSegment(g: string, s: string, dirOnly: bool)
    requires '/' !in g && NoDoubleStar(g) && Fits(Tokens(g, true), s)
    ensures TokensMatch(Tokens(g, true) + Suffix(dirOnly), s) <==> SegmentsMatch([g], Split(s, '/'), dirOnly, false)
  {
    var tail, segs := Suffix(dirOnly), Split(s, '/');
    SegmentTokensMatch(g, true, tail, s);
    if k :| SegmentEnds(g, tail, s, k) {
      SuffixMatches(s[k..], dirOnly);
      SplitNoSep(s[..k], '/');
      if k == |s| {
        assert s[..k] == s;
      } else {
        Cut(s, k);
        CleanPieces(s[k + 1..]);
        assert s[k..][1..] == s[k + 1..];
        assert segs[1..] == Split(s[k + 1..], '/');
      }
    }
    if SegmentsMatch([g], segs, dirOnly, false) {
      var k: nat;
      if |segs| == 1 {
        k := |s|;
        JoinSplit(s, '/');
        assert s[..k] == s == segs[0];
      } else {
        k := SplitAt(s, 1);
        OneSegment(s[..k], segs[0]);
        CleanPieces(s[k + 1..]);
        assert s[k..][1..] == s[k + 1..];
      }
      PiecesHaveNoSep(s, '/', 0);
      SuffixMatches(s[k..], dirOnly);
      assert SegmentEnds(g, tail, s, k);
    }
  }

  lemma OneSegment(s: string, g: string)
    requires Split(s, '/') == [g]
    ensures s == g
  {
    JoinSplit(s, '/');
  }

  /** A trailing `**`, and what it owns below. */
  lemma LastStars(s: string, dirOnly: bool)
    ensures TokensMatch([Deep] + Suffix(dirOnly), s) <==> SegmentsMatch(["**"], Split(s, '/'), dirOnly, false)
  {
    var tail, segs := Suffix(dirOnly), Split(s, '/');
    DeepSplits(tail, s);
    CleanPieces(s);
    if k :| 0 <= k <= |s| && Clean(s[..k]) && TokensMatch(tail, s[k..]) {
      SuffixMatches(s[k..], dirOnly);
      if k < |s| {
        Cut(s, k);
        assert forall i :: 0 <= i < |s| ==> s[i] == if i < k then s[..k][i] else if i == k then '/' else s[k..][1..][i - k - 1];
      } else {
        assert s[..k] == s;
      }
    }
    if SegmentsMatch(["**"], segs, dirOnly, false) {
      var k: nat;
      if dirOnly { k := SplitAt(s, 1); } else { k := |s|; }
      SuffixMatches(s[k..], dirOnly);
      assert Clean(s[..k]) && TokensMatch(tail, s[k..]);
    }
  }

  /** From any place on, the tokens accept the rest of the path exactly when the segments do. */
  ghost predicate AgreeFrom(ts: seq<Token>, pats: seq<string>, s: string, dirOnly: bool)
    requires pats != []
  {
    forall k :: 0 <= k <= |s| ==> AgreeOn(ts, pats, s[k..], dirOnly)
  }

  ghost predicate AgreeOn(ts: seq<Token>, pats: seq<string>, s: string, dirOnly: bool)
    requires pats != []
  {
    TokensMatch(ts, s) <==> SegmentsMatch(pats, Split(s, '/'), dirOnly, false)
  }

  /** The emitted tokens accept a path exactly when the segments do. */
  lemma {:induction false} TokensAreSegments(pats: seq<string>, s: string, dirOnly: bool)
    requires pats != [] && WholeStars(pats) && Fits(SegmentTokens(pats, Suffix(dirOnly)), s)
    requires forall k :: 0 <= k < |pats| ==> '/' !in pats[k]
    ensures AgreeOn(SegmentTokens(pats, Suffix(dirOnly)), pats, s, dirOnly)
    decreases |pats|
  {
    var more, all := pats[1..], SegmentTokens(pats, Suffix(dirOnly));
    if |pats| == 1 {
      assert pats == [pats[0]];
      if pats[0] == "**" {
        assert "**"[2..] == [];
        assert Tokens("**", true) == [Deep];
        LastStars(s, dirOnly);
      } else {
        SubTokens(all, Tokens(pats[0], true), s);
        LastSegment(pats[0], s, dirOnly);
      }
    } else {
      var ts := SegmentTokens(more, Suffix(dirOnly));
      SubTokens(all, ts, s);
      forall k | 0 <= k <= |s| ensures AgreeOn(ts, more, s[k..], dirOnly) {
        assert '/' !in s ==> '/' !in s[k..];
        TokensAreSegments(more, s[k..], dirOnly);
      }
      if pats[0] == "**" {
        StarsFirst(pats, ts, s, dirOnly);
      } else {
        SubTokens(all, Tokens(pats[0], true), s);
        SegmentFirst(pats, ts, s, dirOnly);
      }
    }
  }

  /** A `**` in front: the run of segments it stands for. */
  lemma StarsFirst(pats: seq<string>, ts: seq<Token>, s: string, dirOnly: bool)
    requires |pats| > 1 && pats[0] == "**" && AgreeFrom(ts, pats[1..], s, dirOnly)
    ensures AgreeOn([Dirs] + ts, pats, s, dirOnly)
  {
    var segs := Split(s, '/');
    DirsSplits(ts, s);
    assert s[0..] == s && AgreeOn(ts, pats[1..], s[0..], dirOnly);
    assert segs[0..] == segs && segs[..0] == [];
    if k :| DirsEnd(ts, s, k) {
      assert AgreeOn(ts, pats[1..], s[k + 1..], dirOnly);
      Cut(s, k);
      CleanPieces(s[..k]);
      var j := |Split(s[..k], '/')|;
      assert segs[..j] == Split(s[..k], '/') && segs[j..] == Split(s[k + 1..], '/');
    }
    if j :| 1 <= j < |segs| && Spannable(segs[..j], false) && SegmentsMatch(pats[1..], segs[j..], dirOnly, false) {
      var k := SplitAt(s, j);
      assert AgreeOn(ts, pats[1..], s[k + 1..], dirOnly);
      CleanPieces(s[..k]);
      assert DirsEnd(ts, s, k);
    }
  }

  /** An ordinary segment in front, and the slash after it. */
  lemma SegmentFirst(pats: seq<string>, ts: seq<Token>, s: string, dirOnly: bool)
    requires |pats| > 1 && pats[0] != "**" && '/' !in pats[0] && NoDoubleStar(pats[0])
    requires AgreeFrom(ts, pats[1..], s, dirOnly) && Fits(Tokens(pats[0], true), s)
    ensures AgreeOn(Tokens(pats[0], true) + ([Lit('/')] + ts), pats, s, dirOnly)
  {
    var segs, after := Split(s, '/'), [Lit('/')] + ts;
    assert after[1..] == ts;
    SegmentTokensMatch(pats[0], true, after, s);
    if k :| SegmentEnds(pats[0], after, s, k) {
      assert s[k..][1..] == s[k + 1..] && AgreeOn(ts, pats[1..], s[k + 1..], dirOnly);
      Cut(s, k);
      SplitNoSep(s[..k], '/');
      assert segs[1..] == Split(s[k + 1..], '/');
    }
    if SegmentsMatch(pats, segs, dirOnly, false) {
      var k := SplitAt(s, 1);
      OneSegment(s[..k], segs[0]);
      PiecesHaveNoSep(s, '/', 0);
      assert s[k..][1..] == s[k + 1..] && AgreeOn(ts, pats[1..], s[k + 1..], dirOnly);
      assert SegmentEnds(pats[0], after, s, k);
    }
  }

  lemma DepthTokens(pats: seq<string>, core: seq<Token>, tail: seq<Token>)
    requires pats != [] && core + tail == SegmentTokens(pats, tail)
    ensures [Dirs] + core + tail == SegmentTokens(["**"] + pats, tail)
  {
    assert (["**"] + pats)[1..] == pats;
    Assoc([Dirs], core, tail);
  }

  /** `**` only as a whole segment, and no class that holds a slash. */
  predicate BySegments(pattern: string) { WholeStars(Split(Core(pattern), '/')) && KeepsSegments(AllTokens(pattern)) }

  lemma PatternTokens(pattern: string)
    requires BySegments(pattern)
    ensures AllTokens(pattern) == SegmentTokens(PatternSegments(pattern), Suffix(DirOnly(pattern)))
  {
    var core, pats, tail := Core(pattern), Split(Core(pattern), '/'), Suffix(DirOnly(pattern));
    PiecesWithoutSlash(core);
    JoinSplit(core, '/');
    SubTokens(AllTokens(pattern), Tokens(core, true), []);
    TokensBySegment(pats, tail);
    if Anchored(pattern) {
      assert [] + pats == pats && [] + Tokens(core, true) == Tokens(core, true);
    } else {
      DepthTokens(pats, Tokens(core, true), tail);
    }
  }

  lemma PiecesWithoutSlash(s: string)
    ensures forall k :: 0 <= k < |Split(s, '/')| ==> '/' !in Split(s, '/')[k]
  {
    forall k | 0 <= k < |Split(s, '/')| ensures '/' !in Split(s, '/')[k] { PiecesHaveNoSep(s, '/', k); }
  }

  /**
   * What `compilePattern` builds accepts a path exactly when the gitignore segments do, where a span stops at a line
   * break, on every path in which no class of the pattern meets a slash it has.
   */
  lemma CompiledMeansSegments(pattern: string, path: string)
    requires BySegments(pattern) && Fits(AllTokens(pattern), path)
    ensures Matches(ExprsOf(AllTokens(pattern)), path) <==> PatternMatch(pattern, path, false)
  {
    PatternTokens(pattern);
    PiecesWithoutSlash(Core(pattern));
    NoEarlyBeneath(pattern);
    TokensSpell(AllTokens(pattern), path);
    TokensAreSegments(PatternSegments(pattern), path, DirOnly(pattern));
  }

  lemma {:induction false} TokensNeverBeneath(p: string, start: bool)
    ensures Beneath !in Tokens(p, start)
  {
    if p != [] {
      var (t, n) := First(p, start);
      TokensNeverBeneath(p[n..], p[n - 1] == '/');
    }
  }

  lemma NoEarlyBeneath(pattern: string)
    ensures forall i :: 0 <= i < |AllTokens(pattern)| - 1 ==> AllTokens(pattern)[i] != Beneath
  {
    TokensNeverBeneath(Core(pattern), true);
  }

  // ------------------------------------------------ readings of the segment meaning

  /** A slash-free pattern names some segment: any one, or any but the last when it ended in a slash. */
  lemma SlashFreeMatchesAnySegment(pattern: string, path: string)
    requires !Anchored(pattern) && Core(pattern) != "**"
    ensures PatternMatch(pattern, path, true) <==> exists j :: NamesSegment(pattern, path, j)
  {
    var segs, core := Split(path, '/'), Core(pattern);
    SplitNoSep(core, '/');
    var pats := ["**"] + [core];
    assert PatternSegments(pattern) == pats && pats[1..] == [core];
    if j :| NamesSegment(pattern, path, j) {
      assert segs[j..][0] == segs[j];
      assert SegmentsMatch([core], segs[j..], DirOnly(pattern), true);
      assert Spannable(segs[..j], true) && SegmentsMatch(pats[1..], segs[j..], DirOnly(pattern), true);
      assert SegmentsMatch(pats, segs, DirOnly(pattern), true);
    }
    if PatternMatch(pattern, path, true) {
      var j :| 0 <= j < |segs| && Spannable(segs[..j], true) && SegmentsMatch([core], segs[j..], DirOnly(pattern), true);
      assert NamesSegment(pattern, path, j);
    }
  }

  ghost predicate NamesSegment(pattern: string, path: string, j: int) {
    var segs := Split(path, '/');
    0 <= j < |segs| && SegmentMatch(Core(pattern), segs[j]) && (DirOnly(pattern) ==> j < |segs| - 1)
  }

  lemma {:induction false} SpansWithoutBreaks(pats: seq<string>, segs: seq<string>, dirOnly: bool)
    requires pats != [] && segs != []
    ensures SegmentsMatch(pats, segs, dirOnly, false) ==> SegmentsMatch(pats, segs, dirOnly, true)
    ensures Spannable(segs, false) ==> (SegmentsMatch(pats, segs, dirOnly, true) <==> SegmentsMatch(pats, segs, dirOnly, false))
    decreases |pats|
  {
    if |pats| > 1 && pats[0] == "**" {
      forall j | 0 <= j < |segs|
        ensures SegmentsMatch(pats[1..], segs[j..], dirOnly, false) ==> SegmentsMatch(pats[1..], segs[j..], dirOnly, true)
        ensures Spannable(segs, false) ==> Spannable(segs[..j], false)
        ensures Spannable(segs, false) && SegmentsMatch(pats[1..], segs[j..], dirOnly, true) ==> SegmentsMatch(pats[1..], segs[j..], dirOnly, false)
      {
        SpansWithoutBreaks(pats[1..], segs[j..], dirOnly);
      }
    } else if |pats| > 1 && |segs| > 1 {
      SpansWithoutBreaks(pats[1..], segs[1..], dirOnly);
    }
  }

  /** No class of the pattern has the slash. */
  predicate SlashProof(pattern: string) { forall t :: t in AllTokens(pattern) && t.Set? ==> !InClass(t.body, '/') }

  /** The compiled pattern means on the path what its segments mean. */
  ghost predicate MeansSegments(pattern: string, path: string) {
    Matches(ExprsOf(AllTokens(pattern)), path) <==> PatternMatch(pattern, path, true)
  }

  lemma CleanMeansSegments(pattern: string, path: string)
    requires BySegments(pattern) && Fits(AllTokens(pattern), path) && Clean(path)
    ensures MeansSegments(pattern, path)
  {
    CleanPieces(path);
    CompiledMeansSegments(pattern, path);
    SpansWithoutBreaks(PatternSegments(pattern), Split(path, '/'), DirOnly(pattern));
  }

  lemma BreaksLoseAnything(path: string)
    ensures BySegments("/**") && SlashProof("/**") && (MeansSegments("/**", path) <==> Clean(path))
  {
    AnythingPattern();
    CleanPieces(path);
    CompiledMeansSegments("/**", path);
    assert PatternMatch("/**", path, true) && (PatternMatch("/**", path, false) <==> Clean(path));
  }

  /**
   * `.` stops at a line terminator, so a path holding one can fall outside the subtree a pattern owns.
   * The compiled patterns without a class that has the slash have their gitignore meaning on a path, all of them,
   * exactly when it holds none.
   */
  lemma LineBreaksAreTheOnlyGap(path: string)
    ensures Clean(path) <==> forall pattern: string :: BySegments(pattern) && SlashProof(pattern) ==> MeansSegments(pattern, path)
  {
    BreaksLoseAnything(path);
    if Clean(path) {
      forall pattern: string | BySegments(pattern) && SlashProof(pattern) ensures MeansSegments(pattern, path) {
        CleanMeansSegments(pattern, path);
      }
    }
  }

  lemma AnythingPattern()
    ensures !DirOnly("/**") && Core("/**") == "**" && PatternSegments("/**") == ["**"] && WholeStars(Split(Core("/**"), '/'))
    ensures AllTokens("/**") == [Deep, Beneath]
  {
    assert "/**"[1..] == "**" && "**"[2..] == [];
    SplitNoSep("**", '/');
    assert [] + ["**"] == ["**"];
    assert Tokens("**", true) == [Deep] + Tokens([], false) == [Deep];
  }

  // ---------------------------------------------------------- classes and slashes

  /** The pattern that asks for one character for each of the path's, a class without `a` where the path has a slash. */
  function Mask(path: string): string {
    if path == [] then [] else (if path[0] == '/' then "[!a]" else "?") + Mask(path[1..])
  }

  function MaskTokens(path: string): seq<Token> {
    if path == [] then [] else [if path[0] == '/' then Set("^a") else One] + MaskTokens(path[1..])
  }

  lemma NotA()
    ensures InClass("^a", '/') && ClassBody("!a") == "^a"
  {
    assert Items("^a") == "a" && "a"[1..] == [] && Ranges([]) == Some([]) && [('a', 'a')] + [] == [('a', 'a')];
    assert Ranges("a") == Some([('a', 'a')]);
    assert "!a"[1..] == "a" && "^" + "a" == "^a";
  }

  lemma {:induction false} MaskReads(path: string, start: bool)
    ensures Tokens(Mask(path), start) == MaskTokens(path)
  {
    if path != [] {
      MaskReads(path[1..], false);
      if path[0] == '/' { FirstOfMask(Mask(path[1..]), start); } else { assert Mask(path)[1..] == Mask(path[1..]); }
    }
  }

  lemma {:induction false} MaskShape(path: string)
    ensures forall c :: c in Mask(path) ==> c in "[!a]?"
    ensures path != [] ==> Mask(path) != []
  {
    if path != [] { MaskShape(path[1..]); }
  }

  lemma MaskSegment(path: string)
    requires path != []
    ensures '/' !in Mask(path) && NoDoubleStar(Mask(path)) && Mask(path) != []
  {
    MaskShape(path);
    assert forall k :: 0 <= k < |Mask(path)| ==> Mask(path)[k] in Mask(path);
  }

  lemma FirstOfMask(rest: string, start: bool)
    ensures First("[!a]" + rest, start) == (Set("^a"), 4) && ("[!a]" + rest)[4..] == rest
  {
    var p := "[!a]" + rest;
    NotA();
    assert p == "[!a" + [']'] + rest;
    IndexOfFirst("[!a", ']', rest);
    assert p[1..3] == "!a";
  }

  lemma {:induction false} MaskMatches(path: string)
    ensures TokensMatch(MaskTokens(path) + [Beneath], path)
  {
    var ts := MaskTokens(path) + [Beneath];
    if path == [] {
      assert ts == [Beneath] && [Beneath][1..] == [];
    } else {
      assert ts[1..] == MaskTokens(path[1..]) + [Beneath];
      MaskMatches(path[1..]);
      NotA();
    }
  }

  /** As a segment the mask only takes texts as long as the path. */
  lemma {:induction false} MaskLength(path: string, t: string)
    requires SegmentMatch(Mask(path), t)
    ensures |t| == |path|
  {
    if path != [] {
      if path[0] == '/' { FirstOfMask(Mask(path[1..]), true); } else { assert Mask(path)[1..] == Mask(path[1..]); }
      MaskLength(path[1..], t[1..]);
    }
  }

  function MaskPattern(path: string): string { "/" + Mask(path) }

  lemma SlashedCore(mask: string)
    requires mask != [] && '/' !in mask
    ensures Core("/" + mask) == mask && !DirOnly("/" + mask) && Anchored("/" + mask)
  {
    var pattern := "/" + mask;
    assert pattern[1..] == mask && pattern[0] == '/' && pattern[|pattern| - 1] == mask[|mask| - 1] && mask[|mask| - 1] in mask;
  }

  lemma MaskPatternIs(path: string)
    requires path != []
    ensures var pattern := MaskPattern(path);
      && Core(pattern) == Mask(path) && !DirOnly(pattern) && Anchored(pattern)
      && Split(Mask(path), '/') == [Mask(path)] && PatternSegments(pattern) == [Mask(path)]
  {
    MaskSegment(path);
    SlashedCore(Mask(path));
    SplitNoSep(Mask(path), '/');
    assert [] + [Mask(path)] == [Mask(path)];
  }

  lemma MaskPatternTokens(path: string)
    requires path != []
    ensures AllTokens(MaskPattern(path)) == MaskTokens(path) + [Beneath] && BySegments(MaskPattern(path))
  {
    MaskPatternIs(path);
    MaskReads(path, true);
    MaskSegment(path);
    MaskKeepsSegments(path);
    assert [] + MaskTokens(path) == MaskTokens(path);
  }

  /** A path with a slash: the anchored mask is compiled to an expression that has it, and is a single segment. */
  lemma MaskCrossesSlash(path: string)
    requires '/' in path
    ensures BySegments(MaskPattern(path)) && !MeansSegments(MaskPattern(path), path)
  {
    MaskPatternTokens(path);
    MaskMatches(path);
    NoEarlyBeneath(MaskPattern(path));
    TokensSpell(AllTokens(MaskPattern(path)), path);
    NotByMask(path);
  }

  lemma OnlySegment(pattern: string, g: string, path: string)
    requires PatternSegments(pattern) == [g] && NoDoubleStar(g) && PatternMatch(pattern, path, true)
    ensures SegmentMatch(g, Split(path, '/')[0])
  {
    StarsAreDouble();
  }

  lemma StarsAreDouble()
    ensures !NoDoubleStar("**")
  {
    assert "**"[0] == '*' && "**"[0 + 1] == '*';
  }

  lemma NotByMask(path: string)
    requires '/' in path
    ensures !PatternMatch(MaskPattern(path), path, true)
  {
    hide *;
    MaskPatternIs(path);
    MaskSegment(path);
    FirstIsShorter(path);
    if PatternMatch(MaskPattern(path), path, true) {
      OnlySegment(MaskPattern(path), Mask(path), path);
      MaskLength(path, Split(path, '/')[0]);
    }
  }

  lemma {:induction false} MaskKeepsSegments(path: string)
    ensures KeepsSegments(MaskTokens(path) + [Beneath])
  {
    if path != [] {
      MaskKeepsSegments(path[1..]);
      assert MaskTokens(path) + [Beneath] == [MaskTokens(path)[0]] + (MaskTokens(path[1..]) + [Beneath]);
    }
  }

  lemma {:induction false} FirstIsShorter(path: string)
    requires '/' in path
    ensures |Split(path, '/')[0]| < |path|
  {
    if path[0] != '/' { FirstIsShorter(path[1..]); }
  }

  /**
   * A negated class has the slash, which no gitignore class does. All compiled patterns, classes included, have their
   * gitignore meaning on a path exactly when it holds no line break and lies at the top level.
   */
  lemma ClassesCrossSlashes(path: string)
    ensures Clean(path) && NoSlash(path) <==> forall pattern: string :: BySegments(pattern) ==> MeansSegments(pattern, path)
  {
    BreaksLoseAnything(path);
    if '/' in path { MaskCrossesSlash(path); }
    if Clean(path) && NoSlash(path) {
      forall pattern: string | BySegments(pattern) ensures MeansSegments(pattern, path) { CleanMeansSegments(pattern, path); }
    }
  }

  // ------------------------------------------------------------------ ownership

  datatype Rule = Rule(pattern: string, owners: seq<string>, negated: bool, match_: Expr)

  /** A rule as `parseCodeowners` leaves it, with the matcher that `compilePattern` built, and a meaning by segments. */
  predicate ValidRule(r: Rule) {
    && Core(r.pattern) != [] && InOrder(AllTokens(r.pattern)) && r.match_ == ExprsOf(AllTokens(r.pattern))
    && BySegments(r.pattern) && SlashProof(r.pattern)
  }

  predicate ValidRules(rules: seq<Rule>) { forall k :: 0 <= k < |rules| ==> ValidRule(rules[k]) }

  function Normalize(filePath: string): string {
    StripSlashes(if "./" <= filePath then filePath[2..] else filePath)
  }

  function StripSlashes(s: string): (t: string)
    ensures t != [] ==> t[0] != '/'
  {
    if s != [] && s[0] == '/' then StripSlashes(s[1..]) else s
  }

  function Slashes(n: nat): (s: string)
    ensures |s| == n && forall k :: 0 <= k < n ==> s[k] == '/'
  {
    seq(n, _ => '/')
  }

  lemma {:induction false} SlashesGo(n: nat, path: string)
    requires path != [] ==> path[0] != '/'
    ensures StripSlashes(Slashes(n) + path) == path
  {
    if n == 0 {
      assert Slashes(0) + path == path;
    } else {
      assert (Slashes(n) + path)[1..] == Slashes(n - 1) + path;
      SlashesGo(n - 1, path);
    }
  }

  /**
   * A repo-relative path stays; in front of one, a leading `./` goes, and then any number of slashes. A `./` that is left
   * then is part of the path.
   */
  lemma NormalizedPath(n: nat, path: string)
    requires path != [] ==> path[0] != '/'
    ensures Normalize("./" + (Slashes(n) + path)) == path
    ensures n > 0 || !("./" <= path) ==> Normalize(Slashes(n) + path) == path
    ensures !("./" <= path) ==> Normalize(path) == path
  {
    assert ("./" + (Slashes(n) + path))[2..] == Slashes(n) + path;
    SlashesGo(n, path);
    SlashesGo(0, path);
    assert Slashes(0) + path == path;
    if n > 0 { assert (Slashes(n) + path)[0] == '/'; }
  }

  ghost predicate Governs(r: Rule, path: string) { PatternMatch(r.pattern, path, false) }

  lemma RuleMeans(r: Rule, path: string)
    requires ValidRule(r)
    ensures Matches(r.match_, path) <==> Governs(r, path)
  {
    CompiledMeansSegments(r.pattern, path);
  }

  /** Rule `i` is the last one whose pattern matches the path. */
  ghost predicate Decides(rules: seq<Rule>, path: string, i: int) {
    0 <= i < |rules| && Governs(rules[i], path) && forall j :: i < j < |rules| ==> !Governs(rules[j], path)
  }

  /** Rule `i` is the last one whose expression matches the path. */
  predicate LastMatching(rules: seq<Rule>, path: string, i: int) {
    0 <= i < |rules| && Matches(rules[i].match_, path) && forall j :: i < j < |rules| ==> !Matches(rules[j].match_, path)
  }

  /**
   * `ownersForPath`: the last matching rule decides; a negated one leaves the path unowned. For rules that
   * `compilePattern` built, it is the last one that governs the path.
   */
  method OwnersForPath(rules: seq<Rule>, filePath: string) returns (owners: seq<string>)
    ensures owners == OwnersOf(rules, Normalize(filePath))
    ensures forall i :: LastMatching(rules, Normalize(filePath), i) ==> owners == if rules[i].negated then [] else rules[i].owners
    ensures owners != [] ==> exists i :: LastMatching(rules, Normalize(filePath), i)
    ensures ValidRules(rules) ==>
      forall i :: Decides(rules, Normalize(filePath), i) ==> owners == if rules[i].negated then [] else rules[i].owners
    ensures ValidRules(rules) && owners != [] ==> exists i :: Decides(rules, Normalize(filePath), i)
  {
    var path := Normalize(filePath);
    owners := [];
    for i := 0 to |rules|
      invariant owners == OwnersOf(rules[..i], path)
    {
      OwnersOfNext(rules, i, path);
      if Matches(rules[i].match_, path) {
        owners := if rules[i].negated then [] else rules[i].owners;
      }
    }
    assert rules[..|rules|] == rules;
    var last := LastMatch(rules, path);
    if last != -1 { assert LastMatching(rules, path, last); }
    if ValidRules(rules) { LastMatchDecides(rules, path, last); }
  }

  /** The last rule that matches a path, or -1 when none does. */
  lemma {:induction false} LastMatch(rules: seq<Rule>, path: string) returns (i: int)
    ensures -1 <= i < |rules| && forall k :: i < k < |rules| ==> !Matches(rules[k].match_, path)
    ensures i == -1 ==> OwnersOf(rules, path) == []
    ensures i != -1 ==> Matches(rules[i].match_, path) && OwnersOf(rules, path) == if rules[i].negated then [] else rules[i].owners
  {
    if rules == [] { return -1; }
    var n := |rules| - 1;
    if Matches(rules[n].match_, path) { return n; }
    i := LastMatch(rules[..n], path);
  }

  lemma LastMatchDecides(rules: seq<Rule>, path: string, i: int)
    requires ValidRules(rules)
    requires -1 <= i < |rules| && forall k :: i < k < |rules| ==> !Matches(rules[k].match_, path)
    requires i != -1 ==> Matches(rules[i].match_, path)
    ensures i != -1 ==> Decides(rules, path, i)
    ensures i == -1 ==> forall k :: 0 <= k < |rules| ==> !Governs(rules[k], path)
  {
    forall k | 0 <= k < |rules| ensures Matches(rules[k].match_, path) <==> Governs(rules[k], path) { RuleMeans(rules[k], path); }
  }

  lemma OwnersOfNext(rules: seq<Rule>, i: nat, path: string)
    requires i < |rules|
    ensures OwnersOf(rules[..i + 1], path) ==
              if Matches(rules[i].match_, path) then (if rules[i].negated then [] else rules[i].owners) else OwnersOf(rules[..i], path)
  {
    assert rules[..i + 1][..i] == rules[..i];
  }

  function OwnersOf(rules: seq<Rule>, path: string): seq<string> {
    if rules == [] then []
    else
      var last := rules[|rules| - 1];
      if Matches(last.match_, path) then (if last.negated then [] else last.owners) else OwnersOf(rules[..|rules| - 1], path)
  }

  /** `ownersForPaths`: every owner of every path once, each in place of its first appearance. */
  method OwnersForPaths(rules: seq<Rule>, filePaths: seq<string>) returns (seen: seq<string>)
    ensures forall o :: o in seen <==> exists p :: p in filePaths && o in OwnersOf(rules, Normalize(p))
    ensures forall i, j :: 0 <= i < j < |seen| ==> seen[i] != seen[j]
    ensures seen == FirstSeen(AllOwners(rules, filePaths))
  {
    seen := [];
    if rules == [] {
      NoRulesNoOwners(filePaths);
      return;
    }
    assert AllOwners(rules, filePaths[..0]) == [];
    for n := 0 to |filePaths|
      invariant seen == FirstSeen(AllOwners(rules, filePaths[..n]))
    {
      var owners := OwnersForPath(rules, filePaths[n]);
      seen := AddUnseen(AllOwners(rules, filePaths[..n]), seen, owners);
      assert filePaths[..n + 1][..n] == filePaths[..n];
    }
    assert filePaths[..|filePaths|] == filePaths;
    FirstSeenSet(AllOwners(rules, filePaths));
    AllOwnersMembers(rules, filePaths);
  }

  method AddUnseen(ghost before: seq<string>, seen: seq<string>, owners: seq<string>) returns (r: seq<string>)
    requires seen == FirstSeen(before)
    ensures r == FirstSeen(before + owners)
  {
    r := seen;
    assert before + owners[..0] == before;
    for k := 0 to |owners|
      invariant r == FirstSeen(before + owners[..k])
    {
      FirstSeenNext(before + owners[..k], owners[k]);
      assert (before + owners[..k]) + [owners[k]] == before + owners[..k + 1];
      if owners[k] !in r { r := r + [owners[k]]; }
    }
    assert owners[..|owners|] == owners;
  }

  function AllOwners(rules: seq<Rule>, paths: seq<string>): seq<string> {
    if paths == [] then [] else AllOwners(rules, paths[..|paths| - 1]) + OwnersOf(rules, Normalize(paths[|paths| - 1]))
  }

  /** The elements of `s`, each at its first appearance. */
  function FirstSeen(s: seq<string>): seq<string> {
    if s == [] then []
    else
      var rest := FirstSeen(s[..|s| - 1]);
      if s[|s| - 1] in s[..|s| - 1] then rest else rest + [s[|s| - 1]]
  }

  lemma {:induction false} FirstSeenSet(s: seq<string>)
    ensures forall o :: o in FirstSeen(s) <==> o in s
    ensures forall i, j :: 0 <= i < j < |FirstSeen(s)| ==> FirstSeen(s)[i] != FirstSeen(s)[j]
  {
    if s != [] {
      var init, last := s[..|s| - 1], s[|s| - 1];
      FirstSeenSet(init);
      assert s == init + [last];
    }
  }

  lemma FirstSeenNext(s: seq<string>, o: string)
    ensures FirstSeen(s + [o]) == if o in FirstSeen(s) then FirstSeen(s) else FirstSeen(s) + [o]
  {
    FirstSeenSet(s);
    assert (s + [o])[..|s|] == s;
  }

  lemma {:induction false} AllOwnersMembers(rules: seq<Rule>, paths: seq<string>)
    ensures forall o :: o in AllOwners(rules, paths) <==> exists p :: p in paths && o in OwnersOf(rules, Normalize(p))
  {
    if paths != [] {
      var init, last := paths[..|paths| - 1], paths[|paths| - 1];
      AllOwnersMembers(rules, init);
      assert paths == init + [last];
    }
  }

  lemma {:induction false} NoRulesNoOwners(paths: seq<string>)
    ensures AllOwners([], paths) == []
    ensures forall p :: p in paths ==> OwnersOf([], Normalize(p)) == []
  {
    if paths != [] {
      NoRulesNoOwners(paths[..|paths| - 1]);
      assert paths == paths[..|paths| - 1] + [paths[|paths| - 1]];
    }
  }
}
