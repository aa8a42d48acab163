/**
 * The part of ECMAScript regular expressions that the glob compilers emit: their source text,
 * how that text is read, and which strings an expression matches in full (no `m`, `s` or `u` flag).
 */
module Regex {
  import opened Wrappers

  // ---------------------------------------------------------- character classes

  predicate Negated(body: string) { body != [] && body[0] == '^' }

  function Items(body: string): string { if Negated(body) then body[1..] else body }

  /** The ranges listed between the brackets; a range out of order is a syntax error. */
  function Ranges(items: string): Option<seq<(char, char)>> {
    if items == [] then Some([])
    else
      var n := if |items| > 2 && items[1] == '-' then 3 else 1;
      var rest := Ranges(items[n..]);
      if items[n - 1] < items[0] || rest.None? then None else Some([(items[0], items[n - 1])] + rest.value)
  }

  predicate IsClass(body: string) { Ranges(Items(body)).Some? }

  predicate InRanges(ranges: seq<(char, char)>, c: char) { exists k :: 0 <= k < |ranges| && ranges[k].0 <= c <= ranges[k].1 }

  /** The class `[body]` has the character. */
  predicate InClass(body: string, c: char) { IsClass(body) && (InRanges(Ranges(Items(body)).value, c) <==> !Negated(body)) }

  const NOT_SLASH := "^/"

  lemma NotSlashClass()
    ensures IsClass(NOT_SLASH) && forall c :: InClass(NOT_SLASH, c) <==> c != '/'
  {
    assert Items(NOT_SLASH) == "/" && "/"[1..] == [] && [('/', '/')] + [] == [('/', '/')];
    assert Ranges([]) == Some([]) && Ranges("/") == Some([('/', '/')]);
    forall c ensures InRanges([('/', '/')], c) <==> c == '/' {
      if c == '/' { assert [('/', '/')][0].0 <= c <= [('/', '/')][0].1; }
    }
  }

  datatype Expr =
    | Empty
    | Chr(c: char)
    | Dot                      // any character but a line terminator
    | Class(body: string)      // [body]
    | Cat(first: Expr, second: Expr)
    | Star(inner: Expr)
    | Opt(inner: Expr)

  predicate IsLineBreak(c: char) { c == '\n' || c == '\r' || c == '\U{2028}' || c == '\U{2029}' }

  predicate Clean(s: string) { forall k :: 0 <= k < |s| ==> !IsLineBreak(s[k]) }

  predicate Matches(e: Expr, s: string)
    decreases e, |s|
  {
    match e
    case Empty => s == []
    case Chr(c) => s == [c]
    case Dot => |s| == 1 && !IsLineBreak(s[0])
    case Class(body) => |s| == 1 && InClass(body, s[0])
    case Cat(a, b) => exists k :: 0 <= k <= |s| && Matches(a, s[..k]) && Matches(b, s[k..])
    case Star(a) => s == [] || exists k :: 0 < k <= |s| && Matches(a, s[..k]) && Matches(e, s[k..])
    case Opt(a) => s == [] || Matches(a, s)
  }

  // ------------------------------------------------------- reading source text

  /** Characters that are not themselves in a regular expression's source. */
  predicate IsSyntax(c: char) { c in ".*+?^${}()|[]\\" }

  /** The first index of `c` in `s`, or its length. */
  function IndexOf(s: string, c: char): (k: nat)
    ensures k <= |s|
  {
    if s == [] || s[0] == c then 0 else 1 + IndexOf(s[1..], c)
  }

  lemma {:induction false} IndexOfNone(s: string, c: char)
    requires c !in s
    ensures IndexOf(s, c) == |s|
  {
    if s != [] { IndexOfNone(s[1..], c); }
  }

  lemma {:induction false} IndexOfFirst(a: string, c: char, b: string)
    requires c !in a
    ensures IndexOf(a + [c] + b, c) == |a|
  {
    if a != [] {
      assert (a + [c] + b)[1..] == a[1..] + [c] + b;
      IndexOfFirst(a[1..], c, b);
    }
  }

  function Quantified(e: Expr, src: string): (r: (Expr, string))
    ensures |r.1| <= |src|
  {
    if src != [] && src[0] == '*' then (Star(e), src[1..])
    else if src != [] && src[0] == '?' then (Opt(e), src[1..])
    else (e, src)
  }

  /** One atom at the head of `src` and the text after it; None outside the modelled subset. */
  function ReadAtom(src: string): (r: Option<(Expr, string)>)
    requires src != []
    ensures r.Some? ==> |r.value.1| < |src|
    decreases |src|, 0
  {
    if "(?:" <= src then
      var inner := ReadItems(src[3..]);
      if inner.Some? && inner.value.1 != [] then Some((inner.value.0, inner.value.1[1..])) else None
    else if src[0] == '.' then Some((Dot, src[1..]))
    else if src[0] == '\\' then (if |src| > 1 && IsSyntax(src[1]) then Some((Chr(src[1]), src[2..])) else None)
    else if src[0] == '[' then
      var k := IndexOf(src, ']');
      var body := src[1..k];
      if k < |src| && '\\' !in body && IsClass(body) then Some((Class(body), src[k + 1..])) else None
    else if IsSyntax(src[0]) then None
    else Some((Chr(src[0]), src[1..]))
  }

  /** A run of quantified atoms, up to a closing parenthesis or the end. */
  function ReadItems(src: string): (r: Option<(Expr, string)>)
    ensures r.Some? ==> |r.value.1| <= |src| && (r.value.1 == [] || r.value.1[0] == ')')
    decreases |src|, 1
  {
    if src == [] || src[0] == ')' then Some((Empty, src))
    else
      var atom := ReadAtom(src);
      if atom.None? then None
      else
        var item := Quantified(atom.value.0, atom.value.1);
        var rest := ReadItems(item.1);
        if rest.None? then None else Some((Cat(item.0, rest.value.0), rest.value.1))
  }

  /** `new RegExp(source)` for a source anchored at both ends. */
  function Read(source: string): Option<Expr> {
    if |source| < 2 || source[0] != '^' || source[|source| - 1] != '$' then None
    else
      var items := ReadItems(source[1..|source| - 1]);
      if items.Some? && items.value.1 == [] then Some(items.value.0) else None
  }

  // ------------------------------------------------------------------- tokens

  /** The pieces the compilers append to a source. */
  datatype Token =
    | Lit(c: char)   // one character, escaped when it must be
    | One            // [^/]
    | Set(body: string)   // [body]
    | Run            // [^/]*
    | Deep           // .*
    | Dirs           // (?:.*/)?
    | Beneath        // (?:/.*)?

  function Escaped(c: char): string { if IsSyntax(c) then ['\\', c] else [c] }

  function Source(t: Token): string {
    match t
    case Lit(c) => Escaped(c)
    case One => "[^/]"
    case Set(body) => "[" + body + "]"
    case Run => "[^/]*"
    case Deep => ".*"
    case Dirs => "(?:.*/)?"
    case Beneath => "(?:/.*)?"
  }

  function Sources(ts: seq<Token>): string {
    if ts == [] then [] else Source(ts[0]) + Sources(ts[1..])
  }

  function ExprOf(t: Token): Expr {
    match t
    case Lit(c) => Chr(c)
    case One => Class(NOT_SLASH)
    case Set(body) => Class(body)
    case Run => Star(Class(NOT_SLASH))
    case Deep => Star(Dot)
    case Dirs => Opt(Cat(Star(Dot), Cat(Chr('/'), Empty)))
    case Beneath => Opt(Cat(Chr('/'), Cat(Star(Dot), Empty)))
  }

  /** Class bodies are read up to the next bracket, and are not modelled with escapes. */
  predicate Plain(ts: seq<Token>) { forall k :: 0 <= k < |ts| && ts[k].Set? ==> ']' !in ts[k].body && '\\' !in ts[k].body }

  /** No class has a range out of order, so that the source is a regular expression. */
  predicate InOrder(ts: seq<Token>) { forall k :: 0 <= k < |ts| && ts[k].Set? ==> IsClass(ts[k].body) }

  function ExprsOf(ts: seq<Token>): Expr {
    if ts == [] then Empty else Cat(ExprOf(ts[0]), ExprsOf(ts[1..]))
  }

  lemma SourcesCons(t: Token, ts: seq<Token>)
    ensures Sources([t] + ts) == Source(t) + Sources(ts)
  {
    assert ([t] + ts)[1..] == ts;
  }

  lemma {:induction false} SourcesAppend(a: seq<Token>, b: seq<Token>)
    ensures Sources(a + b) == Sources(a) + Sources(b)
  {
    if a == [] {
      assert a + b == b;
    } else {
      assert (a + b)[1..] == a[1..] + b;
      SourcesAppend(a[1..], b);
    }
  }

  lemma SourcesNoQuantifier(ts: seq<Token>)
    ensures Sources(ts) != [] ==> Sources(ts)[0] !in "*?)"
  {
    if ts != [] {
      assert Source(ts[0])[0] !in "*?)";
    }
  }

  /** An unquantified slash, or a quantified dot, in front of more items. */
  lemma ReadSlash(src: string)
    requires src != [] ==> src[0] !in "*?"
    ensures ReadItems("/" + src) == (var r := ReadItems(src);
            if r.None? then None else Some((Cat(Chr('/'), r.value.0), r.value.1)))
  {
    assert ("/" + src)[1..] == src;
    assert ReadAtom("/" + src) == Some((Chr('/'), src));
  }

  lemma ReadDotStar(src: string)
    ensures ReadItems(".*" + src) == (var r := ReadItems(src);
            if r.None? then None else Some((Cat(Star(Dot), r.value.0), r.value.1)))
  {
    assert (".*" + src)[1..] == "*" + src;
    assert ("*" + src)[1..] == src;
    assert ReadAtom(".*" + src) == Some((Dot, "*" + src));
  }

  lemma ReadGroup(inner: string, src: string, e: Expr)
    requires ReadItems(inner + ")" + src) == Some((e, ")" + src))
    ensures ReadAtom("(?:" + inner + ")" + src) == Some((e, src))
  {
    assert ("(?:" + inner + ")" + src)[3..] == inner + ")" + src;
    assert (")" + src)[1..] == src;
  }

  lemma ReadDirs(src: string)
    ensures ReadAtom("(?:.*/)?" + src) == Some((Cat(Star(Dot), Cat(Chr('/'), Empty)), "?" + src))
  {
    var tail := ")" + ("?" + src);
    ReadSlash(tail);
    ReadDotStar("/" + tail);
    DirsText(src);
    ReadGroup(".*/", "?" + src, Cat(Star(Dot), Cat(Chr('/'), Empty)));
  }

  lemma DirsText(src: string)
    ensures ".*/" + ")" + ("?" + src) == ".*" + ("/" + (")" + ("?" + src)))
    ensures "(?:.*/)?" + src == "(?:" + ".*/" + ")" + ("?" + src)
  {
  }

  lemma ReadBeneath(src: string)
    ensures ReadAtom("(?:/.*)?" + src) == Some((Cat(Chr('/'), Cat(Star(Dot), Empty)), "?" + src))
  {
    var tail := ")" + ("?" + src);
    ReadDotStar(tail);
    ReadSlash(".*" + tail);
    BeneathText(src);
    ReadGroup("/.*", "?" + src, Cat(Chr('/'), Cat(Star(Dot), Empty)));
  }

  lemma BeneathText(src: string)
    ensures "/.*" + ")" + ("?" + src) == "/" + (".*" + (")" + ("?" + src)))
    ensures "(?:/.*)?" + src == "(?:" + "/.*" + ")" + ("?" + src)
  {
  }

  lemma ReadLit(c: char, src: string)
    requires src != [] ==> src[0] !in "*?"
    ensures ReadAtom(Escaped(c) + src) == Some((Chr(c), src))
  {
    var text := Escaped(c) + src;
    if IsSyntax(c) { assert text[2..] == src; } else { assert text[1..] == src; }
  }

  lemma ReadClass(body: string, src: string)
    requires ']' !in body && '\\' !in body
    ensures ReadAtom("[" + body + "]" + src) == if IsClass(body) then Some((Class(body), src)) else None
  {
    var text := "[" + body + "]" + src;
    assert text == ("[" + body) + [']'] + src;
    IndexOfFirst("[" + body, ']', src);
    assert text[1..|body| + 1] == body && text[|body| + 2..] == src;
  }

  lemma ReadBrackets(src: string)
    ensures ReadAtom("[^/]" + src) == Some((Class(NOT_SLASH), src))
    ensures ReadAtom("[^/]*" + src) == Some((Class(NOT_SLASH), "*" + src))
  {
    NotSlashClass();
    assert "[" + NOT_SLASH + "]" == "[^/]" && "[^/]*" + src == "[^/]" + ("*" + src);
    ReadClass(NOT_SLASH, src);
    ReadClass(NOT_SLASH, "*" + src);
  }

  lemma ReadDot(src: string)
    ensures ReadAtom(".*" + src) == Some((Dot, "*" + src))
  {
    var text := ".*" + src;
    assert text[0] == '.' && text[1..] == "*" + src && !("(?:" <= text);
  }

  lemma ReadQuantifier(c: char, src: string)
    ensures ([c] + src)[1..] == src
  {
  }

  lemma ReadToken(t: Token, src: string)
    requires (src != [] ==> src[0] !in "*?") && Plain([t])
    ensures ReadAtom(Source(t) + src).Some? <==> InOrder([t])
    ensures InOrder([t]) ==> var atom := ReadAtom(Source(t) + src).value; Quantified(atom.0, atom.1) == (ExprOf(t), src)
  {
    assert [t][0] == t;
    ReadQuantifier('*', src);
    ReadQuantifier('?', src);
    match t
    case Lit(c) => ReadLit(c, src);
    case One => ReadBrackets(src);
    case Set(body) => ReadClass(body, src);
    case Run => ReadBrackets(src);
    case Deep => ReadDot(src);
    case Dirs => ReadDirs(src);
    case Beneath => ReadBeneath(src);
  }

  /**
   * Escaping is sound: the text of a token list reads back as exactly those tokens, unless a class in it has a range
   * out of order, which makes the text no regular expression.
   */
  lemma {:induction false} ReadSources(ts: seq<Token>)
    requires Plain(ts)
    ensures ReadItems(Sources(ts)) == if InOrder(ts) then Some((ExprsOf(ts), [])) else None
  {
    if ts != [] {
      SourcesNoQuantifier(ts);
      SourcesNoQuantifier(ts[1..]);
      assert ts == [ts[0]] + ts[1..];
      ReadToken(ts[0], Sources(ts[1..]));
      ReadSources(ts[1..]);
      assert InOrder(ts) <==> InOrder([ts[0]]) && InOrder(ts[1..]) by {
        assert forall k :: 0 < k < |ts| ==> ts[k] == ts[1..][k - 1];
        assert forall k :: 0 <= k < |ts[1..]| ==> ts[1..][k] == ts[k + 1];
      }
    }
  }

  lemma ReadAnchored(ts: seq<Token>)
    requires Plain(ts)
    ensures Read("^" + Sources(ts) + "$") == if InOrder(ts) then Some(ExprsOf(ts)) else None
  {
    var source := "^" + Sources(ts) + "$";
    assert source[1..|source| - 1] == Sources(ts);
    ReadSources(ts);
  }

  // ---------------------------------------------- matching, one token at a time

  ghost predicate TokensMatch(ts: seq<Token>, s: string)
    decreases |s|, |ts|
  {
    if ts == [] then s == []
    else
      match ts[0]
      case Lit(c) => s != [] && s[0] == c && TokensMatch(ts[1..], s[1..])
      case One => s != [] && s[0] != '/' && TokensMatch(ts[1..], s[1..])
      case Set(body) => s != [] && InClass(body, s[0]) && TokensMatch(ts[1..], s[1..])
      case Run => TokensMatch(ts[1..], s) || (s != [] && s[0] != '/' && TokensMatch(ts, s[1..]))
      case Deep => TokensMatch(ts[1..], s) || (s != [] && !IsLineBreak(s[0]) && TokensMatch(ts, s[1..]))
      case Dirs => TokensMatch(ts[1..], s) || InsideDirs(ts[1..], s)
      case Beneath =>
        TokensMatch(ts[1..], s) || (s != [] && s[0] == '/' && TokensMatch([Deep] + ts[1..], s[1..]))
  }

  /** Inside `.*` of a directory run: the run ends at this slash, or goes on. */
  ghost predicate InsideDirs(ts: seq<Token>, s: string)
    decreases |s|, |ts|
  {
    s != [] && ((s[0] == '/' && TokensMatch(ts, s[1..])) || (!IsLineBreak(s[0]) && InsideDirs(ts, s[1..])))
  }

  lemma {:induction false} DotRun(s: string)
    ensures Matches(Star(Dot), s) <==> Clean(s)
  {
    if s != [] {
      DotRun(s[1..]);
      if Clean(s) {
        assert Matches(Dot, s[..1]) && Matches(Star(Dot), s[1..]);
      }
      if Matches(Star(Dot), s) {
        var k :| 0 < k <= |s| && Matches(Dot, s[..k]) && Matches(Star(Dot), s[k..]);
        assert forall j :: 1 <= j < |s| ==> s[j] == s[1..][j - 1];
      }
    }
  }

  predicate NoSlash(s: string) { '/' !in s }

  lemma {:induction false} NotSlashRun(s: string)
    ensures Matches(Star(Class(NOT_SLASH)), s) <==> NoSlash(s)
  {
    NotSlashClass();
    if s != [] {
      NotSlashRun(s[1..]);
      if NoSlash(s) {
        assert Matches(Class(NOT_SLASH), s[..1]) && Matches(Star(Class(NOT_SLASH)), s[1..]);
      }
      if Matches(Star(Class(NOT_SLASH)), s) {
        var k :| 0 < k <= |s| && Matches(Class(NOT_SLASH), s[..k]) && Matches(Star(Class(NOT_SLASH)), s[k..]);
        assert s == [s[0]] + s[1..];
      }
    }
  }

  lemma {:induction false} DeepSplits(ts: seq<Token>, s: string)
    ensures TokensMatch([Deep] + ts, s) <==> exists k :: 0 <= k <= |s| && Clean(s[..k]) && TokensMatch(ts, s[k..])
  {
    assert ([Deep] + ts)[1..] == ts;
    assert s[0..] == s;
    if s != [] {
      DeepSplits(ts, s[1..]);
      if !IsLineBreak(s[0]) && TokensMatch([Deep] + ts, s[1..]) {
        var k :| 0 <= k <= |s[1..]| && Clean(s[1..][..k]) && TokensMatch(ts, s[1..][k..]);
        assert s[1..][k..] == s[k + 1..];
        assert s[..k + 1] == [s[0]] + s[1..][..k];
      }
      if k :| 1 <= k <= |s| && Clean(s[..k]) && TokensMatch(ts, s[k..]) {
        assert s[1..][k - 1..] == s[k..];
        assert s[1..][..k - 1] == s[..k][1..];
        assert s[..k][0] == s[0];
      }
    }
  }

  lemma {:induction false} RunSplits(ts: seq<Token>, s: string)
    ensures TokensMatch([Run] + ts, s) <==> exists k :: 0 <= k <= |s| && NoSlash(s[..k]) && TokensMatch(ts, s[k..])
  {
    assert ([Run] + ts)[1..] == ts;
    assert s[0..] == s;
    if s != [] {
      RunSplits(ts, s[1..]);
      if s[0] != '/' && TokensMatch([Run] + ts, s[1..]) {
        var k :| 0 <= k <= |s[1..]| && NoSlash(s[1..][..k]) && TokensMatch(ts, s[1..][k..]);
        assert s[1..][k..] == s[k + 1..];
        assert s[..k + 1] == [s[0]] + s[1..][..k];
      }
      if k :| 1 <= k <= |s| && NoSlash(s[..k]) && TokensMatch(ts, s[k..]) {
        assert s[1..][k - 1..] == s[k..];
        assert s[1..][..k - 1] == s[..k][1..];
        assert s[..k][0] == s[0];
      }
    }
  }

  lemma JustDots(t: string)
    ensures Matches(Cat(Star(Dot), Empty), t) <==> Clean(t)
  {
    DotRun(t);
    assert t[..|t|] == t;
    if Clean(t) { assert Matches(Star(Dot), t[..|t|]) && Matches(Empty, t[|t|..]); }
    if k :| 0 <= k <= |t| && Matches(Star(Dot), t[..k]) && Matches(Empty, t[k..]) {
      assert t[..k] == t;
    }
  }

  lemma DirsBody(s: string)
    ensures Matches(Cat(Star(Dot), Cat(Chr('/'), Empty)), s) <==> s != [] && s[|s| - 1] == '/' && Clean(s[..|s| - 1])
  {
    if s != [] && s[|s| - 1] == '/' && Clean(s[..|s| - 1]) {
      DotRun(s[..|s| - 1]);
      SlashThen(Empty, s[|s| - 1..]);
    }
    if k :| 0 <= k <= |s| && Matches(Star(Dot), s[..k]) && Matches(Cat(Chr('/'), Empty), s[k..]) {
      DotRun(s[..k]);
      SlashThen(Empty, s[k..]);
      assert |s[k..][1..]| == 0 && k == |s| - 1;
    }
  }

  lemma DirsExpr(s: string)
    ensures Matches(ExprOf(Dirs), s) <==> s == [] || (s[|s| - 1] == '/' && Clean(s[..|s| - 1]))
  {
    DirsBody(s);
  }

  lemma SlashThen(rest: Expr, s: string)
    ensures Matches(Cat(Chr('/'), rest), s) <==> s != [] && s[0] == '/' && Matches(rest, s[1..])
  {
    if s != [] && s[0] == '/' && Matches(rest, s[1..]) {
      assert s[..1] == "/" && Matches(Chr('/'), s[..1]);
    }
    if k :| 0 <= k <= |s| && Matches(Chr('/'), s[..k]) && Matches(rest, s[k..]) {
      assert k == |s[..k]| == 1 && s[..k][0] == s[0];
    }
  }

  lemma BeneathExpr(s: string)
    ensures Matches(ExprOf(Beneath), s) <==> s == [] || (s[0] == '/' && Clean(s[1..]))
  {
    SlashThen(Cat(Star(Dot), Empty), s);
    if s != [] { JustDots(s[1..]); }
  }

  /** The texts one token matches. */
  predicate TokenText(t: Token, s: string) {
    match t
    case Lit(c) => s == [c]
    case One => |s| == 1 && s[0] != '/'
    case Set(body) => |s| == 1 && InClass(body, s[0])
    case Run => NoSlash(s)
    case Deep => Clean(s)
    case Dirs => s == [] || (s[|s| - 1] == '/' && Clean(s[..|s| - 1]))
    case Beneath => s == [] || (s[0] == '/' && Clean(s[1..]))
  }

  /** The text of the first token ends at `k`. */
  ghost predicate TokenEnds(t: Token, ts: seq<Token>, s: string, k: int) {
    0 <= k <= |s| && TokenText(t, s[..k]) && TokensMatch(ts, s[k..])
  }

  lemma TokenTextMatches(t: Token, s: string)
    ensures TokenText(t, s) <==> Matches(ExprOf(t), s)
  {
    match t
    case Lit(_) =>
    case One => NotSlashClass();
    case Set(_) =>
    case Run => NotSlashRun(s);
    case Deep => DotRun(s);
    case Dirs => DirsExpr(s);
    case Beneath => BeneathExpr(s);
  }

  lemma CharSplits(t: Token, ts: seq<Token>, s: string)
    requires t.Lit? || t.One? || t.Set?
    ensures TokensMatch([t] + ts, s) <==> exists k :: TokenEnds(t, ts, s, k)
  {
    assert ([t] + ts)[1..] == ts;
    if s != [] {
      assert s[..1] == [s[0]];
      assert TokensMatch([t] + ts, s) <==> TokenEnds(t, ts, s, 1);
    }
    if k :| TokenEnds(t, ts, s, k) { assert k == 1; }
  }

  /** A directory run ends at slash `k`. */
  ghost predicate DirsEnd(ts: seq<Token>, s: string, k: int) {
    0 <= k < |s| && s[k] == '/' && Clean(s[..k]) && TokensMatch(ts, s[k + 1..])
  }

  lemma DirsEndNext(ts: seq<Token>, s: string, k: nat)
    requires s != []
    ensures DirsEnd(ts, s, k + 1) <==> !IsLineBreak(s[0]) && DirsEnd(ts, s[1..], k)
  {
    if k + 1 < |s| {
      assert s[1..][k + 1..] == s[k + 2..];
      assert s[..k + 1] == [s[0]] + s[1..][..k];
      assert forall j :: 0 <= j < k ==> s[..k + 1][j + 1] == s[1..][..k][j];
    }
  }

  lemma {:induction false} DirsEndSomewhere(ts: seq<Token>, s: string)
    ensures InsideDirs(ts, s) <==> exists k :: DirsEnd(ts, s, k)
  {
    if s != [] {
      DirsEndSomewhere(ts, s[1..]);
      if k :| DirsEnd(ts, s, k) {
        if k > 0 { DirsEndNext(ts, s, k - 1); }
      }
      if s[0] == '/' && TokensMatch(ts, s[1..]) { assert DirsEnd(ts, s, 0); }
      if k :| !IsLineBreak(s[0]) && DirsEnd(ts, s[1..], k) { DirsEndNext(ts, s, k); }
    }
  }

  lemma DirsSplits(ts: seq<Token>, s: string)
    ensures TokensMatch([Dirs] + ts, s) <==> TokensMatch(ts, s) || exists k :: DirsEnd(ts, s, k)
  {
    assert ([Dirs] + ts)[1..] == ts;
    DirsEndSomewhere(ts, s);
  }

  lemma DirsTokenSplits(ts: seq<Token>, s: string)
    ensures TokensMatch([Dirs] + ts, s) <==> exists k :: TokenEnds(Dirs, ts, s, k)
  {
    DirsSplits(ts, s);
    assert s[0..] == s;
    assert TokenEnds(Dirs, ts, s, 0) <==> TokensMatch(ts, s);
    if k :| DirsEnd(ts, s, k) {
      assert s[..k + 1][..k] == s[..k];
      assert TokenEnds(Dirs, ts, s, k + 1);
    }
    if k :| 1 <= k && TokenEnds(Dirs, ts, s, k) {
      assert s[..k][..k - 1] == s[..k - 1];
      assert DirsEnd(ts, s, k - 1);
    }
  }

  lemma BeneathSplits(s: string)
    ensures TokensMatch([Beneath], s) <==> exists k :: TokenEnds(Beneath, [], s, k)
  {
    assert s[..|s|] == s && s[|s|..] == [];
    assert [Beneath][1..] == [];
    if s != [] {
      assert [Deep] + [] == [Deep];
      DeepSplits([], s[1..]);
      assert s[1..][..|s| - 1] == s[1..];
    }
    assert TokensMatch([Beneath], s) <==> TokenEnds(Beneath, [], s, |s|);
  }

  /** What one token and the tokens after it match, as a split of the text. */
  lemma TokenSplits(t: Token, ts: seq<Token>, s: string)
    requires t != Beneath || ts == []
    ensures TokensMatch([t] + ts, s) <==> exists k :: TokenEnds(t, ts, s, k)
  {
    match t
    case Lit(_) => CharSplits(t, ts, s);
    case One => CharSplits(t, ts, s);
    case Set(_) => CharSplits(t, ts, s);
    case Run =>
      RunSplits(ts, s);
      assert forall k :: TokenEnds(t, ts, s, k) <==> 0 <= k <= |s| && NoSlash(s[..k]) && TokensMatch(ts, s[k..]);
    case Deep =>
      DeepSplits(ts, s);
      assert forall k :: TokenEnds(t, ts, s, k) <==> 0 <= k <= |s| && Clean(s[..k]) && TokensMatch(ts, s[k..]);
    case Dirs => DirsTokenSplits(ts, s);
    case Beneath =>
      BeneathSplits(s);
      assert [t] + ts == [Beneath];
  }

  /** Matching token by token is matching the expression the tokens spell. */
  lemma {:induction false} TokensSpell(ts: seq<Token>, s: string)
    requires forall i :: 0 <= i < |ts| - 1 ==> ts[i] != Beneath
    ensures Matches(ExprsOf(ts), s) <==> TokensMatch(ts, s)
    decreases |ts|
  {
    if ts != [] {
      TokenSplits(ts[0], ts[1..], s);
      assert [ts[0]] + ts[1..] == ts;
      forall k | 0 <= k <= |s|
        ensures TokenEnds(ts[0], ts[1..], s, k) <==> Matches(ExprOf(ts[0]), s[..k]) && Matches(ExprsOf(ts[1..]), s[k..])
      {
        TokensSpell(ts[1..], s[k..]);
        TokenTextMatches(ts[0], s[..k]);
      }
    }
  }
}
