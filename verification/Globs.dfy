/**
 * The two readings of a protected-tag pattern: the API's glob (apps/api/src/ci/workflows.ts `globMatch`,
 * used by apps/api/src/protected-tags.ts) and the shell `case` of the pre-receive hook.
 */
module Globs {
  import opened Wrappers
  import opened Strings
  import opened Regex

  function EscapeText(s: string): string {
    if s == [] then [] else Escaped(s[0]) + EscapeText(s[1..])
  }

  function EscapeAll(parts: seq<string>): (r: seq<string>)
    ensures |r| == |parts|
  {
    if parts == [] then [] else [EscapeText(parts[0])] + EscapeAll(parts[1..])
  }

  /** The source `globMatch` assembles: split at `*`, escape the pieces, join with a run. */
  function GlobSource(pattern: string): string {
    "^" + Join(EscapeAll(Split(pattern, '*')), "[^/]*") + "$"
  }

  predicate GlobMatch(pattern: string, value: string) {
    var e := Read(GlobSource(pattern));
    e.Some? && Matches(e.value, value)
  }

  predicate IsTagProtected(patterns: seq<string>, tag: string) {
    exists i :: 0 <= i < |patterns| && GlobMatch(patterns[i], tag)
  }

  function GlobTokens(pattern: string): seq<Token> {
    if pattern == [] then [] else [if pattern[0] == '*' then Run else Lit(pattern[0])] + GlobTokens(pattern[1..])
  }

  /** Star by star: `*` is any run of characters, free of slashes unless `slashes` are allowed. */
  predicate StarMatch(pattern: string, value: string, slashes: bool)
    decreases |pattern| + |value|
  {
    if pattern == [] then value == []
    else if pattern[0] == '*' then
      StarMatch(pattern[1..], value, slashes) ||
      (value != [] && (slashes || value[0] != '/') && StarMatch(pattern, value[1..], slashes))
    else value != [] && value[0] == pattern[0] && StarMatch(pattern[1..], value[1..], slashes)
  }

  lemma {:induction false} JoinOfPieces(pattern: string)
    ensures Join(EscapeAll(Split(pattern, '*')), "[^/]*") == Sources(GlobTokens(pattern))
  {
    if pattern != [] {
      var rest := Split(pattern[1..], '*');
      JoinOfPieces(pattern[1..]);
      SourcesCons(if pattern[0] == '*' then Run else Lit(pattern[0]), GlobTokens(pattern[1..]));
      if pattern[0] == '*' {
        assert ([[]] + rest)[1..] == rest;
        JoinCons([], EscapeAll(rest), "[^/]*");
      } else {
        EscapeFirst(pattern[0], rest);
      }
    }
  }

  lemma EscapeFirst(c: char, rest: seq<string>)
    requires rest != []
    ensures Join(EscapeAll([[c] + rest[0]] + rest[1..]), "[^/]*") == Escaped(c) + Join(EscapeAll(rest), "[^/]*")
  {
    assert ([c] + rest[0])[1..] == rest[0];
    var more := EscapeAll(rest[1..]);
    assert ([[c] + rest[0]] + rest[1..])[1..] == rest[1..];
    assert EscapeAll([[c] + rest[0]] + rest[1..]) == [Escaped(c) + EscapeText(rest[0])] + more;
    assert EscapeAll(rest) == [EscapeText(rest[0])] + more;
    if more != [] {
      JoinCons(Escaped(c) + EscapeText(rest[0]), more, "[^/]*");
      JoinCons(EscapeText(rest[0]), more, "[^/]*");
      Assoc(Escaped(c), EscapeText(rest[0]), "[^/]*");
      Assoc(Escaped(c), EscapeText(rest[0]) + "[^/]*", Join(more, "[^/]*"));
    }
  }

  lemma {:induction false} TokensAreStars(pattern: string, value: string)
    ensures TokensMatch(GlobTokens(pattern), value) <==> StarMatch(pattern, value, false)
    decreases |pattern| + |value|
  {
    if pattern != [] {
      assert GlobTokens(pattern)[1..] == GlobTokens(pattern[1..]);
      TokensAreStars(pattern[1..], value);
      if value != [] {
        TokensAreStars(pattern, value[1..]);
        TokensAreStars(pattern[1..], value[1..]);
      }
    }
  }

  lemma {:induction false} NoBeneathInGlob(pattern: string)
    ensures forall t :: t in GlobTokens(pattern) ==> t != Beneath && !t.Set?
  {
    if pattern != [] { NoBeneathInGlob(pattern[1..]); }
  }

  /** The split-and-join expression accepts exactly what the recursive matcher accepts. */
  lemma GlobMatchIsStarMatch(pattern: string, value: string)
    ensures GlobMatch(pattern, value) <==> StarMatch(pattern, value, false)
  {
    JoinOfPieces(pattern);
    NoBeneathInGlob(pattern);
    assert Plain(GlobTokens(pattern)) && InOrder(GlobTokens(pattern)) by {
      assert forall k :: 0 <= k < |GlobTokens(pattern)| ==> GlobTokens(pattern)[k] in GlobTokens(pattern);
    }
    ReadAnchored(GlobTokens(pattern));
    TokensSpell(GlobTokens(pattern), value);
    TokensAreStars(pattern, value);
  }

  // ----------------------------------------------------------- the shell's `case`

  /** Patterns whose shell reading has no bracket expressions and no quoting. */
  predicate PlainForShell(pattern: string) { '[' !in pattern && '\\' !in pattern }

  /** `case value in $pattern)`: `*` is any run, `?` any one character, the rest literal. */
  predicate ShellCase(pattern: string, value: string)
    requires PlainForShell(pattern)
    decreases |pattern| + |value|
  {
    if pattern == [] then value == []
    else if pattern[0] == '*' then
      ShellCase(pattern[1..], value) || (value != [] && ShellCase(pattern, value[1..]))
    else value != [] && (pattern[0] == '?' || value[0] == pattern[0]) && ShellCase(pattern[1..], value[1..])
  }

  lemma {:induction false} ShellCoversStars(pattern: string, value: string)
    requires PlainForShell(pattern) && StarMatch(pattern, value, false)
    ensures ShellCase(pattern, value)
    decreases |pattern| + |value|
  {
    if pattern != [] {
      if pattern[0] == '*' {
        if StarMatch(pattern[1..], value, false) {
          ShellCoversStars(pattern[1..], value);
        } else {
          ShellCoversStars(pattern, value[1..]);
        }
      } else {
        ShellCoversStars(pattern[1..], value[1..]);
      }
    }
  }

  /** The shell never matches less than the API. */
  lemma ShellCoversGlob(pattern: string, value: string)
    requires PlainForShell(pattern) && GlobMatch(pattern, value)
    ensures ShellCase(pattern, value)
  {
    GlobMatchIsStarMatch(pattern, value);
    ShellCoversStars(pattern, value);
  }

  lemma {:induction false} ShellStars(pattern: string, value: string)
    requires PlainForShell(pattern) && '?' !in pattern
    ensures ShellCase(pattern, value) <==> StarMatch(pattern, value, true)
    decreases |pattern| + |value|
  {
    if pattern != [] {
      ShellStars(pattern[1..], value);
      if value != [] {
        ShellStars(pattern, value[1..]);
        ShellStars(pattern[1..], value[1..]);
      }
    }
  }

  lemma {:induction false} SlashesOnlyMatterWhenPresent(pattern: string, value: string)
    requires '/' !in value
    ensures StarMatch(pattern, value, true) <==> StarMatch(pattern, value, false)
    decreases |pattern| + |value|
  {
    if pattern != [] {
      SlashesOnlyMatterWhenPresent(pattern[1..], value);
      if value != [] {
        SlashesOnlyMatterWhenPresent(pattern, value[1..]);
        SlashesOnlyMatterWhenPresent(pattern[1..], value[1..]);
      }
    }
  }

  /** The star alone protects every tag in the shell, and in the API exactly the tags without a slash. */
  lemma {:induction false} LoneStar(value: string)
    ensures StarMatch("*", value, true) && (StarMatch("*", value, false) <==> '/' !in value)
  {
    assert "*"[1..] == [];
    if value != [] {
      LoneStar(value[1..]);
      assert value == [value[0]] + value[1..];
    }
  }

  /**
   * The two enforcers agree on a tag, for every pattern of literals and stars, exactly when the tag
   * holds no slash: the shell's `*` crosses slashes and the API's does not.
   */
  lemma EnforcersAgreeWithoutSlashes(tag: string)
    ensures '/' !in tag
       <==> forall pattern: string :: PlainForShell(pattern) && '?' !in pattern ==> (ShellCase(pattern, tag) <==> GlobMatch(pattern, tag))
  {
    if '/' !in tag {
      forall pattern: string | PlainForShell(pattern) && '?' !in pattern
        ensures ShellCase(pattern, tag) <==> GlobMatch(pattern, tag)
      {
        GlobMatchIsStarMatch(pattern, tag);
        ShellStars(pattern, tag);
        SlashesOnlyMatterWhenPresent(pattern, tag);
      }
    } else {
      GlobMatchIsStarMatch("*", tag);
      ShellStars("*", tag);
      LoneStar(tag);
    }
  }
}
