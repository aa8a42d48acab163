/**
 * `git ls-tree` read as a stream and cut off at a limit (apps/api/src/repo-paths.ts `lsTreePaths`).
 */
module RepoPaths {
  import opened Wrappers
  import opened Strings

  const NUL: char := '\0'

  /** The paths in complete (terminated) records of the output so far. */
  function Complete(output: string): seq<string> { Closed(output, NUL) }

  /** Every path of the output, terminated or not. */
  function AllPaths(output: string): seq<string> { NonEmpty(Split(output, NUL)) }

  function Take<T>(s: seq<T>, n: nat): seq<T> { if n <= |s| then s[..n] else s }

  /** What the listing answers for an output and an exit code; None when it rejects. */
  function Answer(output: string, limit: nat, code: int): Option<(seq<string>, bool)> {
    if |Complete(output)| <= limit && code != 0 then None
    else Some((Take(AllPaths(output), limit), |AllPaths(output)| > limit))
  }

  lemma NonEmptyNext(parts: seq<string>, k: nat)
    requires k < |parts|
    ensures NonEmpty(parts[..k + 1]) == NonEmpty(parts[..k]) + (if parts[k] == [] then [] else [parts[k]])
  {
    assert parts[..k + 1] == parts[..k] + [parts[k]] && [parts[k]][1..] == [];
    NonEmptyAppend(parts[..k], [parts[k]]);
  }

  lemma NonEmptyPrefix(parts: seq<string>, k: nat)
    requires k <= |parts|
    ensures NonEmpty(parts[..k]) <= NonEmpty(parts)
  {
    assert parts == parts[..k] + parts[k..];
    NonEmptyAppend(parts[..k], parts[k..]);
  }

  class Listing {
    const limit: nat
    var paths: seq<string>
    var rest: string
    var truncated: bool
    /** Everything the child process has written. */
    ghost var output: string

    ghost predicate Valid()
      reads this
    {
      if truncated then |Complete(output)| > limit && paths == Complete(output)[..limit]
      else paths == Complete(output) && rest == Open(output, NUL) && |paths| <= limit
    }

    constructor (limit: nat)
      ensures Valid() && output == "" && this.limit == limit
    {
      this.limit := limit;
      paths, rest, truncated, output := [], "", false, "";
    }

    /** The `data` callback. */
    method OnData(chunk: string)
      requires Valid()
      modifies this
      ensures Valid() && output == old(output) + chunk
    {
      ChunkCloses(output, chunk, NUL);
      output := output + chunk;
      if truncated { return; }
      var parts := Split(rest + chunk, NUL);
      rest := parts[|parts| - 1];
      PushAll(parts[..|parts| - 1]);
    }

    /** The callback's loop over the complete records of one chunk. */
    method PushAll(parts: seq<string>)
      requires !truncated && |paths| <= limit
      modifies this`paths, this`truncated
      ensures truncated <==> |old(paths) + NonEmpty(parts)| > limit
      ensures paths == Take(old(paths) + NonEmpty(parts), limit)
    {
      assert NonEmpty(parts[..0]) == [];
      for k := 0 to |parts|
        invariant !truncated && |paths| <= limit
        invariant paths == old(paths) + NonEmpty(parts[..k])
      {
        NonEmptyNext(parts, k);
        if parts[k] == [] { continue; }
        if |paths| == limit {
          NonEmptyPrefix(parts, k + 1);
          truncated := true;
          return;
        }
        paths := paths + [parts[k]];
      }
      assert parts[..|parts|] == parts;
    }

    /** The `close` callback; None when the promise rejects. */
    method OnClose(code: int) returns (answer: Option<(seq<string>, bool)>)
      requires Valid()
      modifies this`paths
      ensures answer == Answer(output, limit, code)
    {
      AllPieces(output, NUL);
      if truncated {
        assert AllPaths(output)[..limit] == paths;
        return Some((paths, true));
      }
      if code != 0 { return None; }
      if rest != [] { paths := paths + [rest]; }
      assert paths == AllPaths(output);
      answer := Some((Take(paths, limit), |paths| > limit));
    }
  }

  /** `lsTreePaths`: the answer depends on the whole output alone, never on how it was cut into chunks. */
  method LsTreePaths(chunks: seq<string>, limit: nat, code: int) returns (answer: Option<(seq<string>, bool)>)
    ensures answer == Answer(Concat(chunks), limit, code)
  {
    var listing := new Listing(limit);
    assert chunks[..0] == [];
    for n := 0 to |chunks|
      invariant listing.Valid() && listing.limit == limit && listing.output == Concat(chunks[..n])
    {
      listing.OnData(chunks[n]);
      assert chunks[..n + 1] == chunks[..n] + [chunks[n]] && [chunks[n]][1..] == [];
      ConcatAppend(chunks[..n], [chunks[n]]);
      assert chunks[n] + [] == chunks[n];
    }
    assert chunks[..|chunks|] == chunks;
    answer := listing.OnClose(code);
  }

  /** For the output git writes, the answer is the first `limit` paths, truncated exactly when there are more. */
  lemma AnswerOfTree(paths: seq<string>, limit: nat)
    requires forall k :: 0 <= k < |paths| ==> paths[k] != [] && NUL !in paths[k]
    ensures Answer(Terminated(paths, NUL), limit, 0) == Some((Take(paths, limit), |paths| > limit))
  {
    PiecesOfTerminated(paths, NUL);
  }
}
