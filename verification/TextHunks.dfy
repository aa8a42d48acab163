/** Merging plain text run by run from a two-way line diff (apps/api/src/merge/text-hunks.ts). */
module TextHunks {
  import opened Wrappers
  import opened Strings

  datatype Kind = Added | Removed | Unchanged

  datatype Line = Line(kind: Kind, content: string)

  /** The lines of a run of changes on either side. */
  datatype Hunk = Hunk(id: string, base: seq<string>, incoming: seq<string>)

  datatype Side = Base | Incoming

  function Kept(line: Line, kind: Kind): seq<string> { if line.kind == kind then [line.content] else [] }

  function Of(lines: seq<Line>, kind: Kind): seq<string> {
    if lines == [] then [] else Kept(lines[0], kind) + Of(lines[1..], kind)
  }

  /** The two texts the diff is between. */
  function SideText(lines: seq<Line>, side: Side): seq<string> {
    if lines == [] then []
    else
      var dropped := if side == Base then Added else Removed;
      (if lines[0].kind == dropped then [] else [lines[0].content]) + SideText(lines[1..], side)
  }

  /** The length of the run of changes that `lines` starts with. */
  function RunLength(lines: seq<Line>): (n: nat)
    ensures n <= |lines| && (forall k :: 0 <= k < n ==> lines[k].kind != Unchanged) && (n < |lines| ==> lines[n].kind == Unchanged)
  {
    if lines == [] || lines[0].kind == Unchanged then 0 else 1 + RunLength(lines[1..])
  }

  function HunkId(index: nat): string { "h" + Decimal(index) }

  function HunkOf(lines: seq<Line>, index: nat): Hunk {
    var run := lines[..RunLength(lines)];
    Hunk(HunkId(index), Of(run, Removed), Of(run, Added))
  }

  /** One hunk for every maximal run of changes, numbered from `index`. */
  function Hunks(lines: seq<Line>, index: nat): (hs: seq<Hunk>)
    ensures forall k :: 0 <= k < |hs| ==> hs[k].id == HunkId(index + k)
    decreases |lines|
  {
    if lines == [] then []
    else if lines[0].kind == Unchanged then Hunks(lines[1..], index)
    else [HunkOf(lines, index)] + Hunks(lines[RunLength(lines)..], index + 1)
  }

  function SideOf(sides: map<string, Side>, default_: Side, id: string): Side { if id in sides then sides[id] else default_ }

  function Pick(h: Hunk, side: Side): seq<string> { if side == Base then h.base else h.incoming }

  /** Unchanged lines, and for each run the side picked for its hunk. */
  function Merged(lines: seq<Line>, index: nat, sides: map<string, Side>, default_: Side): seq<string>
    decreases |lines|
  {
    if lines == [] then []
    else if lines[0].kind == Unchanged then [lines[0].content] + Merged(lines[1..], index, sides, default_)
    else
      Pick(HunkOf(lines, index), SideOf(sides, default_, HunkId(index))) + Merged(lines[RunLength(lines)..], index + 1, sides, default_)
  }

  // --------------------------------------------------------------------- the loops

  lemma {:induction false} OfPush(lines: seq<Line>, line: Line, kind: Kind)
    ensures Of(lines + [line], kind) == Of(lines, kind) + Kept(line, kind)
  {
    var all := lines + [line];
    if lines == [] {
      assert all == [line] && [line][1..] == [] && Of([line], kind) == Kept(line, kind) + [];
    } else {
      assert all[0] == lines[0] && all[1..] == lines[1..] + [line];
      OfPush(lines[1..], line, kind);
      Assoc(Kept(lines[0], kind), Of(lines[1..], kind), Kept(line, kind));
    }
  }

  /** The lines of either side from `from` up to `i`. */
  predicate Gathered(lines: seq<Line>, from: nat, i: nat, base: seq<string>, incoming: seq<string>) {
    from <= i <= |lines| && base == Of(lines[from..i], Removed) && incoming == Of(lines[from..i], Added)
  }

  lemma GatherOne(lines: seq<Line>, from: nat, i: nat, base: seq<string>, incoming: seq<string>)
    requires i < |lines| && Gathered(lines, from, i, base, incoming)
    ensures Gathered(lines, from, i + 1, base + Kept(lines[i], Removed), incoming + Kept(lines[i], Added))
    ensures base + [] == base && incoming + [] == incoming
  {
    assert lines[from..i + 1] == lines[from..i] + [lines[i]];
    OfPush(lines[from..i], lines[i], Removed);
    OfPush(lines[from..i], lines[i], Added);
  }

  lemma {:induction false} RunHasLines(run: seq<Line>)
    requires run != [] && forall k :: 0 <= k < |run| ==> run[k].kind != Unchanged
    ensures Of(run, Removed) != [] || Of(run, Added) != []
  {
  }

  /** A stretch without an unchanged line, ending where one is or at the end, is the run. */
  lemma {:induction false} RunLengthIs(lines: seq<Line>, n: nat)
    requires n <= |lines| && (forall k :: 0 <= k < n ==> lines[k].kind != Unchanged) && (n < |lines| ==> lines[n].kind == Unchanged)
    ensures RunLength(lines) == n
  {
  }

  /** From `from` to the end of its run of changes. */
  predicate IsRun(lines: seq<Line>, from: int, to: int) {
    && 0 <= from <= to <= |lines| && (forall k :: from <= k < to ==> lines[k].kind != Unchanged)
    && (to < |lines| ==> lines[to].kind == Unchanged)
  }

  /** The inner loop that gathers a run. */
  method GatherRun(lines: seq<Line>, from: nat) returns (i: nat, base: seq<string>, incoming: seq<string>)
    requires from <= |lines|
    ensures IsRun(lines, from, i) && Gathered(lines, from, i, base, incoming)
  {
    i, base, incoming := from, [], [];
    while i < |lines| && lines[i].kind != Unchanged
      invariant from <= i <= |lines| && forall k :: from <= k < i ==> lines[k].kind != Unchanged
      invariant Gathered(lines, from, i, base, incoming)
    {
      var row := lines[i];
      GatherOne(lines, from, i, base, incoming);
      if row.kind == Removed { base := base + [row.content]; } else if row.kind == Added { incoming := incoming + [row.content]; }
      i := i + 1;
    }
  }

  /** The inner loop that skips a run. */
  method SkipRun(lines: seq<Line>, from: nat) returns (i: nat)
    requires from <= |lines|
    ensures IsRun(lines, from, i)
  {
    i := from;
    while i < |lines| && lines[i].kind != Unchanged
      invariant from <= i <= |lines| && forall k :: from <= k < i ==> lines[k].kind != Unchanged
    {
      i := i + 1;
    }
  }

  /** `groupPlainTextHunks`. */
  method GroupPlainTextHunks(lines: seq<Line>) returns (hunks: seq<Hunk>)
    ensures hunks == Hunks(lines, 0)
  {
    hunks := [];
    var i := 0;
    assert lines[0..] == lines;
    while i < |lines|
      invariant i <= |lines| && hunks + Hunks(lines[i..], |hunks|) == Hunks(lines, 0)
    {
      if lines[i].kind == Unchanged {
        assert lines[i..][1..] == lines[i + 1..];
        i := i + 1;
        continue;
      }
      ghost var from := i;
      var base, incoming;
      i, base, incoming := GatherRun(lines, i);
      NextHunk(lines, from, i, base, incoming, hunks);
      if |base| > 0 || |incoming| > 0 {
        hunks := hunks + [Hunk(HunkId(|hunks|), base, incoming)];
      }
    }
    assert hunks + [] == hunks;
  }

  lemma NextHunk(lines: seq<Line>, from: nat, to: nat, base: seq<string>, incoming: seq<string>, hunks: seq<Hunk>)
    requires IsRun(lines, from, to) && from < to && Gathered(lines, from, to, base, incoming)
    ensures |base| > 0 || |incoming| > 0
    ensures hunks + Hunks(lines[from..], |hunks|)
            == (hunks + [Hunk(HunkId(|hunks|), base, incoming)]) + Hunks(lines[to..], |hunks| + 1)
  {
    RunIsNotEmpty(lines, from, to);
    FirstHunk(lines, from, to, |hunks|);
    AppendFirst(hunks, Hunk(HunkId(|hunks|), base, incoming), Hunks(lines[to..], |hunks| + 1), Hunks(lines[from..], |hunks|));
  }

  lemma RunIsNotEmpty(lines: seq<Line>, from: nat, to: nat)
    requires IsRun(lines, from, to) && from < to
    ensures Of(lines[from..to], Removed) != [] || Of(lines[from..to], Added) != []
  {
    RunHasLines(lines[from..to]);
  }

  lemma AppendFirst(a: seq<Hunk>, x: Hunk, rest: seq<Hunk>, all: seq<Hunk>)
    requires all == [x] + rest
    ensures a + all == a + [x] + rest
  {
  }

  /** The hunks from a run on: its own, and those of the lines after it. */
  lemma FirstHunk(lines: seq<Line>, from: nat, to: nat, index: nat)
    requires IsRun(lines, from, to) && from < to
    ensures Hunks(lines[from..], index)
            == [Hunk(HunkId(index), Of(lines[from..to], Removed), Of(lines[from..to], Added))] + Hunks(lines[to..], index + 1)
  {
    var rest := lines[from..];
    RunLengthIs(rest, to - from);
    assert rest[..to - from] == lines[from..to] && rest[to - from..] == lines[to..];
  }

  /** `materializePlainTextMerge`. */
  method MaterializePlainTextMerge(lines: seq<Line>, sides: map<string, Side>, default_: Side := Incoming) returns (text: string)
    ensures text == Join(Merged(lines, 0, sides, default_), "\n")
  {
    var hunks := GroupPlainTextHunks(lines);
    var hunkIndex, out, i := 0, [], 0;
    assert lines[0..] == lines && hunks[0..] == hunks;
    while i < |lines|
      invariant i <= |lines| && hunkIndex <= |hunks| && hunks[hunkIndex..] == Hunks(lines[i..], hunkIndex)
      invariant out + Merged(lines[i..], hunkIndex, sides, default_) == Merged(lines, 0, sides, default_)
    {
      var row := lines[i];
      if row.kind == Unchanged {
        assert lines[i..][1..] == lines[i + 1..];
        Assoc(out, [row.content], Merged(lines[i + 1..], hunkIndex, sides, default_));
        out := out + [row.content];
        i := i + 1;
        continue;
      }
      var hunk := hunks[hunkIndex];
      var side := if hunk.id in sides then sides[hunk.id] else default_;
      ghost var from, before := i, out;
      if side == Base { out := out + hunk.base; } else { out := out + hunk.incoming; }
      i := SkipRun(lines, i);
      NextMerged(lines, from, i, hunkIndex, hunks, before, sides, default_);
      hunkIndex := hunkIndex + 1;
    }
    assert out + [] == out;
    text := Join(out, "\n");
  }

  lemma NextMerged(lines: seq<Line>, from: nat, to: nat, index: nat, hunks: seq<Hunk>, out: seq<string>, sides: map<string, Side>, default_: Side)
    requires IsRun(lines, from, to) && from < to && index < |hunks| && hunks[index..] == Hunks(lines[from..], index)
    ensures hunks[index + 1..] == Hunks(lines[to..], index + 1)
    ensures out + Merged(lines[from..], index, sides, default_)
            == out + Pick(hunks[index], SideOf(sides, default_, hunks[index].id)) + Merged(lines[to..], index + 1, sides, default_)
  {
    RunLengthIs(lines[from..], to - from);
    assert lines[from..][to - from..] == lines[to..];
    assert hunks[index] == hunks[index..][0] && hunks[index..][1..] == hunks[index + 1..];
    var hunk := HunkOf(lines[from..], index);
    assert Hunks(lines[from..], index) == [hunk] + Hunks(lines[to..], index + 1) && hunk == hunks[index];
    Assoc(out, Pick(hunk, SideOf(sides, default_, hunk.id)), Merged(lines[to..], index + 1, sides, default_));
  }

  // ----------------------------------------------------------------- what merging means

  /** One maximal run taken whole is that side of the diff. */
  lemma {:induction false} SideTextOfRun(run: seq<Line>, rest: seq<Line>, side: Side)
    requires forall k :: 0 <= k < |run| ==> run[k].kind != Unchanged
    ensures SideText(run + rest, side) == Of(run, if side == Base then Removed else Added) + SideText(rest, side)
  {
    if run == [] {
      assert run + rest == rest;
    } else {
      assert (run + rest)[1..] == run[1..] + rest;
      SideTextOfRun(run[1..], rest, side);
    }
  }

  /** When every hunk has the same side picked, that side's text comes out, line for line. */
  lemma {:induction false} OneSideIsThatText(lines: seq<Line>, index: nat, sides: map<string, Side>, default_: Side, side: Side)
    requires forall h :: h in Hunks(lines, index) ==> (if h.id in sides then sides[h.id] else default_) == side
    ensures Merged(lines, index, sides, default_) == SideText(lines, side)
    decreases |lines|
  {
    if lines != [] {
      if lines[0].kind == Unchanged {
        OneSideIsThatText(lines[1..], index, sides, default_, side);
      } else {
        var n := RunLength(lines);
        assert lines == lines[..n] + lines[n..];
        SideTextOfRun(lines[..n], lines[n..], side);
        assert HunkOf(lines, index) in Hunks(lines, index);
        assert forall h :: h in Hunks(lines[n..], index + 1) ==> h in Hunks(lines, index);
        OneSideIsThatText(lines[n..], index + 1, sides, default_, side);
      }
    }
  }

  lemma IdsAreOneToOne(lines: seq<Line>, index: nat, j: nat, k: nat)
    requires j < |Hunks(lines, index)| && k < |Hunks(lines, index)|
    ensures Hunks(lines, index)[j].id == Hunks(lines, index)[k].id <==> j == k
  {
    if HunkId(index + j) == HunkId(index + k) {
      assert HunkId(index + j)[1..] == Decimal(index + j) && HunkId(index + k)[1..] == Decimal(index + k);
      DecimalInjective(index + j, index + k);
    }
  }

  /**
   * Every hunk has its own slice of the result: with any pick for it, the same lines come before and after, and the
   * slice is exactly the picked side.
   */
  lemma {:induction false} PickIsLocal(lines: seq<Line>, index: nat, sides: map<string, Side>, default_: Side, k: nat)
      returns (before: seq<string>, after: seq<string>)
    requires k < |Hunks(lines, index)|
    ensures var h := Hunks(lines, index)[k];
            forall side :: Merged(lines, index, sides[h.id := side], default_) == before + Pick(h, side) + after
    decreases |lines|
  {
    var h := Hunks(lines, index)[k];
    if lines[0].kind == Unchanged {
      var b, a := PickIsLocal(lines[1..], index, sides, default_, k);
      before, after := [lines[0].content] + b, a;
      forall side: Side ensures Merged(lines, index, sides[h.id := side], default_) == before + Pick(h, side) + after {
        UnchangedFirst(lines, index, sides[h.id := side], default_, b, Pick(h, side), a);
      }
    } else {
      var n := RunLength(lines);
      if k == 0 {
        before, after := [], Merged(lines[n..], index + 1, sides, default_);
        forall side ensures Merged(lines, index, sides[h.id := side], default_) == before + Pick(h, side) + after {
          FirstHunkTakes(lines, index, sides, default_, side);
        }
      } else {
        var b, a := PickIsLocal(lines[n..], index + 1, sides, default_, k - 1);
        before, after := Pick(HunkOf(lines, index), SideOf(sides, default_, HunkId(index))) + b, a;
        LaterHunk(lines, index, k);
        forall side ensures Merged(lines, index, sides[h.id := side], default_) == before + Pick(h, side) + after {
          FirstHunkIgnores(lines, index, sides, default_, h, side, b, a);
        }
      }
    }
  }

  lemma LaterHunk(lines: seq<Line>, index: nat, k: nat)
    requires lines != [] && lines[0].kind != Unchanged && 0 < k < |Hunks(lines, index)|
    ensures var rest := Hunks(lines[RunLength(lines)..], index + 1); k - 1 < |rest| && Hunks(lines, index)[k] == rest[k - 1]
  {
  }

  lemma Shifted(first: seq<string>, b: seq<string>, c: seq<string>, a: seq<string>)
    ensures first + (b + c + a) == first + b + c + a
  {
  }

  lemma UnchangedFirst(lines: seq<Line>, index: nat, sides: map<string, Side>, default_: Side, b: seq<string>, c: seq<string>, a: seq<string>)
    requires lines != [] && lines[0].kind == Unchanged && Merged(lines[1..], index, sides, default_) == b + c + a
    ensures Merged(lines, index, sides, default_) == [lines[0].content] + b + c + a
  {
    Shifted([lines[0].content], b, c, a);
  }

  lemma FirstHunkTakes(lines: seq<Line>, index: nat, sides: map<string, Side>, default_: Side, side: Side)
    requires lines != [] && lines[0].kind != Unchanged
    ensures var h := HunkOf(lines, index);
            Merged(lines, index, sides[h.id := side], default_)
            == [] + Pick(h, side) + Merged(lines[RunLength(lines)..], index + 1, sides, default_)
  {
    LaterHunksIgnore(lines[RunLength(lines)..], index + 1, index, sides, default_, side);
    assert [] + Pick(HunkOf(lines, index), side) == Pick(HunkOf(lines, index), side);
  }

  lemma FirstHunkIgnores(lines: seq<Line>, index: nat, sides: map<string, Side>, default_: Side, h: Hunk, side: Side,
                         b: seq<string>, a: seq<string>)
    requires lines != [] && lines[0].kind != Unchanged && h in Hunks(lines[RunLength(lines)..], index + 1)
    requires Merged(lines[RunLength(lines)..], index + 1, sides[h.id := side], default_) == b + Pick(h, side) + a
    ensures Merged(lines, index, sides[h.id := side], default_)
            == Pick(HunkOf(lines, index), SideOf(sides, default_, HunkId(index))) + b + Pick(h, side) + a
  {
    var k :| 0 <= k < |Hunks(lines, index)| - 1 && Hunks(lines, index)[1..][k] == h;
    IdsAreOneToOne(lines, index, 0, k + 1);
    var first := Pick(HunkOf(lines, index), SideOf(sides, default_, HunkId(index)));
    Shifted(first, b, Pick(h, side), a);
  }

  /** A pick for an earlier hunk does not reach the later ones. */
  lemma {:induction false} LaterHunksIgnore(lines: seq<Line>, index: nat, earlier: nat, sides: map<string, Side>, default_: Side, side: Side)
    requires earlier < index
    ensures Merged(lines, index, sides[HunkId(earlier) := side], default_) == Merged(lines, index, sides, default_)
    decreases |lines|
  {
    if lines != [] {
      if lines[0].kind == Unchanged {
        LaterHunksIgnore(lines[1..], index, earlier, sides, default_, side);
      } else {
        if HunkId(earlier) == HunkId(index) {
          assert HunkId(earlier)[1..] == Decimal(earlier) && HunkId(index)[1..] == Decimal(index);
          DecimalInjective(earlier, index);
          assert false;
        }
        LaterHunksIgnore(lines[RunLength(lines)..], index + 1, earlier, sides, default_, side);
      }
    }
  }
}
