/**
 * Base files with an index past the end of their nodes, which every walk skips (apps/api/src/merge/gltf-resolve.ts,
 * apps/api/src/gltf-parser.ts): exactly when a merge can turn such an index into a cycle.
 */
module GltfPastEnd {
  import opened Wrappers
  import opened OrderedMaps
  import opened Gltf
  import opened GltfIdentity
  import opened GltfMerge

  /** The walk of the document meets the index `c`: at the top, or in the list of a node it visits. */
  ghost predicate Meets(doc: Document, c: int)
    requires Ends(doc)
  {
    c in doc.Roots() || exists k :: 0 <= k < |Visits(doc)| && ListsAt(doc, k, c)
  }

  ghost predicate ListsAt(doc: Document, k: int, c: int)
    requires Ends(doc) && 0 <= k < |Visits(doc)|
  {
    doc.InRange(Visits(doc)[k].node) && c in doc.nodes[Visits(doc)[k].node].children
  }

  /** The walk of the document meets no index past its end. */
  ghost predicate MeetsNothingPastEnd(doc: Document)
    requires Ends(doc)
  {
    forall c :: Meets(doc, c) ==> c < |doc.nodes|
  }

  // ---------------------------------------------------------- no index past the end

  ghost predicate Visited(doc: Document, i: int)
    requires Ends(doc)
  {
    exists k :: 0 <= k < |Visits(doc)| && Visits(doc)[k].node == i
  }

  lemma MetIsVisited(doc: Document, c: int)
    requires Ends(doc) && Meets(doc, c) && doc.InRange(c)
    ensures Visited(doc, c)
  {
    if c in doc.Roots() {
      var k := RootVisited(doc, c);
    } else {
      var j :| 0 <= j < |Visits(doc)| && ListsAt(doc, j, c);
      var k := ListedVisited(doc, j, c);
    }
  }

  lemma VisitedMeets(doc: Document, i: int, c: int)
    requires Ends(doc) && Visited(doc, i) && doc.InRange(i) && c in doc.nodes[i].children
    ensures Meets(doc, c)
  {
    var k :| 0 <= k < |Visits(doc)| && Visits(doc)[k].node == i;
    assert ListsAt(doc, k, c);
  }

  ghost function VisitedRanks(doc: Document): (rank: seq<nat>)
    requires Ends(doc)
    ensures |rank| == |doc.nodes| && forall i :: 0 <= i < |rank| ==> rank[i] == if Visited(doc, i) then RankOf(doc)[i] else 0
  {
    seq(|doc.nodes|, i requires 0 <= i < |doc.nodes| => if Visited(doc, i) then RankOf(doc)[i] else 0)
  }

  /** Ranking the visited nodes alone is enough for the walk. */
  lemma InsideMeansNothingPastEnd(doc: Document)
    requires Ends(doc)
    ensures Inside(doc) <==> MeetsNothingPastEnd(doc)
  {
    if Inside(doc) {
      var rank :| Bounded(doc, rank, |doc.nodes|);
      forall c | Meets(doc, c) ensures c < |doc.nodes| {
        if c !in doc.Roots() {
          var k :| 0 <= k < |Visits(doc)| && ListsAt(doc, k, c);
          VisitRanked(doc, rank, k);
        }
      }
    }
    if MeetsNothingPastEnd(doc) {
      var seen := VisitedRanks(doc);
      forall i, c | 0 <= i < |doc.nodes| && seen[i] > 0 && c in doc.nodes[i].children ensures c < |doc.nodes| {
        VisitedMeets(doc, i, c);
      }
      forall i, c | 0 <= i < |doc.nodes| && seen[i] > 0 && c in doc.nodes[i].children && 0 <= c < |doc.nodes|
        ensures 0 < seen[c] < seen[i]
      {
        VisitedMeets(doc, i, c);
        MetIsVisited(doc, c);
      }
      forall c | c in doc.Roots() ensures c < |doc.nodes| && (0 <= c ==> seen[c] > 0) {
        assert Meets(doc, c);
        if 0 <= c { MetIsVisited(doc, c); }
      }
      assert Ranks(doc.nodes, seen);
      assert Bounded(doc, seen, |doc.nodes|);
    }
  }

  // ------------------------------------------------- from an index past the end to a cycle

  /** Every list of `doc` is still there in `doc'`, and what `doc'` has more comes after. */
  predicate Extends(doc: Document, doc': Document) {
    && |doc.nodes| <= |doc'.nodes|
    && (forall i, c :: 0 <= i < |doc.nodes| && c in doc.nodes[i].children ==> c in doc'.nodes[i].children)
    && (forall c :: c in doc.Roots() ==> c in doc'.Roots())
  }

  /** What is visited stays visited while the lists only grow. */
  lemma {:induction false} VisitedStays(doc: Document, doc': Document, k: nat)
    requires Ends(doc) && Ends(doc') && Extends(doc, doc') && k < |Visits(doc)| && doc.InRange(Visits(doc)[k].node)
    ensures Visited(doc', Visits(doc)[k].node)
    decreases k
  {
    VisitsSound(doc);
    var vs := Visits(doc);
    assert Hangs(doc, vs, k);
    if vs[k].parent.Some? {
      var j :| 0 <= j < k && vs[..k][j].id == vs[k].parent.value && Lists(doc, vs[..k][j].node, vs[k].node);
      if doc.InRange(vs[j].node) {
        VisitedStays(doc, doc', j);
        VisitedMeets(doc', vs[j].node, vs[k].node);
      }
    }
    MetIsVisited(doc', vs[k].node);
  }

  lemma MeetsStays(doc: Document, doc': Document, c: int)
    requires Ends(doc) && Ends(doc') && Extends(doc, doc') && Meets(doc, c)
    ensures Meets(doc', c)
  {
    if c !in doc.Roots() {
      var k :| 0 <= k < |Visits(doc)| && ListsAt(doc, k, c);
      VisitedStays(doc, doc', k);
      VisitedMeets(doc', Visits(doc)[k].node, c);
    }
  }

  /** A walk that meets one of two nodes that list each other recurses for ever. */
  lemma MetCycleOverflows(doc: Document, a: int, b: int)
    requires Ends(doc) && Meets(doc, a) && doc.InRange(a) && doc.InRange(b)
    ensures !(b in doc.nodes[a].children && a in doc.nodes[b].children)
  {
    MetIsVisited(doc, a);
    var k :| 0 <= k < |Visits(doc)| && Visits(doc)[k].node == a;
    VisitRanked(doc, RankOf(doc), k);
  }

  // ------------------------------------------------------------------- a chain of nodes

  /** `|nodes|` nodes, each listing the one before it, the last one named. */
  function ChainNodes(name: string, length: nat): seq<Node>
    requires length > 0
  {
    seq(length, k requires 0 <= k < length => Node(if k == length - 1 then Some(name) else None, if k == 0 then [] else [k - 1], None, None))
  }

  function Chain(name: string, length: nat): Document
    requires length > 0
  {
    Document(ChainNodes(name, length), [Scene(None, [length - 1])], None)
  }

  lemma ChainEnds(name: string, length: nat)
    requires length > 0
    ensures Ends(Chain(name, length)) && Chain(name, length).Roots() == [length - 1]
  {
    assert RanksWalk(Chain(name, length), seq(length, k => k + 1));
  }

  /** The clone of a chain ends in its top, which lists the node before it. */
  lemma {:induction false} CloneChain(name: string, length: nat, rank: seq<nat>, target: seq<Node>, k: nat)
    requires k < length && Ranks(ChainNodes(name, length), rank) && rank[k] > 0
    ensures var r := Clone(ChainNodes(name, length), rank, target, k);
            r.Ok? && target <= r.value.0 && r.value.1 == |target| + k == |r.value.0| - 1
            && (k > 0 ==> r.value.0[r.value.1].children == [r.value.1 - 1])
  {
    var source := ChainNodes(name, length);
    CloneAppends(source, rank, target, k, |target|);
    if k == 0 {
      assert CloneAll(source, rank, rank[0], target, [], []) == Ok((target, []));
    } else {
      assert k - 1 in source[k].children;
      CloneChain(name, length, rank, target, k - 1);
      var (nodes, root) := Clone(source, rank, target, k - 1).value;
      assert [k - 1][1..] == [] && [] + [root] == [root];
      assert CloneAll(source, rank, rank[k], target, [k - 1], []) == CloneAll(source, rank, rank[k], nodes, [], [root]);
    }
  }

  /** A name of its own slug, longer than all of `ids`. */
  function Letters(n: nat): string { seq(n, _ => 'a') }

  lemma {:induction false} LettersAreSlug(n: nat)
    ensures LowerAll(Letters(n)) == Letters(n) && Dashes(Letters(n), false) == Letters(n)
    ensures n > 0 ==> Slugify(Letters(n)) == Letters(n)
  {
    if n > 0 {
      LettersAreSlug(n - 1);
      assert Letters(n)[1..] == Letters(n - 1) && Letters(n) == ['a'] + Letters(n - 1);
    }
  }

  function Longest(vs: seq<Visit>): (n: nat)
    ensures forall v :: v in vs ==> |v.id| <= n
  {
    if vs == [] then 0 else if |vs[0].id| > Longest(vs[1..]) then |vs[0].id| else Longest(vs[1..])
  }

  /** The top of a chain is found under its name. */
  lemma ChainIndex(n: nat, length: nat)
    requires n > 0 && length > 0
    ensures Ends(Chain(Letters(n), length))
    ensures NodeFor(Entries(Visits(Chain(Letters(n), length))), Letters(n)) == Some(length - 1)
  {
    var doc := Chain(Letters(n), length);
    ChainEnds(Letters(n), length);
    LettersAreSlug(n);
    var top := length - 1;
    var first := Visit(Letters(n), None, top);
    assert Ids([]) == {} && Unique({}, BasePath(doc, top, "")) == Letters(n);
    assert [first] <= Walk(doc, RankOf(doc), top, None, "", []) <= Visits(doc);
    GetAt(Entries(Visits(doc)), 0) by { VisitsSound(doc); }
  }

  // ------------------------------------------------------------- the two theorems

  /** The grown document with its new top `d + 1`, which lists `d`, attached below `d`. */
  lemma AttachedOverflows(base: Document, grown: Document, d: int)
    requires Ends(base) && Meets(base, d) && 0 <= d && grown.InRange(d + 1) && Extends(base, grown)
    requires d in grown.nodes[d + 1].children
    ensures !Ends(AttachAt(grown, d, d + 1))
  {
    var attached := AttachAt(grown, d, d + 1);
    if Ends(attached) {
      assert d + 1 in attached.nodes[d].children;
      assert attached.Roots() == grown.Roots() && Extends(base, attached);
      MeetsStays(base, attached, d);
      MetCycleOverflows(attached, d, d + 1);
    }
  }

  /** A base whose walk meets `d` past its end has a merge that overflows: the top of a chain clones over `d`. */
  lemma PastEndCloses(base: Document, d: int) returns (incoming: Document, merged: OrderedMap<string, Entity>)
    requires Ends(base) && Meets(base, d) && d >= |base.nodes|
    ensures Ends(incoming) && Materialized(base, incoming, merged, []) == Overflow
  {
    var inBase := Entries(Visits(base));
    EntriesPoint(base);
    var n, length := Longest(Visits(base)) + 1, d - |base.nodes| + 2;
    incoming := Chain(Letters(n), length);
    ChainIndex(n, length);
    AbsentFromBase(base, n);
    var nodes, root := CloneOverPastEnd(base, d, n, length);
    var grown := base.(nodes := nodes);
    assert grown.Roots() == base.Roots() && Extends(base, grown);
    var parent := "-";
    if Ends(grown) { parent := CapturedId(base, grown, d); }
    var ent := Entity(Letters(n), Some(parent), "", "", "", None, None);
    merged := [(Letters(n), ent)];
    AttachedOverflows(base, grown, d);
    MetHasRoots(base, d);
    OnlyPatch(base, inBase, incoming, Letters(n), ent);
  }

  lemma OnlyPatch(base: Document, inBase: OrderedMap<string, int>, incoming: Document, id: string, ent: Entity)
    requires Ends(incoming) && Points(inBase, |base.nodes|)
    ensures PatchAll(base, inBase, incoming, [(id, ent)]) == PatchOne(base, inBase, incoming, id, ent)
  {
    var merged, first := [(id, ent)], PatchOne(base, inBase, incoming, id, ent);
    assert merged[1..] == [];
    if first.Written? { PointsMore(inBase, |base.nodes|, |first.doc.nodes|); }
  }

  lemma MetHasRoots(doc: Document, c: int)
    requires Ends(doc) && Meets(doc, c)
    ensures doc.Roots() != []
  {
  }

  lemma IdLength(vs: seq<Visit>, k: nat)
    requires k < |vs|
    ensures |vs[k].id| <= Longest(vs)
  {
    assert vs[k] in vs;
  }

  lemma AbsentFromBase(base: Document, n: nat)
    requires Ends(base) && n > Longest(Visits(base))
    ensures NodeFor(Entries(Visits(base)), Letters(n)) == None
  {
    var vs := Visits(base);
    if Get(Entries(vs), Letters(n)).Some? {
      var k := GetFound(Entries(vs), Letters(n));
      IdLength(vs, k);
    }
  }

  lemma CloneOverPastEnd(base: Document, d: int, n: nat, length: nat) returns (nodes: seq<Node>, root: int)
    requires d >= |base.nodes| && n > 0 && length == d - |base.nodes| + 2 && Ends(Chain(Letters(n), length))
    requires NodeFor(Entries(Visits(Chain(Letters(n), length))), Letters(n)) == Some(length - 1)
    ensures Cloned(Chain(Letters(n), length), base.nodes, Letters(n)) == Ok((nodes, root))
    ensures base.nodes <= nodes && root == d + 1 == |nodes| - 1 && nodes[root].children == [d]
  {
    var incoming := Chain(Letters(n), length);
    IndexInRange(incoming, Letters(n));
    CloneChain(Letters(n), length, RankOf(incoming), base.nodes, length - 1);
    nodes, root := Clone(incoming.nodes, RankOf(incoming), base.nodes, length - 1).value.0, d + 1;
  }

  /** The id under which the grown document's walk finds the captured node. */
  lemma CapturedId(base: Document, grown: Document, d: int) returns (id: string)
    requires Ends(base) && Ends(grown) && Meets(base, d) && 0 <= d < |grown.nodes| && Extends(base, grown)
    ensures id != "" && Get(Entries(Visits(grown)), id) == Some(d)
  {
    MeetsStays(base, grown, d);
    MetIsVisited(grown, d);
    var k :| 0 <= k < |Visits(grown)| && Visits(grown)[k].node == d;
    id := Visits(grown)[k].id;
    VisitsNonEmpty(grown);
    VisitsSound(grown);
    GetAt(Entries(Visits(grown)), k);
  }

  /**
   * No merge into a base file overflows the stack, whatever is merged into it, exactly when the walk of the base meets
   * no index past the end of its nodes.
   */
  lemma EveryMergeEnds(base: Document)
    requires Ends(base)
    ensures MeetsNothingPastEnd(base) <==>
      forall incoming: Document, merged: OrderedMap<string, Entity>, baseIds: seq<string> ::
        Ends(incoming) ==> Materialized(base, incoming, merged, baseIds) != Overflow
  {
    InsideMeansNothingPastEnd(base);
    if MeetsNothingPastEnd(base) {
      forall incoming: Document, merged: OrderedMap<string, Entity>, baseIds: seq<string> | Ends(incoming)
        ensures Materialized(base, incoming, merged, baseIds) != Overflow
      {
        InsideMergeEnds(base, incoming, merged, baseIds);
      }
    } else {
      var d :| Meets(base, d) && d >= |base.nodes|;
      var incoming, merged := PastEndCloses(base, d);
    }
  }

  /** The merge throws or writes a document with every index in range and no cycle. */
  ghost predicate WholeOrRefused(r: Outcome) { r.Refused? || (r.Written? && Whole(r.doc)) }

  /** Every merge into a parseable base file keeps indices in range and closes no cycle exactly when the base is such. */
  lemma EveryMergeIsWhole(base: Document)
    requires Ends(base) && base.Roots() != []
    ensures Whole(base) <==>
      forall incoming: Document, merged: OrderedMap<string, Entity>, baseIds: seq<string> ::
        Ends(incoming) ==> WholeOrRefused(Materialized(base, incoming, merged, baseIds))
  {
    if Whole(base) {
      forall incoming: Document, merged: OrderedMap<string, Entity>, baseIds: seq<string> | Ends(incoming)
        ensures WholeOrRefused(Materialized(base, incoming, merged, baseIds))
      {
        MaterializedIsWhole(base, incoming, merged, baseIds);
      }
    } else {
      EntriesPoint(base);
      assert PatchAll(base, Entries(Visits(base)), base, []) == Written(base);
      assert Materialized(base, base, [], []) == Written(base);
    }
  }

  // -------------------------------------------------------------- one such merge

  function Named(name: string, children: seq<int>): Node { Node(Some(name), children, None, None) }

  function Single(nodes: seq<Node>): Document { Document(nodes, [Scene(None, [0])], None) }

  /** `p0` lists a node that is not there. */
  const DANGLING := Single([Named("p0", [1])])

  /** `p0` over `q` over `x` over another `q`. */
  const NESTED := Single([Named("p0", [1]), Named("q", [2]), Named("x", [3]), Named("q", [])])

  function Below(path: string, name: string): string { path + "." + name }

  const Q_ID := Below("p0", "q")
  const X_ID := Below(Q_ID, "x")
  const NESTED_IDS := ["p0", Q_ID, X_ID, Below(X_ID, "q")]
  const NESTED_VISITS := [Visit("p0", None, 0), Visit(Q_ID, Some("p0"), 1), Visit(X_ID, Some(Q_ID), 2),
                          Visit(Below(X_ID, "q"), Some(X_ID), 3)]

  /** The base's `p0` stays, `p0.q.x` is taken over and `p0.q` is not. */
  const WITHOUT_PARENT: OrderedMap<string, Entity> :=
    [("p0", EntityOf(NESTED, NESTED_VISITS[0])), (X_ID, EntityOf(NESTED, NESTED_VISITS[2]))]

  /** `DANGLING` with the clones of the lower `q` and of `x`: `p0` lists the first before it is attached. */
  const CAPTURED := Single([Named("p0", [1]), Named("q", []), Named("x", [1])])

  const CLOSED := Single([Named("p0", [1]), Named("q", [2]), Named("x", [1])])

  lemma Slugs()
    ensures Slugify("p0") == "p0" && Slugify("q") == "q" && Slugify("x") == "x"
  {
    SlugOfTwo("p0");
    SlugOfOne("q");
    SlugOfOne("x");
  }

  lemma SlugOfOne(s: string)
    requires |s| == 1 && 'a' <= s[0] <= 'z'
    ensures Slugify(s) == s
  {
    assert s[1..] == [] && [s[0]] + [] == s;
    assert LowerAll(s) == s && Dashes(s, false) == s;
  }

  lemma SlugOfTwo(s: string)
    requires |s| == 2 && 'a' <= s[0] <= 'z' && '0' <= s[1] <= '9'
    ensures Slugify(s) == s
  {
    assert s[1..][1..] == [] && [s[1]] + [] == s[1..] && [s[0]] + s[1..] == s;
    assert LowerAll(s[1..]) == s[1..] && Dashes(s[1..], false) == s[1..];
    assert LowerAll(s) == s && Dashes(s, false) == s;
  }

  /** The first `n` nodes list each the next; the last one lists nothing, or the first index past the end. */
  predicate ChainDown(doc: Document, n: nat) {
    && 0 < n <= |doc.nodes|
    && (forall k :: 0 <= k < n - 1 ==> doc.nodes[k].children == [k + 1])
    && (doc.nodes[n - 1].children == [] || (doc.nodes[n - 1].children == [n] && n == |doc.nodes|))
  }

  /** `ids` are the paths of the first nodes, each below the one before. */
  predicate Spelled(doc: Document, ids: seq<string>) {
    0 < |ids| <= |doc.nodes| && forall k :: 0 <= k < |ids| ==> SpelledAt(doc, ids, k)
  }

  predicate SpelledAt(doc: Document, ids: seq<string>, k: int)
    requires 0 <= k < |ids| <= |doc.nodes|
  {
    BasePath(doc, k, PathAbove(ids, k)) == ids[k]
  }

  function PathAbove(ids: seq<string>, k: nat): string
    requires k <= |ids|
  {
    if k == 0 then "" else ids[k - 1]
  }

  function IdAbove(ids: seq<string>, k: nat): Option<string>
    requires k <= |ids|
  {
    if k == 0 then None else Some(ids[k - 1])
  }

  /** The visits of such nodes. */
  function Downs(ids: seq<string>): (vs: seq<Visit>)
    ensures |vs| == |ids| && forall k {:trigger vs[k]} :: 0 <= k < |ids| ==> vs[k] == Visit(ids[k], IdAbove(ids, k), k)
  {
    seq(|ids|, k requires 0 <= k < |ids| => Visit(ids[k], IdAbove(ids, k), k))
  }

  /** Down a chain ids only get longer. */
  lemma {:induction false} LongerBelow(doc: Document, ids: seq<string>, j: nat, k: nat)
    requires Spelled(doc, ids) && j < k < |ids|
    ensures |ids[j]| < |ids[k]|
    decreases k
  {
    SlugShape(NameOf(doc, k));
    assert SpelledAt(doc, ids, k);
    if j < k - 1 { LongerBelow(doc, ids, j, k - 1); }
  }

  lemma NewBelow(doc: Document, ids: seq<string>, i: nat)
    requires Spelled(doc, ids) && i < |ids|
    ensures ids[i] !in Ids(Downs(ids)[..i])
  {
    if ids[i] in Ids(Downs(ids)[..i]) {
      var v :| v in Downs(ids)[..i] && v.id == ids[i];
      LongerBelow(doc, ids, v.node, i);
    }
  }

  lemma PlainPath(doc: Document, ids: seq<string>, i: nat)
    requires Spelled(doc, ids) && i < |ids|
    ensures Unique(Ids(Downs(ids)[..i]), BasePath(doc, i, PathAbove(ids, i))) == ids[i]
    ensures Downs(ids)[..i] + [Visit(ids[i], IdAbove(ids, i), i)] == Downs(ids)[..i + 1]
  {
    hide BasePath, Ids;
    NewBelow(doc, ids, i);
    assert SpelledAt(doc, ids, i);
  }

  lemma WalkSingle(doc: Document, rank: seq<nat>, top: nat, c: int, parent: Option<string>, path: string, done: seq<Visit>)
    requires Ranks(doc.nodes, rank) && (doc.InRange(c) ==> 0 < rank[c] < top)
    ensures WalkAll(doc, rank, top, [c], parent, path, done) == Walk(doc, rank, c, parent, path, done)
  {
    var next := Walk(doc, rank, c, parent, path, done);
    assert [c][1..] == [];
    assert WalkAll(doc, rank, top, [c], parent, path, done) == WalkAll(doc, rank, top, [], parent, path, next);
  }

  lemma {:induction false} WalkDown(doc: Document, rank: seq<nat>, ids: seq<string>, i: nat)
    requires Ranks(doc.nodes, rank) && Spelled(doc, ids) && ChainDown(doc, |ids|) && i < |ids| && rank[i] > 0
    ensures Walk(doc, rank, i, IdAbove(ids, i), PathAbove(ids, i), Downs(ids)[..i]) == Downs(ids)
    decreases |ids| - i
  {
    PlainPath(doc, ids, i);
    var id, children, vs := ids[i], doc.nodes[i].children, Downs(ids)[..i + 1];
    assert Walk(doc, rank, i, IdAbove(ids, i), PathAbove(ids, i), Downs(ids)[..i]) == WalkAll(doc, rank, rank[i], children, Some(id), id, vs);
    if children != [] {
      assert children == [i + 1] && i + 1 in children;
      WalkSingle(doc, rank, rank[i], i + 1, Some(id), id, vs);
      if i + 1 < |ids| { WalkDown(doc, rank, ids, i + 1); }
    }
  }

  lemma VisitsOfChain(doc: Document, ids: seq<string>)
    requires Ends(doc) && doc.scenes == [Scene(None, [0])] && doc.scene == None && Spelled(doc, ids) && ChainDown(doc, |ids|)
    ensures Visits(doc) == Downs(ids)
  {
    var rank := RankOf(doc);
    assert doc.Roots() == [0] && 0 in doc.Roots();
    assert Visits(doc) == WalkAll(doc, rank, Above(rank), [0], None, "", []);
    WalkSingle(doc, rank, Above(rank), 0, None, "", []);
    WalkDown(doc, rank, ids, 0);
    assert Downs(ids)[..0] == [];
  }

  lemma PathOf(doc: Document, ids: seq<string>, k: nat, name: string)
    requires k < |ids| <= |doc.nodes| && doc.nodes[k].name == Some(name) && Slugify(name) == name
    requires if k == 0 then ids[k] == name else ids[k - 1] != "" && ids[k] == Below(ids[k - 1], name)
    ensures SpelledAt(doc, ids, k)
  {
  }

  lemma PathsOfNested()
    ensures Spelled(NESTED, NESTED_IDS)
  {
    hide BasePath, Slugify, SpelledAt;
    Slugs();
    PathOf(NESTED, NESTED_IDS, 0, "p0");
    PathOf(NESTED, NESTED_IDS, 1, "q");
    PathOf(NESTED, NESTED_IDS, 2, "x");
    PathOf(NESTED, NESTED_IDS, 3, "q");
  }

  lemma PathsOfCaptured()
    ensures Spelled(CAPTURED, ["p0", Q_ID])
  {
    Slugs();
    PathOf(CAPTURED, ["p0", Q_ID], 0, "p0");
    PathOf(CAPTURED, ["p0", Q_ID], 1, "q");
  }

  lemma NestedEnds()
    ensures Ends(NESTED)
  {
    assert RanksWalk(NESTED, [4, 3, 2, 1]);
  }

  lemma DanglingEnds()
    ensures Ends(DANGLING)
  {
    assert RanksWalk(DANGLING, [1]);
  }

  lemma CapturedEnds()
    ensures Ends(CAPTURED)
  {
    assert RanksWalk(CAPTURED, [2, 1, 2]);
  }

  lemma VisitsOfNested()
    ensures Ends(NESTED) && Visits(NESTED) == NESTED_VISITS
  {
    NestedEnds();
    PathsOfNested();
    VisitsOfChain(NESTED, NESTED_IDS);
  }

  lemma VisitsOfDangling()
    ensures Ends(DANGLING) && Visits(DANGLING) == [Visit("p0", None, 0)]
  {
    DanglingEnds();
    Slugs();
    PathOf(DANGLING, ["p0"], 0, "p0");
    VisitsOfChain(DANGLING, ["p0"]);
  }

  lemma VisitsOfCaptured()
    ensures Ends(CAPTURED) && Visits(CAPTURED) == [Visit("p0", None, 0), Visit(Q_ID, Some("p0"), 1)]
  {
    CapturedEnds();
    PathsOfCaptured();
    VisitsOfChain(CAPTURED, ["p0", Q_ID]);
  }

  lemma ClosedOverflows()
    ensures !Ends(CLOSED)
  {
    if Ends(CLOSED) {
      var k := RootVisited(CLOSED, 0);
      VisitedMeets(CLOSED, 0, 1);
      MetCycleOverflows(CLOSED, 1, 2);
    }
  }

  /** Cloning a node with one leaf below it. */
  lemma CloneOfTwo(source: seq<Node>, rank: seq<nat>, target: seq<Node>, i: int, c: int)
    requires Ranks(source, rank) && 0 <= i < |source| && rank[i] > 0 && 0 <= c < |source|
    requires source[i].children == [c] && source[c].children == []
    ensures c in source[i].children
    ensures Clone(source, rank, target, i) == Ok((target + [source[c]] + [source[i].(children := [|target|])], |target| + 1))
  {
    assert c in source[i].children && [c][1..] == [] && [] + [|target|] == [|target|];
    assert CloneAll(source, rank, rank[c], target, [], []) == Ok((target, []));
    var nodes := target + [source[c]];
    assert Clone(source, rank, target, c) == Ok((nodes, |target|)) by { assert source[c].(children := []) == source[c]; }
    assert CloneAll(source, rank, rank[i], nodes, [], [|target|]) == Ok((nodes, [|target|]));
    assert CloneAll(source, rank, rank[i], target, [c], []) == CloneAll(source, rank, rank[i], nodes, [], [|target|]);
  }

  lemma ClonesOfX()
    ensures Ends(NESTED) && NodeFor(Entries(Visits(NESTED)), X_ID) == Some(2)
    ensures Cloned(NESTED, DANGLING.nodes, X_ID) == Ok((CAPTURED.nodes, 2))
  {
    VisitsOfNested();
    GetAt(Entries(NESTED_VISITS), 2) by { VisitsSound(NESTED); }
    IndexInRange(NESTED, X_ID);
    CloneOfTwo(NESTED.nodes, RankOf(NESTED), DANGLING.nodes, 2, 3);
    assert DANGLING.nodes + [NESTED.nodes[3]] + [Named("x", [1])] == CAPTURED.nodes;
  }

  lemma AttachCloses()
    ensures AttachAt(CAPTURED, 1, 2) == CLOSED
  {
    assert CAPTURED.nodes[1].children + [2] == [2];
    assert CAPTURED.nodes[1 := Named("q", [2])] == CLOSED.nodes;
  }

  /** The entity taken over is cloned and attached to the parent that its own clone brought. */
  lemma PatchCloses(inBase: OrderedMap<string, int>)
    requires inBase == [("p0", 0)] && Ends(NESTED)
    requires Points(inBase, |DANGLING.nodes|)
    ensures PatchOne(DANGLING, inBase, NESTED, X_ID, WITHOUT_PARENT[1].1) == Written(CLOSED)
  {
    ClonesOfX();
    VisitsOfCaptured();
    GetAt(Entries(Visits(CAPTURED)), 1) by { VisitsSound(CAPTURED); }
    assert inBase[1..] == [] && Get(inBase, X_ID) == None;
    assert DANGLING.(nodes := CAPTURED.nodes) == CAPTURED;
    assert IndexOf(CAPTURED, Some(Q_ID)) == Some(1);
    AttachCloses();
  }

  /** Taking an entity over without its parent finds the parent again in its own clone, and the cycle closes. */
  lemma RefusedParentClosesCycle()
    ensures Ends(DANGLING) && Ends(NESTED) && Visits(DANGLING) == [Visit("p0", None, 0)] && Visits(NESTED) == NESTED_VISITS
    ensures Materialized(DANGLING, NESTED, WITHOUT_PARENT, ["p0"]) == Overflow
  {
    VisitsOfDangling();
    VisitsOfNested();
    EntriesPoint(DANGLING);
    var inBase := Entries(Visits(DANGLING));
    assert inBase == [("p0", 0)];
    PatchCloses(inBase);
    PatchedBoth(inBase, WITHOUT_PARENT);
    ClosedOverflows();
    PointsMore(inBase, 1, 3);
    assert ["p0"][1..] == [] && WITHOUT_PARENT[0].0 in KeysOf(WITHOUT_PARENT);
  }

  lemma PatchedBoth(inBase: OrderedMap<string, int>, merged: OrderedMap<string, Entity>)
    requires inBase == [("p0", 0)] && Ends(NESTED) && Points(inBase, |DANGLING.nodes|) && merged == WITHOUT_PARENT
    requires PatchOne(DANGLING, inBase, NESTED, X_ID, merged[1].1) == Written(CLOSED)
    ensures PatchAll(DANGLING, inBase, NESTED, merged) == Written(CLOSED)
  {
    assert DANGLING.nodes[0 := Apply(DANGLING.nodes[0], merged[0].1)] == DANGLING.nodes;
    assert PatchOne(DANGLING, inBase, NESTED, "p0", merged[0].1) == Written(DANGLING);
    assert merged[1..] == [merged[1]] && [merged[1]][1..] == [];
    PointsMore(inBase, 1, 3);
    assert PatchAll(CLOSED, inBase, NESTED, []) == Written(CLOSED);
    assert PatchAll(DANGLING, inBase, NESTED, [merged[1]]) == Written(CLOSED);
  }
}
