/**
 * Writing a merged scene back into a glTF file (apps/api/src/merge/gltf-resolve.ts): nodes of the base document are
 * patched, added subtrees are cloned from the incoming one, and dropped nodes are stripped from every list.
 */
module GltfMerge {
  import opened Wrappers
  import opened OrderedMaps
  import opened Gltf
  import opened GltfIdentity

  // ------------------------------------------------------------- whole documents

  /** Every index a node or a scene lists is in range, and the node graph has no cycle. */
  ghost predicate Whole(doc: Document) {
    NodesWhole(doc.nodes) && Acyclic(doc.nodes) && ScenesWithin(doc.scenes, |doc.nodes|)
  }

  predicate ScenesWithin(scenes: seq<Scene>, n: int) {
    forall s, c :: 0 <= s < |scenes| && c in scenes[s].nodes ==> 0 <= c < n
  }

  predicate NodesWhole(nodes: seq<Node>) {
    forall i, c :: 0 <= i < |nodes| && c in nodes[i].children ==> 0 <= c < |nodes|
  }

  /** The tree that a node index unfolds to. */
  datatype Tree = Tree(node: Node, children: seq<Tree>)

  function Bare(node: Node): Node { node.(children := []) }

  predicate Unfolds(nodes: seq<Node>, i: int, t: Tree)
    decreases t
  {
    && 0 <= i < |nodes|
    && Bare(nodes[i]) == t.node && |nodes[i].children| == |t.children|
    && forall k :: 0 <= k < |t.children| ==> Unfolds(nodes, nodes[i].children[k], t.children[k])
  }

  lemma {:induction false} UnfoldsUnique(nodes: seq<Node>, i: int, t: Tree, u: Tree)
    requires Unfolds(nodes, i, t) && Unfolds(nodes, i, u)
    ensures t == u
    decreases t
  {
    forall k | 0 <= k < |t.children| ensures t.children[k] == u.children[k] {
      UnfoldsUnique(nodes, nodes[i].children[k], t.children[k], u.children[k]);
    }
  }

  /** Growing a node list leaves what it unfolds to. */
  lemma {:induction false} UnfoldsGrows(nodes: seq<Node>, nodes': seq<Node>, i: int, t: Tree)
    requires nodes <= nodes' && Unfolds(nodes, i, t)
    ensures Unfolds(nodes', i, t)
    decreases t
  {
    forall k | 0 <= k < |t.children| ensures Unfolds(nodes', nodes'[i].children[k], t.children[k]) {
      UnfoldsGrows(nodes, nodes', nodes[i].children[k], t.children[k]);
    }
  }

  // -------------------------------------------------------------------- cloning

  /** `target` with the subtree of `source[i]` appended, children first, and the index of its root. */
  ghost function Clone(source: seq<Node>, rank: seq<nat>, target: seq<Node>, i: int): (r: Result<(seq<Node>, int)>)
    requires Ranks(source, rank) && (0 <= i < |source| ==> rank[i] > 0)
    decreases if 0 <= i < |source| then rank[i] + 1 else 0, 1, 0
  {
    if !(0 <= i < |source|) then Throws
    else
      match CloneAll(source, rank, rank[i], target, source[i].children, [])
      case Throws => Throws
      case Ok((nodes, list)) => Ok((nodes + [source[i].(children := list)], |nodes|))
  }

  ghost function CloneAll(source: seq<Node>, rank: seq<nat>, top: nat, target: seq<Node>, list: seq<int>, done: seq<int>)
    : (r: Result<(seq<Node>, seq<int>)>)
    requires Ranks(source, rank) && forall c :: c in list && 0 <= c < |source| ==> 0 < rank[c] < top
    decreases top + 1, 0, |list|
  {
    if list == [] then Ok((target, done))
    else
      match Clone(source, rank, target, list[0])
      case Throws => Throws
      case Ok((nodes, root)) => CloneAll(source, rank, top, nodes, list[1..], done + [root])
  }

  /** The nodes from `from` on list only nodes between `from` and themselves. */
  predicate Fresh(nodes: seq<Node>, from: int) {
    forall i, c :: 0 <= from <= i < |nodes| && c in nodes[i].children ==> from <= c < i
  }

  /** Cloning only appends; what it appends lists nothing but what was appended before. */
  lemma {:induction false} CloneAppends(source: seq<Node>, rank: seq<nat>, target: seq<Node>, i: int, from: nat)
    requires Ranks(source, rank) && (0 <= i < |source| ==> rank[i] > 0) && from <= |target| && Fresh(target, from)
    ensures var r := Clone(source, rank, target, i);
            r.Ok? ==> target <= r.value.0 && |target| <= r.value.1 == |r.value.0| - 1 && Fresh(r.value.0, from)
    decreases if 0 <= i < |source| then rank[i] + 1 else 0, 1, 0
  {
    if 0 <= i < |source| {
      CloneAllAppends(source, rank, rank[i], target, source[i].children, [], from);
    }
  }

  lemma {:induction false} CloneAllAppends(source: seq<Node>, rank: seq<nat>, top: nat, target: seq<Node>, list: seq<int>, done: seq<int>, from: nat)
    requires Ranks(source, rank) && forall c :: c in list && 0 <= c < |source| ==> 0 < rank[c] < top
    requires from <= |target| && Fresh(target, from) && forall c :: c in done ==> from <= c < |target|
    ensures var r := CloneAll(source, rank, top, target, list, done);
            r.Ok? ==> target <= r.value.0 && Fresh(r.value.0, from) && forall c :: c in r.value.1 ==> from <= c < |r.value.0|
    decreases top + 1, 0, |list|
  {
    if list != [] {
      CloneAppends(source, rank, target, list[0], from);
      var r := Clone(source, rank, target, list[0]);
      if r.Ok? { CloneAllAppends(source, rank, top, r.value.0, list[1..], done + [r.value.1], from); }
    }
  }

  /** Where the source unfolds to a tree, the clone succeeds and its root unfolds to the same tree. */
  lemma {:induction false} CloneUnfolds(source: seq<Node>, rank: seq<nat>, target: seq<Node>, i: int, t: Tree)
    requires Ranks(source, rank) && (0 <= i < |source| ==> rank[i] > 0) && Unfolds(source, i, t)
    ensures var r := Clone(source, rank, target, i); r.Ok? && target <= r.value.0 && Unfolds(r.value.0, r.value.1, t)
    decreases t, 1, 0
  {
    CloneAllUnfolds(source, rank, rank[i], target, source[i].children, [], t.children, [], t);
    CloneAppends(source, rank, target, i, |target|);
    var all := CloneAll(source, rank, rank[i], target, source[i].children, []).value;
    var nodes := Clone(source, rank, target, i).value.0;
    forall k | 0 <= k < |t.children| ensures Unfolds(nodes, all.1[k], t.children[k]) {
      UnfoldsGrows(all.0, nodes, all.1[k], t.children[k]);
    }
  }

  predicate UnfoldAll(nodes: seq<Node>, list: seq<int>, ts: seq<Tree>) {
    |list| == |ts| && forall k :: 0 <= k < |ts| ==> Unfolds(nodes, list[k], ts[k])
  }

  lemma {:induction false} CloneAllUnfolds(source: seq<Node>, rank: seq<nat>, top: nat, target: seq<Node>, list: seq<int>, done: seq<int>,
                                           ts: seq<Tree>, us: seq<Tree>, parent: Tree)
    requires Ranks(source, rank) && forall c :: c in list && 0 <= c < |source| ==> 0 < rank[c] < top
    requires UnfoldAll(source, list, ts) && UnfoldAll(target, done, us)
    requires forall k :: 0 <= k < |ts| ==> ts[k] in parent.children
    ensures var r := CloneAll(source, rank, top, target, list, done);
            r.Ok? && target <= r.value.0 && UnfoldAll(r.value.0, r.value.1, us + ts)
    decreases parent, 0, |list|
  {
    if list == [] {
      assert us + ts == us;
    } else {
      assert ts[0] in parent.children;
      CloneUnfolds(source, rank, target, list[0], ts[0]);
      var (nodes, root) := Clone(source, rank, target, list[0]).value;
      forall k | 0 <= k < |us| ensures Unfolds(nodes, done[k], us[k]) { UnfoldsGrows(target, nodes, done[k], us[k]); }
      assert us + ts == us + [ts[0]] + ts[1..];
      CloneAllUnfolds(source, rank, top, nodes, list[1..], done + [root], ts[1..], us + [ts[0]], parent);
    }
  }

  /** And where the clone succeeds, the source does unfold to a tree. */
  lemma {:induction false} ClonedUnfolds(source: seq<Node>, rank: seq<nat>, target: seq<Node>, i: int) returns (t: Tree)
    requires Ranks(source, rank) && (0 <= i < |source| ==> rank[i] > 0) && Clone(source, rank, target, i).Ok?
    ensures Unfolds(source, i, t)
    decreases if 0 <= i < |source| then rank[i] + 1 else 0, 1, 0
  {
    var ts := AllUnfold(source, rank, rank[i], target, source[i].children, []);
    t := Tree(Bare(source[i]), ts);
  }

  lemma {:induction false} AllUnfold(source: seq<Node>, rank: seq<nat>, top: nat, target: seq<Node>, list: seq<int>, done: seq<int>)
      returns (ts: seq<Tree>)
    requires Ranks(source, rank) && forall c :: c in list && 0 <= c < |source| ==> 0 < rank[c] < top
    requires CloneAll(source, rank, top, target, list, done).Ok?
    ensures UnfoldAll(source, list, ts)
    decreases top + 1, 0, |list|
  {
    if list == [] { return []; }
    var t := ClonedUnfolds(source, rank, target, list[0]);
    var (nodes, root) := Clone(source, rank, target, list[0]).value;
    var rest := AllUnfold(source, rank, top, nodes, list[1..], done + [root]);
    ts := [t] + rest;
  }

  ghost predicate IsTree(nodes: seq<Node>, i: int) { exists t :: Unfolds(nodes, i, t) }

  /**
   * `cloneNodeSubtree` throws exactly when the source subtree has an index out of range; otherwise the target keeps
   * every index, and the new root stands for the very tree the source index stands for.
   */
  lemma CloneIsomorphic(source: seq<Node>, rank: seq<nat>, target: seq<Node>, i: int)
    requires Ranks(source, rank) && (0 <= i < |source| ==> rank[i] > 0)
    ensures var r := Clone(source, rank, target, i);
            && (r.Ok? <==> IsTree(source, i))
            && (r.Ok? ==> target <= r.value.0 && forall t :: Unfolds(source, i, t) <==> Unfolds(r.value.0, r.value.1, t))
  {
    var r := Clone(source, rank, target, i);
    if r.Ok? {
      var t := ClonedUnfolds(source, rank, target, i);
      CloneUnfolds(source, rank, target, i, t);
      forall u ensures Unfolds(source, i, u) <==> Unfolds(r.value.0, r.value.1, u) {
        if Unfolds(source, i, u) { UnfoldsUnique(source, i, t, u); }
        if Unfolds(r.value.0, r.value.1, u) { UnfoldsUnique(r.value.0, r.value.1, t, u); }
      }
    }
    if IsTree(source, i) {
      var t :| Unfolds(source, i, t);
      CloneUnfolds(source, rank, target, i, t);
    }
  }
  function SubtreeSize(nodes: seq<Node>, rank: seq<nat>, i: int): nat
    requires Ranks(nodes, rank) && (0 <= i < |nodes| ==> rank[i] > 0)
    decreases if 0 <= i < |nodes| then rank[i] + 1 else 0, 1, 0
  {
    if 0 <= i < |nodes| then 1 + SubtreeSizes(nodes, rank, rank[i], nodes[i].children) else 0
  }

  function SubtreeSizes(nodes: seq<Node>, rank: seq<nat>, top: nat, list: seq<int>): nat
    requires Ranks(nodes, rank) && forall c :: c in list && 0 <= c < |nodes| ==> 0 < rank[c] < top
    decreases top + 1, 0, |list|
  {
    if list == [] then 0 else SubtreeSize(nodes, rank, list[0]) + SubtreeSizes(nodes, rank, top, list[1..])
  }

  /** A clone appends one node for every occurrence in the source subtree. */
  lemma {:induction false} CloneSize(source: seq<Node>, rank: seq<nat>, target: seq<Node>, i: int)
    requires Ranks(source, rank) && (0 <= i < |source| ==> rank[i] > 0) && Clone(source, rank, target, i).Ok?
    ensures |Clone(source, rank, target, i).value.0| == |target| + SubtreeSize(source, rank, i)
    decreases if 0 <= i < |source| then rank[i] + 1 else 0, 1, 0
  {
    CloneAllSize(source, rank, rank[i], target, source[i].children, []);
  }

  lemma {:induction false} CloneAllSize(source: seq<Node>, rank: seq<nat>, top: nat, target: seq<Node>, list: seq<int>, done: seq<int>)
    requires Ranks(source, rank) && forall c :: c in list && 0 <= c < |source| ==> 0 < rank[c] < top
    requires CloneAll(source, rank, top, target, list, done).Ok?
    ensures |CloneAll(source, rank, top, target, list, done).value.0| == |target| + SubtreeSizes(source, rank, top, list)
    decreases top + 1, 0, |list|
  {
    if list != [] {
      CloneSize(source, rank, target, list[0]);
      var (nodes, root) := Clone(source, rank, target, list[0]).value;
      CloneAllSize(source, rank, top, nodes, list[1..], done + [root]);
    }
  }

  // ------------------------------------------------------- what cloning captures

  /** No node before `from` lists an index from `from` on that is there. */
  predicate NothingCaptured(nodes: seq<Node>, from: int) {
    forall i, c :: 0 <= i < from <= |nodes| && c in nodes[i].children ==> c < from || c >= |nodes|
  }

  /**
   * Whatever fresh nodes are appended, no old node lists any of them before it is attached, exactly when no old
   * node lists an index past the end.
   */
  lemma OnlyPastEndIsCaptured(nodes: seq<Node>)
    ensures (forall i, c :: 0 <= i < |nodes| && c in nodes[i].children ==> c < |nodes|)
       <==> forall more: seq<Node> :: Fresh(nodes + more, |nodes|) ==> NothingCaptured(nodes + more, |nodes|)
  {
    if i, c :| 0 <= i < |nodes| && c in nodes[i].children && c >= |nodes| {
      var more := seq(c - |nodes| + 1, _ => REMOVED);
      assert c in (nodes + more)[i].children;
      assert Fresh(nodes + more, |nodes|) && !NothingCaptured(nodes + more, |nodes|);
    }
  }

  // ------------------------------------------------------------------- attaching

  function AttachAt(doc: Document, p: int, child: int): Document
    requires doc.InRange(p)
  {
    doc.(nodes := doc.nodes[p := doc.nodes[p].(children := doc.nodes[p].children + [child])])
  }

  function AttachToScene(doc: Document, child: int): Document {
    if !doc.HasScene() then doc
    else
      var scene := doc.DefaultScene();
      doc.(scenes := doc.scenes[doc.SceneIndex() := scene.(nodes := scene.nodes + [child])])
  }

  /** A parent id to look up: the document is walked for it. */
  predicate Asks(parent: Option<string>) { parent.Some? && parent.value != "" }

  /** The index a present id leads to in `doc`. */
  ghost function IndexOf(doc: Document, id: Option<string>): (p: Option<int>)
    requires Asks(id) ==> Ends(doc)
    ensures p.Some? ==> p.value == -1 || doc.InRange(p.value)
  {
    if Asks(id) then
      IndexInRange(doc, id.value);
      Get(Entries(Visits(doc)), id.value)
    else None
  }

  lemma IndexInRange(doc: Document, id: string)
    requires Ends(doc)
    ensures var p := Get(Entries(Visits(doc)), id); p.Some? ==> p.value == -1 || doc.InRange(p.value)
    ensures var p := Get(Entries(Visits(doc)), id); p.Some? && p.value >= 0 ==> RankOf(doc)[p.value] > 0
  {
    VisitsSound(doc);
    if Get(Entries(Visits(doc)), id).Some? {
      var k := GetFound(Entries(Visits(doc)), id);
      VisitRanked(doc, RankOf(doc), k);
    }
  }

  /** `attachChildToParent`: the last child of the parent, or a top-level node where the parent is none. */
  ghost function Attach(doc: Document, parent: Option<string>, child: int): Document
    requires Asks(parent) ==> Ends(doc)
  {
    var p := IndexOf(doc, parent);
    if p.Some? && p.value >= 0 then AttachAt(doc, p.value, child) else AttachToScene(doc, child)
  }

  // --------------------------------- cloning and attaching keep documents whole

  /** Ranks once `n - |rank|` fresh nodes are there: ranked old nodes go above them. */
  ghost function Raised(rank: seq<nat>, n: nat): seq<nat>
    requires |rank| <= n
  {
    seq(n, k requires 0 <= k < n => if k >= |rank| then k + 1 else if rank[k] > 0 then rank[k] + n else 0)
  }

  /** The walk of the document is ranked and meets only indices below `from`. */
  ghost predicate Bounded(doc: Document, rank: seq<nat>, from: nat) {
    && from <= |doc.nodes| && RanksWalk(doc, rank)
    && (forall c :: c in doc.Roots() ==> c < from)
    && (forall i, c :: 0 <= i < from && rank[i] > 0 && c in doc.nodes[i].children ==> c < from)
  }

  /** The walk of the document ends and meets no index past its end. */
  ghost predicate Inside(doc: Document) { exists rank :: Bounded(doc, rank, |doc.nodes|) }

  lemma WholeIsInside(doc: Document)
    requires Whole(doc)
    ensures Inside(doc) && Ends(doc)
  {
    var rank :| RanksAll(doc.nodes, rank);
    assert Bounded(doc, rank, |doc.nodes|);
  }

  lemma RootlessEnds(doc: Document)
    requires doc.Roots() == []
    ensures Ends(doc)
  {
    assert RanksWalk(doc, seq(|doc.nodes|, _ => 0));
  }

  lemma GrownRanks(nodes: seq<Node>, nodes': seq<Node>, rank: seq<nat>)
    requires NodesWhole(nodes) && RanksAll(nodes, rank) && nodes <= nodes' && Fresh(nodes', |nodes|)
    ensures NodesWhole(nodes') && RanksAll(nodes', Raised(rank, |nodes'|))
  {
  }

  lemma GrownBounded(doc: Document, rank: seq<nat>, nodes: seq<Node>)
    requires Bounded(doc, rank, |doc.nodes|) && doc.nodes <= nodes && Fresh(nodes, |doc.nodes|)
    ensures Bounded(doc.(nodes := nodes), Raised(rank, |nodes|), |doc.nodes|) && Ends(doc.(nodes := nodes))
  {
    assert doc.(nodes := nodes).Roots() == doc.Roots();
    assert Ranks(nodes, Raised(rank, |nodes|));
    assert RanksWalk(doc.(nodes := nodes), Raised(rank, |nodes|));
  }

  /** Only what lists below the bound reach gets an id. */
  lemma {:induction false} VisitsAreOld(doc: Document, rank: seq<nat>, from: nat, k: nat)
    requires Ends(doc) && Bounded(doc, rank, from) && k < |Visits(doc)|
    ensures Visits(doc)[k].node < from
    decreases k
  {
    VisitsSound(doc);
    var vs := Visits(doc);
    assert Hangs(doc, vs, k);
    if vs[k].parent.Some? {
      var j :| 0 <= j < k && vs[..k][j].id == vs[k].parent.value && Lists(doc, vs[..k][j].node, vs[k].node);
      VisitsAreOld(doc, rank, from, j);
      VisitRanked(doc, rank, j);
    }
  }

  lemma ParentIsOld(doc: Document, rank: seq<nat>, parent: Option<string>, from: nat)
    requires Ends(doc) && Bounded(doc, rank, from)
    ensures var p := IndexOf(doc, parent); p.Some? ==> p.value < from && (p.value >= 0 ==> rank[p.value] > 0)
  {
    if IndexOf(doc, parent).Some? {
      var k := GetFound(Entries(Visits(doc)), parent.value);
      VisitsAreOld(doc, rank, from, k);
      VisitRanked(doc, rank, k);
      IndexInRange(doc, parent.value);
    }
  }

  /** Attaching the root of a fresh subtree to a document inside its bounds meets no index past the end. */
  lemma AttachKeepsInside(doc: Document, nodes: seq<Node>, parent: Option<string>)
    requires Inside(doc) && doc.nodes <= nodes && Fresh(nodes, |doc.nodes|) && |doc.nodes| < |nodes|
    ensures Ends(doc.(nodes := nodes)) && Inside(Attach(doc.(nodes := nodes), parent, |nodes| - 1))
  {
    var rank :| Bounded(doc, rank, |doc.nodes|);
    GrownBounded(doc, rank, nodes);
    var grown, raised := doc.(nodes := nodes), Raised(rank, |nodes|);
    ParentIsOld(grown, raised, parent, |doc.nodes|);
    AttachedBounded(doc, rank, nodes, IndexOf(grown, parent));
  }

  lemma AttachedBounded(doc: Document, rank: seq<nat>, nodes: seq<Node>, p: Option<int>)
    requires Bounded(doc, rank, |doc.nodes|) && doc.nodes <= nodes && Fresh(nodes, |doc.nodes|) && |doc.nodes| < |nodes|
    requires p.Some? ==> p.value < |doc.nodes| && (p.value >= 0 ==> rank[p.value] > 0)
    ensures var grown := doc.(nodes := nodes);
            Bounded(if p.Some? && p.value >= 0 then AttachAt(grown, p.value, |nodes| - 1) else AttachToScene(grown, |nodes| - 1),
                    Raised(rank, |nodes|), |nodes|)
  {
    GrownBounded(doc, rank, nodes);
    var grown, raised := doc.(nodes := nodes), Raised(rank, |nodes|);
    if p.Some? && p.value >= 0 {
      var attached := AttachAt(grown, p.value, |nodes| - 1);
      assert attached.Roots() == doc.Roots();
      assert Ranks(attached.nodes, raised);
    } else if doc.HasScene() {
      assert AttachToScene(grown, |nodes| - 1).Roots() == doc.Roots() + [|nodes| - 1];
    }
  }

  /** Attaching the root of a fresh subtree closes no cycle. */
  lemma AttachKeepsWhole(doc: Document, nodes: seq<Node>, parent: Option<string>)
    requires Whole(doc) && doc.nodes <= nodes && Fresh(nodes, |doc.nodes|) && |doc.nodes| < |nodes|
    ensures Ends(doc.(nodes := nodes)) && Whole(Attach(doc.(nodes := nodes), parent, |nodes| - 1))
  {
    var rank :| RanksAll(doc.nodes, rank);
    assert Bounded(doc, rank, |doc.nodes|);
    GrownBounded(doc, rank, nodes);
    GrownRanks(doc.nodes, nodes, rank);
    var grown, raised := doc.(nodes := nodes), Raised(rank, |nodes|);
    ParentIsOld(grown, raised, parent, |doc.nodes|);
    assert Acyclic(nodes);
    var p := IndexOf(grown, parent);
    if p.Some? && p.value >= 0 {
      assert RanksAll(AttachAt(grown, p.value, |nodes| - 1).nodes, raised);
    }
  }

  // -------------------------------------------------------------------- removing

  const REMOVED := Node(Some("__removed__"), [], None, None)

  function Strip(list: seq<int>, i: int): (r: seq<int>)
    ensures i !in r && forall c :: c in r ==> c in list
  {
    if list == [] then [] else (if list[0] == i then [] else [list[0]]) + Strip(list[1..], i)
  }

  function Stripped(nodes: seq<Node>, i: int): (r: seq<Node>)
    ensures |r| == |nodes| && forall k :: 0 <= k < |nodes| ==> r[k] == nodes[k].(children := Strip(nodes[k].children, i))
  {
    seq(|nodes|, k requires 0 <= k < |nodes| => nodes[k].(children := Strip(nodes[k].children, i)))
  }

  /** `removeNodeFromDoc`. */
  function Remove(doc: Document, i: int): Document
    requires doc.InRange(i)
  {
    if !doc.HasScene() then doc
    else
      var scene := doc.DefaultScene();
      doc.(nodes := Stripped(doc.nodes, i)[i := REMOVED],
           scenes := doc.scenes[doc.SceneIndex() := scene.(nodes := Strip(scene.nodes, i))])
  }

  /** No node and no top level lists `i`. */
  predicate Unlisted(doc: Document, i: int) {
    (forall k :: 0 <= k < |doc.nodes| ==> i !in doc.nodes[k].children) && i !in doc.Roots()
  }

  predicate Gone(doc: Document, i: int) { doc.InRange(i) && doc.nodes[i] == REMOVED && Unlisted(doc, i) }

  lemma RemoveLeavesGone(doc: Document, i: int)
    requires doc.InRange(i)
    ensures doc.HasScene() ==> Gone(Remove(doc, i), i)
    ensures forall j :: Gone(doc, j) ==> Gone(Remove(doc, i), j)
    ensures |Remove(doc, i).nodes| == |doc.nodes| && (Remove(doc, i).HasScene() <==> doc.HasScene())
    ensures forall c :: c in Remove(doc, i).Roots() ==> c in doc.Roots()
  {
  }

  lemma RemoveKeepsWhole(doc: Document, i: int)
    requires Whole(doc) && doc.InRange(i)
    ensures Whole(Remove(doc, i)) && (doc.HasScene() ==> Gone(Remove(doc, i), i))
    ensures forall j :: Gone(doc, j) ==> Gone(Remove(doc, i), j)
    ensures |Remove(doc, i).nodes| == |doc.nodes| && (Remove(doc, i).HasScene() <==> doc.HasScene())
  {
    RemoveLeavesGone(doc, i);
    var rank :| RanksAll(doc.nodes, rank);
    assert RanksAll(Remove(doc, i).nodes, rank);
    assert ScenesWithin(Remove(doc, i).scenes, |doc.nodes|);
  }

  lemma RemoveKeepsInside(doc: Document, i: int)
    requires Inside(doc) && doc.InRange(i)
    ensures Inside(Remove(doc, i))
  {
    RemoveLeavesGone(doc, i);
    var rank :| Bounded(doc, rank, |doc.nodes|);
    assert Ranks(Remove(doc, i).nodes, rank);
    assert Bounded(Remove(doc, i), rank, |doc.nodes|);
  }

  // -------------------------------------------------------------------- the merge

  /**
   * What a merge comes to: a document, a throw of its own, or the throw of a walk that recurses over a cycle until the
   * stack is full.
   */
  datatype Outcome = Written(doc: Document) | Refused | Overflow

  /** `applyParsedToNode`. */
  function Apply(node: Node, ent: Entity): Node {
    node.(name := Some(ent.name), transform := if ent.transform.Some? then ent.transform else node.transform)
  }

  /** The node index `m` has for `id`, the synthetic root aside. */
  function NodeFor(m: OrderedMap<string, int>, id: string): (i: Option<nat>) {
    match Get(m, id)
    case None => None
    case Some(i) => if i >= 0 then Some(i) else None
  }

  predicate Points(m: OrderedMap<string, int>, n: nat) { forall id :: id in KeysOf(m) ==> PointsBelow(m, id, n) }

  predicate PointsBelow(m: OrderedMap<string, int>, id: string, n: nat) { NodeFor(m, id).Some? ==> NodeFor(m, id).value < n }

  lemma PointsInRange(m: OrderedMap<string, int>, id: string, n: nat)
    requires Points(m, n)
    ensures PointsBelow(m, id, n)
  {
    GetAbsent(m, id);
  }

  lemma PointsMore(m: OrderedMap<string, int>, n: nat, n': nat)
    requires Points(m, n) && n <= n'
    ensures Points(m, n')
  {
    forall id | id in KeysOf(m) ensures PointsBelow(m, id, n') { assert PointsBelow(m, id, n); }
  }

  lemma EntriesPoint(doc: Document)
    requires Ends(doc)
    ensures Points(Entries(Visits(doc)), |doc.nodes|)
  {
    forall id | id in KeysOf(Entries(Visits(doc))) ensures PointsBelow(Entries(Visits(doc)), id, |doc.nodes|) {
      IndexInRange(doc, id);
    }
  }

  /** `nodes` with the incoming subtree of an entity appended, and the index of its root. */
  ghost function Cloned(incoming: Document, nodes: seq<Node>, id: string): (r: Result<(seq<Node>, int)>)
    requires Ends(incoming) && NodeFor(Entries(Visits(incoming)), id).Some?
    ensures r.Ok? ==> nodes <= r.value.0 && |nodes| <= r.value.1 == |r.value.0| - 1 && Fresh(r.value.0, |nodes|)
  {
    var i := NodeFor(Entries(Visits(incoming)), id).value;
    IndexInRange(incoming, id);
    CloneAppends(incoming.nodes, RankOf(incoming), nodes, i, |nodes|);
    Clone(incoming.nodes, RankOf(incoming), nodes, i)
  }

  /** A merged entity patches its base node, or is cloned from the incoming document. */
  ghost function PatchOne(doc: Document, inBase: OrderedMap<string, int>, incoming: Document, id: string, ent: Entity): (r: Outcome)
    requires Ends(incoming) && Points(inBase, |doc.nodes|)
    ensures r.Written? ==> |doc.nodes| <= |r.doc.nodes| && (r.doc.HasScene() <==> doc.HasScene())
  {
    PointsInRange(inBase, id, |doc.nodes|);
    match NodeFor(inBase, id)
    case Some(i) => Written(doc.(nodes := doc.nodes[i := Apply(doc.nodes[i], ent)]))
    case None =>
      if NodeFor(Entries(Visits(incoming)), id).None? then Written(doc)
      else
        match Cloned(incoming, doc.nodes, id)
        case Throws => Refused
        case Ok((nodes, root)) =>
          var grown := doc.(nodes := nodes);
          if Asks(ent.parentEntityId) && !Ends(grown) then Overflow else Written(Attach(grown, ent.parentEntityId, root))
  }

  ghost function PatchAll(doc: Document, inBase: OrderedMap<string, int>, incoming: Document, merged: OrderedMap<string, Entity>): (r: Outcome)
    requires Ends(incoming) && Points(inBase, |doc.nodes|)
    ensures r.Written? ==> |doc.nodes| <= |r.doc.nodes| && (r.doc.HasScene() <==> doc.HasScene())
    decreases |merged|
  {
    if merged == [] then Written(doc)
    else
      var first := PatchOne(doc, inBase, incoming, merged[0].0, merged[0].1);
      if !first.Written? then first
      else
        PointsMore(inBase, |doc.nodes|, |first.doc.nodes|);
        PatchAll(first.doc, inBase, incoming, merged[1..])
  }

  /** Removes what the base has and the merge has not. */
  ghost function RemoveAll(doc: Document, inBase: OrderedMap<string, int>, kept: seq<string>, ids: seq<string>): (r: Document)
    requires Points(inBase, |doc.nodes|)
    ensures |r.nodes| == |doc.nodes| && (r.HasScene() <==> doc.HasScene())
    ensures forall j :: Gone(doc, j) ==> Gone(r, j)
    decreases |ids|
  {
    if ids == [] then doc
    else
      PointsInRange(inBase, ids[0], |doc.nodes|);
      match NodeFor(inBase, ids[0])
      case None => RemoveAll(doc, inBase, kept, ids[1..])
      case Some(i) =>
        RemoveLeavesGone(doc, i);
        RemoveAll(if ids[0] in kept then doc else Remove(doc, i), inBase, kept, ids[1..])
  }

  /** `materializeGltfMerge`, whose last step is to parse what it made. */
  ghost function Materialized(base: Document, incoming: Document, merged: OrderedMap<string, Entity>, baseIds: seq<string>): (r: Outcome) {
    if !Ends(base) || !Ends(incoming) then Overflow
    else
      EntriesPoint(base);
      var patched := PatchAll(base, Entries(Visits(base)), incoming, merged);
      if !patched.Written? then patched
      else
        PointsMore(Entries(Visits(base)), |base.nodes|, |patched.doc.nodes|);
        var made := RemoveAll(patched.doc, Entries(Visits(base)), KeysOf(merged), baseIds);
        if made.Roots() == [] then Refused else if Ends(made) then Written(made) else Overflow
  }

  // ------------------------------------------------------ what the merge keeps

  lemma ApplyKeeps(doc: Document, i: nat, ent: Entity)
    requires doc.InRange(i)
    ensures var patched := doc.(nodes := doc.nodes[i := Apply(doc.nodes[i], ent)]);
            (Inside(doc) ==> Inside(patched)) && (Whole(doc) ==> Whole(patched))
  {
    var patched := doc.(nodes := doc.nodes[i := Apply(doc.nodes[i], ent)]);
    assert patched.Roots() == doc.Roots();
    if Inside(doc) {
      var rank :| Bounded(doc, rank, |doc.nodes|);
      assert Ranks(patched.nodes, rank);
      assert Bounded(patched, rank, |patched.nodes|);
    }
    if Whole(doc) {
      var rank :| RanksAll(doc.nodes, rank);
      assert RanksAll(patched.nodes, rank);
    }
  }

  lemma PatchOneKeeps(doc: Document, inBase: OrderedMap<string, int>, incoming: Document, id: string, ent: Entity)
    requires Ends(incoming) && Points(inBase, |doc.nodes|) && Inside(doc)
    ensures var r := PatchOne(doc, inBase, incoming, id, ent);
            !r.Overflow? && (r.Written? ==> Inside(r.doc) && (Whole(doc) ==> Whole(r.doc)))
  {
    PointsInRange(inBase, id, |doc.nodes|);
    if NodeFor(inBase, id).Some? {
      ApplyKeeps(doc, NodeFor(inBase, id).value, ent);
    } else if NodeFor(Entries(Visits(incoming)), id).Some? && Cloned(incoming, doc.nodes, id).Ok? {
      var nodes := Cloned(incoming, doc.nodes, id).value.0;
      AttachKeepsInside(doc, nodes, ent.parentEntityId);
      if Whole(doc) { AttachKeepsWhole(doc, nodes, ent.parentEntityId); }
    }
  }

  lemma {:induction false} PatchAllKeeps(doc: Document, inBase: OrderedMap<string, int>, incoming: Document, merged: OrderedMap<string, Entity>)
    requires Ends(incoming) && Points(inBase, |doc.nodes|) && Inside(doc)
    ensures var r := PatchAll(doc, inBase, incoming, merged);
            !r.Overflow? && (r.Written? ==> Inside(r.doc) && (Whole(doc) ==> Whole(r.doc)))
    decreases |merged|
  {
    if merged != [] {
      PatchOneKeeps(doc, inBase, incoming, merged[0].0, merged[0].1);
      var first := PatchOne(doc, inBase, incoming, merged[0].0, merged[0].1);
      if first.Written? {
        PointsMore(inBase, |doc.nodes|, |first.doc.nodes|);
        PatchAllKeeps(first.doc, inBase, incoming, merged[1..]);
      }
    }
  }

  lemma {:induction false} RemoveAllKeeps(doc: Document, inBase: OrderedMap<string, int>, kept: seq<string>, ids: seq<string>)
    requires Points(inBase, |doc.nodes|) && Inside(doc)
    ensures var r := RemoveAll(doc, inBase, kept, ids); Inside(r) && (Whole(doc) ==> Whole(r))
    decreases |ids|
  {
    if ids != [] {
      PointsInRange(inBase, ids[0], |doc.nodes|);
      match NodeFor(inBase, ids[0])
      case None => RemoveAllKeeps(doc, inBase, kept, ids[1..]);
      case Some(i) =>
        RemoveKeepsInside(doc, i);
        RemoveLeavesGone(doc, i);
        if Whole(doc) { RemoveKeepsWhole(doc, i); }
        RemoveAllKeeps(if ids[0] in kept then doc else Remove(doc, i), inBase, kept, ids[1..]);
    }
  }

  lemma {:induction false} RemovedAreGone(doc: Document, inBase: OrderedMap<string, int>, kept: seq<string>, ids: seq<string>, id: string)
    requires Points(inBase, |doc.nodes|) && doc.HasScene()
    requires id in ids && id !in kept && NodeFor(inBase, id).Some?
    ensures Gone(RemoveAll(doc, inBase, kept, ids), NodeFor(inBase, id).value)
    decreases |ids|
  {
    PointsInRange(inBase, ids[0], |doc.nodes|);
    match NodeFor(inBase, ids[0])
    case None =>
      RemovedAreGone(doc, inBase, kept, ids[1..], id);
    case Some(i) =>
      RemoveLeavesGone(doc, i);
      if ids[0] != id { RemovedAreGone(if ids[0] in kept then doc else Remove(doc, i), inBase, kept, ids[1..], id); }
  }

  /** In whatever is written, a base entity that the merge dropped is listed by no node and by no top level. */
  lemma DroppedAreGone(base: Document, incoming: Document, merged: OrderedMap<string, Entity>, baseIds: seq<string>)
    requires Materialized(base, incoming, merged, baseIds).Written?
    ensures var made := Materialized(base, incoming, merged, baseIds).doc;
            made.Roots() != [] && Ends(base)
            && forall id :: id in baseIds && id !in KeysOf(merged) && NodeFor(Entries(Visits(base)), id).Some? ==>
                 Gone(made, NodeFor(Entries(Visits(base)), id).value)
  {
    var inBase := Entries(Visits(base));
    EntriesPoint(base);
    var patched := PatchAll(base, inBase, incoming, merged).doc;
    PointsMore(inBase, |base.nodes|, |patched.nodes|);
    forall id | id in baseIds && id !in KeysOf(merged) && NodeFor(inBase, id).Some?
      ensures Gone(RemoveAll(patched, inBase, KeysOf(merged), baseIds), NodeFor(inBase, id).value)
    {
      RemovedAreGone(patched, inBase, KeysOf(merged), baseIds, id);
    }
  }

  /** From a base whose walk meets no index past the end, no walk of a merge recurses over a cycle. */
  lemma InsideMergeEnds(base: Document, incoming: Document, merged: OrderedMap<string, Entity>, baseIds: seq<string>)
    requires Ends(base) && Inside(base) && Ends(incoming)
    ensures var r := Materialized(base, incoming, merged, baseIds);
            !r.Overflow? && (r.Written? ==> Inside(r.doc) && (Whole(base) ==> Whole(r.doc)))
  {
    var inBase := Entries(Visits(base));
    EntriesPoint(base);
    PatchAllKeeps(base, inBase, incoming, merged);
    var patched := PatchAll(base, inBase, incoming, merged);
    if patched.Written? {
      PointsMore(inBase, |base.nodes|, |patched.doc.nodes|);
      RemoveAllKeeps(patched.doc, inBase, KeysOf(merged), baseIds);
      var made := RemoveAll(patched.doc, inBase, KeysOf(merged), baseIds);
      var rank :| Bounded(made, rank, |made.nodes|);
    }
  }

  /**
   * Whatever the picks, from a whole base file: no walk overflows, every index in the written document is in range,
   * it has no cycle, and a base entity that the merge dropped is listed by no node and by no top level.
   */
  lemma MaterializedIsWhole(base: Document, incoming: Document, merged: OrderedMap<string, Entity>, baseIds: seq<string>)
    requires Whole(base) && Ends(incoming)
    ensures !Materialized(base, incoming, merged, baseIds).Overflow? && Ends(base)
    ensures Materialized(base, incoming, merged, baseIds).Written? ==>
            var made := Materialized(base, incoming, merged, baseIds).doc;
            Whole(made) && made.Roots() != []
            && forall id :: id in baseIds && id !in KeysOf(merged) && NodeFor(Entries(Visits(base)), id).Some? ==>
                 Gone(made, NodeFor(Entries(Visits(base)), id).value)
  {
    WholeIsInside(base);
    InsideMergeEnds(base, incoming, merged, baseIds);
    if Materialized(base, incoming, merged, baseIds).Written? { DroppedAreGone(base, incoming, merged, baseIds); }
  }

  /** A base node after the merged entities that point at it. */
  function NodeAfter(node: Node, inBase: OrderedMap<string, int>, merged: OrderedMap<string, Entity>, k: nat): Node
    decreases |merged|
  {
    if merged == [] then node
    else NodeAfter(if NodeFor(inBase, merged[0].0) == Some(k) then Apply(node, merged[0].1) else node, inBase, merged[1..], k)
  }

  lemma {:induction false} NodeAfterBare(node: Node, node': Node, inBase: OrderedMap<string, int>, merged: OrderedMap<string, Entity>, k: nat)
    requires Bare(node) == Bare(node')
    ensures Bare(NodeAfter(node, inBase, merged, k)) == Bare(NodeAfter(node', inBase, merged, k))
    decreases |merged|
  {
    if merged != [] {
      var hit := NodeFor(inBase, merged[0].0) == Some(k);
      NodeAfterBare(if hit then Apply(node, merged[0].1) else node, if hit then Apply(node', merged[0].1) else node', inBase, merged[1..], k);
    }
  }

  /** Patching a base node takes exactly the entities that point at it, and its children are only added to. */
  lemma {:induction false} PatchedNodes(doc: Document, inBase: OrderedMap<string, int>, incoming: Document, merged: OrderedMap<string, Entity>, k: nat)
    requires Ends(incoming) && Points(inBase, |doc.nodes|) && k < |doc.nodes|
    requires PatchAll(doc, inBase, incoming, merged).Written?
    ensures var node := PatchAll(doc, inBase, incoming, merged).doc.nodes[k];
            Bare(node) == Bare(NodeAfter(doc.nodes[k], inBase, merged, k)) && doc.nodes[k].children <= node.children
    decreases |merged|
  {
    if merged != [] {
      PatchedNode(doc, inBase, incoming, merged[0].0, merged[0].1, k);
      var next := PatchOne(doc, inBase, incoming, merged[0].0, merged[0].1).doc;
      PointsMore(inBase, |doc.nodes|, |next.nodes|);
      PatchedNodes(next, inBase, incoming, merged[1..], k);
      NodeAfterBare(next.nodes[k], if NodeFor(inBase, merged[0].0) == Some(k) then Apply(doc.nodes[k], merged[0].1) else doc.nodes[k],
                    inBase, merged[1..], k);
    }
  }

  lemma PatchedNode(doc: Document, inBase: OrderedMap<string, int>, incoming: Document, id: string, ent: Entity, k: nat)
    requires Ends(incoming) && Points(inBase, |doc.nodes|) && k < |doc.nodes|
    requires PatchOne(doc, inBase, incoming, id, ent).Written?
    ensures var node := PatchOne(doc, inBase, incoming, id, ent).doc.nodes[k];
            Bare(node) == Bare(if NodeFor(inBase, id) == Some(k) then Apply(doc.nodes[k], ent) else doc.nodes[k])
            && doc.nodes[k].children <= node.children
  {
    PointsInRange(inBase, id, |doc.nodes|);
    if NodeFor(inBase, id).None? && NodeFor(Entries(Visits(incoming)), id).Some? {
      assert Cloned(incoming, doc.nodes, id).value.0[k] == doc.nodes[k];
    }
  }

  /** How many nodes the merged entities that the base lacks bring along. */
  ghost function Added(inBase: OrderedMap<string, int>, incoming: Document, merged: OrderedMap<string, Entity>): nat
    requires Ends(incoming)
    decreases |merged|
  {
    if merged == [] then 0
    else
      var at := NodeFor(Entries(Visits(incoming)), merged[0].0);
      IndexInRange(incoming, merged[0].0);
      var own := if NodeFor(inBase, merged[0].0).None? && at.Some? then SubtreeSize(incoming.nodes, RankOf(incoming), at.value) else 0;
      own + Added(inBase, incoming, merged[1..])
  }

  /**
   * Each added entity brings its whole incoming subtree, whether or not its descendants are added entities too:
   * those are cloned once more on their own turn.
   */
  lemma {:induction false} PatchedSize(doc: Document, inBase: OrderedMap<string, int>, incoming: Document, merged: OrderedMap<string, Entity>)
    requires Ends(incoming) && Points(inBase, |doc.nodes|)
    requires PatchAll(doc, inBase, incoming, merged).Written?
    ensures |PatchAll(doc, inBase, incoming, merged).doc.nodes| == |doc.nodes| + Added(inBase, incoming, merged)
    decreases |merged|
  {
    if merged != [] {
      var next := PatchOne(doc, inBase, incoming, merged[0].0, merged[0].1).doc;
      PointsInRange(inBase, merged[0].0, |doc.nodes|);
      PointsMore(inBase, |doc.nodes|, |next.nodes|);
      var at := NodeFor(Entries(Visits(incoming)), merged[0].0);
      if NodeFor(inBase, merged[0].0).None? && at.Some? {
        IndexInRange(incoming, merged[0].0);
        CloneSize(incoming.nodes, RankOf(incoming), doc.nodes, at.value);
      }
      PatchedSize(next, inBase, incoming, merged[1..]);
    }
  }

  /** A base document that lists an index out of range lists the first clone before it is attached anywhere. */
  lemma DanglingIndexIsCaptured()
    ensures var leaf := Node(None, [], None, None);
            var base := [Node(None, [1], None, None)];
            !NodesWhole(base) && Ranks([leaf], [1])
            && Clone([leaf], [1], base, 0) == Ok((base + [leaf], 1)) && (base + [leaf])[0].children == [1]
  {
    var leaf := Node(None, [], None, None);
    var base := [Node(None, [1], None, None)];
    assert 1 in base[0].children;
    assert CloneAll([leaf], [1], 1, base, [], []) == Ok((base, []));
  }

  // ------------------------------------------------------------ the code in place

  class MergedDocument {
    var doc: Document

    constructor (base: Document)
      ensures doc == base
    {
      doc := base;
    }

    method CloneNodeSubtree(source: Document, i: int, ghost rank: seq<nat>) returns (r: Result<int>)
      requires Ranks(source.nodes, rank) && (source.InRange(i) ==> rank[i] > 0)
      modifies this
      ensures match Clone(source.nodes, rank, old(doc).nodes, i)
              case Throws => r.Throws?
              case Ok((nodes, root)) => r == Ok(root) && doc == old(doc).(nodes := nodes)
      decreases if source.InRange(i) then rank[i] + 1 else 0
    {
      if i < 0 || i >= |source.nodes| { return Throws; }
      var src := source.nodes[i];
      var children := [];
      ghost var all := CloneAll(source.nodes, rank, rank[i], doc.nodes, src.children, []);
      for n := 0 to |src.children|
        invariant doc == old(doc).(nodes := doc.nodes)
        invariant all == CloneAll(source.nodes, rank, rank[i], doc.nodes, src.children[n..], children)
      {
        assert src.children[n..][1..] == src.children[n + 1..];
        var child := CloneNodeSubtree(source, src.children[n], rank);
        if child.Throws? { return Throws; }
        children := children + [child.value];
      }
      doc := doc.(nodes := doc.nodes + [src.(children := children)]);
      r := Ok(|doc.nodes| - 1);
    }

    method AttachChildToParent(parent: Option<string>, child: int)
      requires Asks(parent) ==> Ends(doc)
      modifies this
      ensures doc == Attach(old(doc), parent, child)
    {
      var p := None;
      if Asks(parent) {
        var index := BuildEntityNodeIndexMap(doc);
        IndexInRange(doc, parent.value);
        p := Get(index, parent.value);
      }
      if p.Some? && p.value >= 0 {
        var node := doc.nodes[p.value];
        doc := doc.(nodes := doc.nodes[p.value := node.(children := node.children + [child])]);
        return;
      }
      if doc.HasScene() {
        var scene := doc.DefaultScene();
        doc := doc.(scenes := doc.scenes[doc.SceneIndex() := scene.(nodes := scene.nodes + [child])]);
      }
    }

    method RemoveNodeFromDoc(i: int)
      requires doc.InRange(i)
      modifies this
      ensures doc == Remove(old(doc), i)
    {
      if !doc.HasScene() { return; }
      ghost var before := doc.nodes;
      var nodes := doc.nodes;
      for n := 0 to |nodes|
        invariant |nodes| == |before|
        invariant forall k :: 0 <= k < |nodes| ==> nodes[k] == if k < n then Stripped(before, i)[k] else before[k]
      {
        nodes := nodes[n := nodes[n].(children := Strip(nodes[n].children, i))];
      }
      assert nodes == Stripped(before, i);
      var scene := doc.DefaultScene();
      doc := doc.(nodes := nodes[i := Node(Some("__removed__"), [], None, None)],
                  scenes := doc.scenes[doc.SceneIndex() := scene.(nodes := Strip(scene.nodes, i))]);
    }
  }

  /** Whenever its walks end, the merge writes the specified document or throws; otherwise the source throws as well. */
  method MaterializeGltfMerge(base: Document, incoming: Document, merged: OrderedMap<string, Entity>, baseIds: seq<string>)
      returns (r: Result<Document>)
    requires Materialized(base, incoming, merged, baseIds) != Overflow
    ensures r == match Materialized(base, incoming, merged, baseIds) case Written(made) => Ok(made) case _ => Throws
  {
    var inBase := BuildEntityNodeIndexMap(base);
    var inIncoming := BuildEntityNodeIndexMap(incoming);
    EntriesPoint(base);
    var m := new MergedDocument(base);
    for n := 0 to |merged|
      invariant fresh(m) && Points(inBase, |m.doc.nodes|)
      invariant PatchAll(m.doc, inBase, incoming, merged[n..]) == PatchAll(base, inBase, incoming, merged)
    {
      assert merged[n..][1..] == merged[n + 1..];
      var (id, ent) := merged[n];
      ghost var before := m.doc;
      PointsInRange(inBase, id, |m.doc.nodes|);
      var i := NodeFor(inBase, id);
      if i.Some? {
        m.doc := m.doc.(nodes := m.doc.nodes[i.value := Apply(m.doc.nodes[i.value], ent)]);
      } else {
        var j := NodeFor(inIncoming, id);
        if j.Some? {
          IndexInRange(incoming, id);
          assert !PatchOne(before, inBase, incoming, id, ent).Overflow?;
          var root := m.CloneNodeSubtree(incoming, j.value, RankOf(incoming));
          if root.Throws? { return Throws; }
          m.AttachChildToParent(ent.parentEntityId, root.value);
        }
      }
      assert PatchOne(before, inBase, incoming, id, ent) == Written(m.doc);
      PointsMore(inBase, |before.nodes|, |m.doc.nodes|);
    }
    ghost var patched := m.doc;
    for n := 0 to |baseIds|
      invariant fresh(m) && Points(inBase, |m.doc.nodes|)
      invariant RemoveAll(m.doc, inBase, KeysOf(merged), baseIds[n..]) == RemoveAll(patched, inBase, KeysOf(merged), baseIds)
    {
      assert baseIds[n..][1..] == baseIds[n + 1..];
      PointsInRange(inBase, baseIds[n], |m.doc.nodes|);
      var i := NodeFor(inBase, baseIds[n]);
      if i.Some? {
        RemoveLeavesGone(m.doc, i.value);
        if baseIds[n] !in KeysOf(merged) { m.RemoveNodeFromDoc(i.value); }
      }
    }
    if m.doc.Roots() == [] { RootlessEnds(m.doc); }
    var parsed := ParseGltf(m.doc);
    if parsed.Throws? { return Throws; }
    r := Ok(m.doc);
  }
}
