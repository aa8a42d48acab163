/**
 * What a scene merge leaves in the file it writes (apps/api/src/merge/gltf-resolve.ts), told node by node from the
 * base file, the incoming file and the merged entities.
 */
module GltfWritten {
  import opened Wrappers
  import opened OrderedMaps
  import opened Gltf
  import opened GltfIdentity
  import opened GltfMerge

  /** The id leads to node `k`. */
  predicate LeadsTo(index: OrderedMap<string, int>, id: string, k: nat) { Get(index, id) == Some(k as int) }

  /** A stored entity that is not merged leads to node `k`. */
  predicate IsDropped(index: OrderedMap<string, int>, kept: seq<string>, ids: seq<string>, k: nat) {
    exists id :: id in ids && id !in kept && LeadsTo(index, id, k)
  }

  /** The list without the dropped indices. */
  function Kept(index: OrderedMap<string, int>, kept: seq<string>, ids: seq<string>, list: seq<int>): (r: seq<int>)
    ensures forall c :: c in r <==> c in list && !(c >= 0 && IsDropped(index, kept, ids, c))
  {
    if list == [] then []
    else (if list[0] >= 0 && IsDropped(index, kept, ids, list[0]) then [] else [list[0]]) + Kept(index, kept, ids, list[1..])
  }

  /** `list'` is `list` with only indices from `n` on put at its end. */
  predicate AddedOn(list: seq<int>, list': seq<int>, n: nat) {
    list <= list' && forall i :: |list| <= i < |list'| ==> list'[i] >= n
  }

  // ------------------------------------------------------------------- removing

  lemma {:induction false} KeptNone(index: OrderedMap<string, int>, kept: seq<string>, list: seq<int>)
    ensures Kept(index, kept, [], list) == list
  {
    if list != [] { KeptNone(index, kept, list[1..]); }
  }

  /** One more stored id that drops nothing. */
  lemma {:induction false} KeptSkip(index: OrderedMap<string, int>, kept: seq<string>, ids: seq<string>, list: seq<int>)
    requires ids != [] && (ids[0] in kept || NodeFor(index, ids[0]).None?)
    ensures Kept(index, kept, ids, list) == Kept(index, kept, ids[1..], list)
  {
    if list != [] {
      KeptSkip(index, kept, ids, list[1..]);
      if list[0] >= 0 { DroppedSkip(index, kept, ids, list[0]); }
    }
  }

  lemma DroppedCons(index: OrderedMap<string, int>, kept: seq<string>, ids: seq<string>, k: nat)
    requires ids != []
    ensures IsDropped(index, kept, ids, k) <==> (ids[0] !in kept && LeadsTo(index, ids[0], k)) || IsDropped(index, kept, ids[1..], k)
  {
    assert forall id :: id in ids <==> id == ids[0] || id in ids[1..];
  }

  lemma DroppedSkip(index: OrderedMap<string, int>, kept: seq<string>, ids: seq<string>, k: nat)
    requires ids != [] && (ids[0] in kept || NodeFor(index, ids[0]).None?)
    ensures IsDropped(index, kept, ids, k) <==> IsDropped(index, kept, ids[1..], k)
  {
    DroppedCons(index, kept, ids, k);
  }

  /** One more stored id that drops node `i`. */
  lemma {:induction false} KeptStrip(index: OrderedMap<string, int>, kept: seq<string>, ids: seq<string>, list: seq<int>, i: nat)
    requires ids != [] && ids[0] !in kept && LeadsTo(index, ids[0], i)
    ensures Kept(index, kept, ids, list) == Kept(index, kept, ids[1..], Strip(list, i))
  {
    hide IsDropped, LeadsTo;
    if list != [] {
      KeptStrip(index, kept, ids, list[1..], i);
      if list[0] >= 0 {
        DroppedCons(index, kept, ids, list[0]);
        LeadsOnce(index, ids[0], i, list[0]);
      }
      var stripped := Strip(list, i);
      if list[0] == i {
        assert stripped == Strip(list[1..], i);
      } else {
        assert stripped == [list[0]] + Strip(list[1..], i) && stripped[0] == list[0] && stripped[1..] == Strip(list[1..], i);
      }
    }
  }

  lemma LeadsOnce(index: OrderedMap<string, int>, id: string, i: nat, k: nat)
    requires LeadsTo(index, id, i)
    ensures LeadsTo(index, id, k) <==> k == i
  {
  }

  /** What the removals leave of a node that is not dropped, and of the top level. */
  lemma {:induction false} RemovalsKeep(doc: Document, index: OrderedMap<string, int>, kept: seq<string>, ids: seq<string>, k: nat)
    requires Points(index, |doc.nodes|) && doc.HasScene() && k < |doc.nodes| && !IsDropped(index, kept, ids, k)
    ensures var r := RemoveAll(doc, index, kept, ids);
      Bare(r.nodes[k]) == Bare(doc.nodes[k]) && r.nodes[k].children == Kept(index, kept, ids, doc.nodes[k].children)
    decreases |ids|
  {
    if ids == [] {
      KeptNone(index, kept, doc.nodes[k].children);
    } else {
      PointsInRange(index, ids[0], |doc.nodes|);
      DroppedCons(index, kept, ids, k);
      match NodeFor(index, ids[0])
      case None =>
        KeptSkip(index, kept, ids, doc.nodes[k].children);
        RemovalsKeep(doc, index, kept, ids[1..], k);
      case Some(i) =>
        RemoveLeavesGone(doc, i);
        if ids[0] in kept {
          KeptSkip(index, kept, ids, doc.nodes[k].children);
          RemovalsKeep(doc, index, kept, ids[1..], k);
        } else {
          KeptStrip(index, kept, ids, doc.nodes[k].children, i);
          RemovalsKeep(Remove(doc, i), index, kept, ids[1..], k);
        }
    }
  }

  lemma {:induction false} RemovalsKeepRoots(doc: Document, index: OrderedMap<string, int>, kept: seq<string>, ids: seq<string>)
    requires Points(index, |doc.nodes|) && doc.HasScene()
    ensures RemoveAll(doc, index, kept, ids).Roots() == Kept(index, kept, ids, doc.Roots())
    decreases |ids|
  {
    if ids == [] {
      KeptNone(index, kept, doc.Roots());
    } else {
      PointsInRange(index, ids[0], |doc.nodes|);
      match NodeFor(index, ids[0])
      case None =>
        KeptSkip(index, kept, ids, doc.Roots());
        RemovalsKeepRoots(doc, index, kept, ids[1..]);
      case Some(i) =>
        RemoveLeavesGone(doc, i);
        if ids[0] in kept {
          KeptSkip(index, kept, ids, doc.Roots());
          RemovalsKeepRoots(doc, index, kept, ids[1..]);
        } else {
          KeptStrip(index, kept, ids, doc.Roots(), i);
          RemovalsKeepRoots(Remove(doc, i), index, kept, ids[1..]);
        }
    }
  }

  // ------------------------------------------------------------------- patching

  lemma {:induction false} UntouchedAfter(node: Node, inBase: OrderedMap<string, int>, merged: OrderedMap<string, Entity>, k: nat)
    requires forall i :: 0 <= i < |merged| ==> !LeadsTo(inBase, merged[i].0, k)
    ensures NodeAfter(node, inBase, merged, k) == node
    decreases |merged|
  {
    if merged != [] {
      assert !LeadsTo(inBase, merged[0].0, k);
      forall i | 0 <= i < |merged[1..]| ensures !LeadsTo(inBase, merged[1..][i].0, k) { assert merged[1..][i] == merged[i + 1]; }
      UntouchedAfter(node, inBase, merged[1..], k);
    }
  }

  /** Entity `j` is the last of those merged that lead to node `k`. */
  predicate LastAt(inBase: OrderedMap<string, int>, merged: OrderedMap<string, Entity>, k: nat, j: nat) {
    j < |merged| && LeadsTo(inBase, merged[j].0, k) && forall i :: j < i < |merged| ==> !LeadsTo(inBase, merged[i].0, k)
  }

  lemma {:induction false} LastDecides(node: Node, inBase: OrderedMap<string, int>, merged: OrderedMap<string, Entity>, k: nat, j: nat)
    requires LastAt(inBase, merged, k, j)
    ensures var node', ent := NodeAfter(node, inBase, merged, k), merged[j].1;
      && node'.name == Some(ent.name) && node'.mesh == node.mesh
      && (ent.transform.Some? ==> node'.transform == ent.transform)
      && (ent.transform.None? && (forall i :: 0 <= i < j ==> !LeadsTo(inBase, merged[i].0, k)) ==> node'.transform == node.transform)
    decreases |merged|
  {
    var first := if NodeFor(inBase, merged[0].0) == Some(k) then Apply(node, merged[0].1) else node;
    if j == 0 {
      forall i | 0 <= i < |merged[1..]| ensures !LeadsTo(inBase, merged[1..][i].0, k) { assert merged[1..][i] == merged[i + 1]; }
      UntouchedAfter(first, inBase, merged[1..], k);
    } else {
      forall i | j - 1 < i < |merged[1..]| ensures !LeadsTo(inBase, merged[1..][i].0, k) { assert merged[1..][i] == merged[i + 1]; }
      LastDecides(first, inBase, merged[1..], k, j - 1);
      if forall i :: 0 <= i < j ==> !LeadsTo(inBase, merged[i].0, k) {
        assert !LeadsTo(inBase, merged[0].0, k);
        forall i | 0 <= i < j - 1 ensures !LeadsTo(inBase, merged[1..][i].0, k) { assert merged[1..][i] == merged[i + 1]; }
      }
    }
  }

  // --------------------------------------------------------------- what is written

  /**
   * In the file a merge writes, a base node that the merge does not drop has the name of the last merged entity that
   * leads to it, that entity's placement if it has one, and the base's mesh; the placement is the base's if the entity
   * is the only one and has none.
   */
  lemma MergedNodeIsWritten(base: Document, incoming: Document, merged: OrderedMap<string, Entity>, baseIds: seq<string>, k: nat, j: nat)
    requires Materialized(base, incoming, merged, baseIds).Written?
    requires Ends(base) && k < |base.nodes| && LastAt(Entries(Visits(base)), merged, k, j)
    requires !IsDropped(Entries(Visits(base)), KeysOf(merged), baseIds, k)
    ensures var made, ent := Materialized(base, incoming, merged, baseIds).doc, merged[j].1;
      && k < |made.nodes|
      && made.nodes[k].name == Some(ent.name) && made.nodes[k].mesh == base.nodes[k].mesh
      && (ent.transform.Some? ==> made.nodes[k].transform == ent.transform)
      && (ent.transform.None? && (forall i :: 0 <= i < j ==> !LeadsTo(Entries(Visits(base)), merged[i].0, k)) ==>
            made.nodes[k].transform == base.nodes[k].transform)
  {
    WrittenNode(base, incoming, merged, baseIds, k);
    LastDecides(base.nodes[k], Entries(Visits(base)), merged, k, j);
  }

  /** A base node that no merged entity leads to, and that is not dropped, keeps its name, placement and mesh. */
  lemma OtherNodesStay(base: Document, incoming: Document, merged: OrderedMap<string, Entity>, baseIds: seq<string>, k: nat)
    requires Materialized(base, incoming, merged, baseIds).Written? && Ends(base) && k < |base.nodes|
    requires forall i :: 0 <= i < |merged| ==> !LeadsTo(Entries(Visits(base)), merged[i].0, k)
    requires !IsDropped(Entries(Visits(base)), KeysOf(merged), baseIds, k)
    ensures var made := Materialized(base, incoming, merged, baseIds).doc;
      k < |made.nodes| && Bare(made.nodes[k]) == Bare(base.nodes[k])
  {
    WrittenNode(base, incoming, merged, baseIds, k);
    UntouchedAfter(base.nodes[k], Entries(Visits(base)), merged, k);
  }

  lemma WrittenNode(base: Document, incoming: Document, merged: OrderedMap<string, Entity>, baseIds: seq<string>, k: nat)
    requires Materialized(base, incoming, merged, baseIds).Written? && Ends(base) && k < |base.nodes|
    requires !IsDropped(Entries(Visits(base)), KeysOf(merged), baseIds, k)
    ensures var made := Materialized(base, incoming, merged, baseIds).doc;
      k < |made.nodes| && Bare(made.nodes[k]) == Bare(NodeAfter(base.nodes[k], Entries(Visits(base)), merged, k))
  {
    var inBase := Entries(Visits(base));
    EntriesPoint(base);
    PatchedNodes(base, inBase, incoming, merged, k);
    var patched := PatchAll(base, inBase, incoming, merged).doc;
    PointsMore(inBase, |base.nodes|, |patched.nodes|);
    RemovalsKeep(patched, inBase, KeysOf(merged), baseIds, k);
  }

  // ------------------------------------------------------------------ who lists whom

  lemma AddedMore(a: seq<int>, b: seq<int>, c: seq<int>, n: nat, m: nat)
    requires AddedOn(a, b, n) && AddedOn(b, c, m) && n <= m
    ensures AddedOn(a, c, n)
  {
  }

  /** Patching puts only new nodes into lists, at their ends. */
  lemma PatchOneAdds(doc: Document, inBase: OrderedMap<string, int>, incoming: Document, id: string, ent: Entity)
    requires Ends(incoming) && Points(inBase, |doc.nodes|) && PatchOne(doc, inBase, incoming, id, ent).Written?
    ensures var made := PatchOne(doc, inBase, incoming, id, ent).doc;
      && (forall k :: 0 <= k < |doc.nodes| ==> AddedOn(doc.nodes[k].children, made.nodes[k].children, |doc.nodes|))
      && AddedOn(doc.Roots(), made.Roots(), |doc.nodes|)
  {
    PointsInRange(inBase, id, |doc.nodes|);
    if NodeFor(inBase, id).None? && NodeFor(Entries(Visits(incoming)), id).Some? {
      var (nodes, root) := Cloned(incoming, doc.nodes, id).value;
      var grown := doc.(nodes := nodes);
      assert grown.Roots() == doc.Roots();
      assert forall k :: 0 <= k < |doc.nodes| ==> nodes[k] == doc.nodes[k];
      var p := IndexOf(grown, ent.parentEntityId);
    }
  }

  ghost predicate Adds(doc: Document, made: Document, n: nat) {
    && n <= |doc.nodes| <= |made.nodes|
    && (forall k :: 0 <= k < n ==> AddedOn(doc.nodes[k].children, made.nodes[k].children, n))
    && AddedOn(doc.Roots(), made.Roots(), n)
  }

  lemma {:induction false} PatchAllAdds(doc: Document, inBase: OrderedMap<string, int>, incoming: Document, merged: OrderedMap<string, Entity>, n: nat)
    requires Ends(incoming) && Points(inBase, |doc.nodes|) && n <= |doc.nodes| && PatchAll(doc, inBase, incoming, merged).Written?
    ensures Adds(doc, PatchAll(doc, inBase, incoming, merged).doc, n)
    decreases |merged|
  {
    if merged != [] {
      PatchOneAdds(doc, inBase, incoming, merged[0].0, merged[0].1);
      var next := PatchOne(doc, inBase, incoming, merged[0].0, merged[0].1).doc;
      PointsMore(inBase, |doc.nodes|, |next.nodes|);
      PatchAllAdds(next, inBase, incoming, merged[1..], n);
    }
  }

  /** An index past those that the entities lead to is not dropped. */
  lemma NewIsNotDropped(index: OrderedMap<string, int>, kept: seq<string>, ids: seq<string>, n: nat, c: nat)
    requires Points(index, n) && c >= n
    ensures !IsDropped(index, kept, ids, c)
  {
    if IsDropped(index, kept, ids, c) {
      var id :| id in ids && id !in kept && LeadsTo(index, id, c);
      PointsInRange(index, id, n);
    }
  }

  lemma {:induction false} KeptNew(index: OrderedMap<string, int>, kept: seq<string>, ids: seq<string>, list: seq<int>, n: nat)
    requires Points(index, n) && forall i :: 0 <= i < |list| ==> list[i] >= n
    ensures Kept(index, kept, ids, list) == list
  {
    hide IsDropped, Points;
    if list != [] {
      assert forall i :: 0 <= i < |list[1..]| ==> list[1..][i] == list[i + 1];
      NewIsNotDropped(index, kept, ids, n, list[0]);
      KeptNew(index, kept, ids, list[1..], n);
    }
  }

  lemma {:induction false} KeptBoth(index: OrderedMap<string, int>, kept: seq<string>, ids: seq<string>, a: seq<int>, b: seq<int>)
    ensures Kept(index, kept, ids, a + b) == Kept(index, kept, ids, a) + Kept(index, kept, ids, b)
  {
    hide IsDropped;
    if a == [] {
      assert a + b == b;
    } else {
      assert (a + b)[1..] == a[1..] + b;
      KeptBoth(index, kept, ids, a[1..], b);
    }
  }

  lemma KeptAdded(index: OrderedMap<string, int>, kept: seq<string>, ids: seq<string>, list: seq<int>, list': seq<int>, n: nat)
    requires AddedOn(list, list', n) && Points(index, n)
    ensures AddedOn(Kept(index, kept, ids, list), Kept(index, kept, ids, list'), n)
  {
    var new_ := list'[|list|..];
    assert list' == list + new_ && forall i :: 0 <= i < |new_| ==> new_[i] == list'[|list| + i];
    KeptNew(index, kept, ids, new_, n);
    KeptBoth(index, kept, ids, list, new_);
    hide Kept, Points;
  }

  /**
   * In the file a merge writes, every list of a base node that the merge does not drop, and the top level, is the base's
   * without the dropped nodes and, at its end, with added nodes only: nothing else is lost, moved or listed.
   */
  lemma ListsAreKept(base: Document, incoming: Document, merged: OrderedMap<string, Entity>, baseIds: seq<string>, k: nat)
    requires Materialized(base, incoming, merged, baseIds).Written? && Ends(base) && k < |base.nodes|
    requires !IsDropped(Entries(Visits(base)), KeysOf(merged), baseIds, k)
    ensures var made, inBase := Materialized(base, incoming, merged, baseIds).doc, Entries(Visits(base));
      && k < |made.nodes|
      && AddedOn(Kept(inBase, KeysOf(merged), baseIds, base.nodes[k].children), made.nodes[k].children, |base.nodes|)
      && AddedOn(Kept(inBase, KeysOf(merged), baseIds, base.Roots()), made.Roots(), |base.nodes|)
  {
    var inBase := Entries(Visits(base));
    EntriesPoint(base);
    PatchAllAdds(base, inBase, incoming, merged, |base.nodes|);
    var patched := PatchAll(base, inBase, incoming, merged).doc;
    PointsMore(inBase, |base.nodes|, |patched.nodes|);
    RemovalsKeep(patched, inBase, KeysOf(merged), baseIds, k);
    RemovalsKeepRoots(patched, inBase, KeysOf(merged), baseIds);
    KeptAdded(inBase, KeysOf(merged), baseIds, base.nodes[k].children, patched.nodes[k].children, |base.nodes|);
    KeptAdded(inBase, KeysOf(merged), baseIds, base.Roots(), patched.Roots(), |base.nodes|);
  }

  // ------------------------------------------------------------------ a lone addition

  lemma {:induction false} PatchSplits(doc: Document, inBase: OrderedMap<string, int>, incoming: Document, a: OrderedMap<string, Entity>, b: OrderedMap<string, Entity>)
    requires Ends(incoming) && Points(inBase, |doc.nodes|)
    ensures var first := PatchAll(doc, inBase, incoming, a);
      if first.Written? then
        Points(inBase, |first.doc.nodes|) && PatchAll(doc, inBase, incoming, a + b) == PatchAll(first.doc, inBase, incoming, b)
      else PatchAll(doc, inBase, incoming, a + b) == first
    decreases |a|
  {
    if a == [] {
      assert a + b == b;
    } else {
      assert (a + b)[1..] == a[1..] + b;
      var first := PatchOne(doc, inBase, incoming, a[0].0, a[0].1);
      if first.Written? {
        PointsMore(inBase, |doc.nodes|, |first.doc.nodes|);
        PatchSplits(first.doc, inBase, incoming, a[1..], b);
      }
    }
  }

  predicate AllInBase(inBase: OrderedMap<string, int>, merged: OrderedMap<string, Entity>) {
    forall i :: 0 <= i < |merged| ==> NodeFor(inBase, merged[i].0).Some?
  }

  /** Same lists everywhere, and the same nodes from `n` on. */
  predicate SameLists(doc: Document, made: Document, n: nat) {
    && |made.nodes| == |doc.nodes| && made.scenes == doc.scenes && made.scene == doc.scene
    && (forall k :: 0 <= k < |doc.nodes| ==> made.nodes[k].children == doc.nodes[k].children)
    && (forall k :: n <= k < |doc.nodes| ==> made.nodes[k] == doc.nodes[k])
  }

  lemma {:induction false} BasePatchesOnly(doc: Document, inBase: OrderedMap<string, int>, incoming: Document, merged: OrderedMap<string, Entity>, n: nat)
    requires Ends(incoming) && Points(inBase, n) && n <= |doc.nodes| && Points(inBase, |doc.nodes|) && AllInBase(inBase, merged)
    ensures var r := PatchAll(doc, inBase, incoming, merged);
      r.Written? && SameLists(doc, r.doc, n) && (Inside(doc) ==> Inside(r.doc))
    decreases |merged|
  {
    if merged != [] {
      assert NodeFor(inBase, merged[0].0).Some?;
      PointsInRange(inBase, merged[0].0, n);
      PointsInRange(inBase, merged[0].0, |doc.nodes|);
      var next := PatchOne(doc, inBase, incoming, merged[0].0, merged[0].1).doc;
      ApplyKeeps(doc, NodeFor(inBase, merged[0].0).value, merged[0].1);
      forall i | 0 <= i < |merged[1..]| ensures NodeFor(inBase, merged[1..][i].0).Some? { assert merged[1..][i] == merged[i + 1]; }
      BasePatchesOnly(next, inBase, incoming, merged[1..], n);
    }
  }

  /** The new node is put at the end of one list: the parent's where `p` is a node, else the top level's. */
  ghost predicate HangsAt(doc: Document, made: Document, p: Option<int>, child: int) {
    && |made.nodes| == |doc.nodes|
    && (forall k :: 0 <= k < |doc.nodes| ==>
          Bare(made.nodes[k]) == Bare(doc.nodes[k]) && made.nodes[k].children == doc.nodes[k].children + if p == Some(k) then [child] else [])
    && made.Roots() == doc.Roots() + if p.Some? && p.value >= 0 then [] else [child]
  }

  /**
   * An entity that the base lacks: its incoming subtree is cloned below a new last node, which is put at the end of the
   * parent's list, or of the top level where the parent is none; nothing else changes.
   */
  lemma AdditionHangs(doc: Document, inBase: OrderedMap<string, int>, incoming: Document, id: string, ent: Entity, i: nat, t: Tree)
      returns (grown: Document)
    requires Ends(incoming) && Points(inBase, |doc.nodes|) && Inside(doc) && doc.HasScene()
    requires NodeFor(inBase, id).None? && LeadsTo(Entries(Visits(incoming)), id, i) && Unfolds(incoming.nodes, i, t)
    ensures PatchOne(doc, inBase, incoming, id, ent).Written?
    ensures grown == doc.(nodes := grown.nodes) && doc.nodes <= grown.nodes && |doc.nodes| < |grown.nodes| && Ends(grown)
    ensures var made, p, child := PatchOne(doc, inBase, incoming, id, ent).doc, IndexOf(grown, ent.parentEntityId), |grown.nodes| - 1;
      && HangsAt(grown, made, p, child) && (p.Some? ==> p.value < |doc.nodes|)
      && Fresh(made.nodes, |doc.nodes|) && Unfolds(made.nodes, child, t) && made.HasScene()
  {
    hide Unfolds, Inside, Bounded, IndexOf, Attach, Visits, Cloned, Fresh, HangsAt, Ends;
    var nodes := ClonedTree(doc, incoming, id, i, t);
    grown := doc.(nodes := nodes);
    var oldRank := MaxRank(doc, nodes);
    ParentIsOld(grown, oldRank, ent.parentEntityId, |doc.nodes|);
    AttachHangs(grown, ent.parentEntityId, |nodes| - 1);
    var made := PatchOne(doc, inBase, incoming, id, ent).doc;
    HungFresh(grown, made, |doc.nodes|, IndexOf(grown, ent.parentEntityId), t);
  }

  lemma ClonedTree(doc: Document, incoming: Document, id: string, i: nat, t: Tree) returns (nodes: seq<Node>)
    requires Ends(incoming) && LeadsTo(Entries(Visits(incoming)), id, i) && Unfolds(incoming.nodes, i, t)
    ensures Cloned(incoming, doc.nodes, id) == Ok((nodes, |nodes| - 1)) && |nodes| > 0
    ensures doc.nodes <= nodes && |doc.nodes| < |nodes| && Fresh(nodes, |doc.nodes|) && Unfolds(nodes, |nodes| - 1, t)
  {
    IndexInRange(incoming, id);
    CloneIsomorphic(incoming.nodes, RankOf(incoming), doc.nodes, i);
    assert IsTree(incoming.nodes, i);
    nodes := Cloned(incoming, doc.nodes, id).value.0;
    hide Clone, Unfolds;
  }

  lemma HungFresh(grown: Document, made: Document, n: nat, p: Option<int>, t: Tree)
    requires HangsAt(grown, made, p, |grown.nodes| - 1) && n < |grown.nodes| && (p.Some? ==> p.value < n)
    requires Fresh(grown.nodes, n) && Unfolds(grown.nodes, |grown.nodes| - 1, t)
    ensures Fresh(made.nodes, n) && Unfolds(made.nodes, |grown.nodes| - 1, t)
  {
    forall k | n <= k < |grown.nodes| ensures made.nodes[k] == grown.nodes[k] {
      assert Bare(made.nodes[k]) == Bare(grown.nodes[k]) && made.nodes[k].children == grown.nodes[k].children;
    }
    UnfoldsFresh(grown.nodes, made.nodes, n, |grown.nodes| - 1, t);
    hide Unfolds;
  }

  lemma MaxRank(doc: Document, nodes: seq<Node>) returns (rank: seq<nat>)
    requires Inside(doc) && doc.nodes <= nodes && Fresh(nodes, |doc.nodes|)
    ensures Ends(doc.(nodes := nodes)) && Bounded(doc.(nodes := nodes), rank, |doc.nodes|)
  {
    var oldRank :| Bounded(doc, oldRank, |doc.nodes|);
    GrownBounded(doc, oldRank, nodes);
    rank := Raised(oldRank, |nodes|);
  }

  lemma AttachHangs(doc: Document, parent: Option<string>, child: int)
    requires Ends(doc) && doc.HasScene()
    ensures HangsAt(doc, Attach(doc, parent, child), IndexOf(doc, parent), child) && Attach(doc, parent, child).HasScene()
  {
    var p := IndexOf(doc, parent);
    if p.Some? && p.value >= 0 {
      assert AttachAt(doc, p.value, child).Roots() == doc.Roots();
    }
  }

  /** A tree of fresh nodes depends on no other node. */
  lemma {:induction false} UnfoldsFresh(nodes: seq<Node>, nodes': seq<Node>, n: nat, i: int, t: Tree)
    requires |nodes'| == |nodes| && n <= i && Fresh(nodes, n) && Unfolds(nodes, i, t)
    requires forall k :: n <= k < |nodes| ==> nodes'[k] == nodes[k]
    ensures Unfolds(nodes', i, t)
    decreases t
  {
    forall k | 0 <= k < |t.children| ensures Unfolds(nodes', nodes'[i].children[k], t.children[k]) {
      assert nodes[i].children[k] in nodes[i].children;
      UnfoldsFresh(nodes, nodes', n, nodes[i].children[k], t.children[k]);
    }
  }

  lemma {:induction false} StripAbsent(list: seq<int>, i: int)
    requires i !in list
    ensures Strip(list, i) == list
  {
    if list != [] {
      assert list[0] in list && forall c :: c in list[1..] ==> c in list;
      StripAbsent(list[1..], i);
    }
  }

  /** Removing base nodes leaves the nodes that were added. */
  lemma {:induction false} RemovalsKeepFresh(doc: Document, index: OrderedMap<string, int>, kept: seq<string>, ids: seq<string>, n: nat)
    requires Points(index, n) && Points(index, |doc.nodes|) && n <= |doc.nodes| && Fresh(doc.nodes, n)
    ensures forall k :: n <= k < |doc.nodes| ==> RemoveAll(doc, index, kept, ids).nodes[k] == doc.nodes[k]
    decreases |ids|
  {
    if ids != [] {
      PointsInRange(index, ids[0], n);
      PointsInRange(index, ids[0], |doc.nodes|);
      match NodeFor(index, ids[0])
      case None => RemovalsKeepFresh(doc, index, kept, ids[1..], n);
      case Some(i) =>
        RemoveLeavesGone(doc, i);
        if ids[0] in kept {
          RemovalsKeepFresh(doc, index, kept, ids[1..], n);
        } else {
          RemoveKeepsFresh(doc, i, n);
          RemovalsKeepFresh(Remove(doc, i), index, kept, ids[1..], n);
        }
    }
  }

  lemma RemoveKeepsFresh(doc: Document, i: nat, n: nat)
    requires doc.InRange(i) && i < n <= |doc.nodes| && Fresh(doc.nodes, n)
    ensures |Remove(doc, i).nodes| == |doc.nodes| && Fresh(Remove(doc, i).nodes, n)
    ensures forall k :: n <= k < |doc.nodes| ==> Remove(doc, i).nodes[k] == doc.nodes[k]
  {
    forall k | n <= k < |doc.nodes| ensures Remove(doc, i).nodes[k] == doc.nodes[k] { StripAbsent(doc.nodes[k].children, i); }
  }

  /** Every list is the base's, but for the new node at the end of one: the parent's, or the top level. */
  predicate Listing(base: Document, made: Document, n: nat, p: Option<int>, child: int) {
    && n <= |base.nodes| && n <= |made.nodes|
    && (forall k :: 0 <= k < n ==> made.nodes[k].children == base.nodes[k].children + if p == Some(k) then [child] else [])
    && made.Roots() == base.Roots() + if p.Some? && p.value >= 0 then [] else [child]
  }

  lemma HungListing(base: Document, before: Document, grown: Document, made: Document, p: Option<int>, child: int)
    requires SameLists(base, before, |base.nodes|) && before.nodes <= grown.nodes && grown == before.(nodes := grown.nodes)
    requires HangsAt(grown, made, p, child)
    ensures Listing(base, made, |base.nodes|, p, child)
    ensures forall k :: 0 <= k < |base.nodes| ==> grown.nodes[k].children == base.nodes[k].children
  {
    assert grown.Roots() == before.Roots() == base.Roots();
  }

  lemma SameListing(base: Document, made: Document, patched: Document, n: nat, p: Option<int>, child: int)
    requires Listing(base, made, n, p, child) && SameLists(made, patched, n)
    ensures Listing(base, patched, n, p, child) && patched.HasScene() == made.HasScene()
  {
    assert patched.Roots() == made.Roots();
  }

  lemma TailFresh(made: Document, patched: Document, n: nat, child: int, t: Tree)
    requires SameLists(made, patched, n) && n <= child && Fresh(made.nodes, n) && Unfolds(made.nodes, child, t)
    ensures Fresh(patched.nodes, n) && Unfolds(patched.nodes, child, t)
  {
    UnfoldsFresh(made.nodes, patched.nodes, n, child, t);
    hide Unfolds;
  }

  /** A document with the lone addition cloned but not yet hung, and what the patches make of it. */
  ghost predicate LonePatched(base: Document, patched: Document, at: Document, parent: Option<string>, t: Tree)
    requires Ends(at)
  {
    var n, p, child := |base.nodes|, IndexOf(at, parent), |at.nodes| - 1;
    && n <= child && |patched.nodes| == |at.nodes| && (p.Some? ==> p.value < n) && patched.HasScene()
    && Fresh(patched.nodes, n) && Unfolds(patched.nodes, child, t) && Listing(base, patched, n, p, child)
    && (forall k :: 0 <= k < n ==> at.nodes[k].children == base.nodes[k].children)
    && at.scenes == base.scenes && at.scene == base.scene
  }

  lemma AddedThenPatched(base: Document, before: Document, inBase: OrderedMap<string, int>, incoming: Document, id: string, ent: Entity,
                         b: OrderedMap<string, Entity>, i: nat, t: Tree) returns (at: Document)
    requires Ends(incoming) && SameLists(base, before, |base.nodes|) && Inside(before) && before.HasScene()
    requires Points(inBase, |base.nodes|) && Points(inBase, |before.nodes|) && AllInBase(inBase, b)
    requires NodeFor(inBase, id).None? && LeadsTo(Entries(Visits(incoming)), id, i) && Unfolds(incoming.nodes, i, t)
    ensures PatchAll(before, inBase, incoming, [(id, ent)] + b).Written?
    ensures Ends(at) && before.nodes <= at.nodes
    ensures LonePatched(base, PatchAll(before, inBase, incoming, [(id, ent)] + b).doc, at, ent.parentEntityId, t)
  {
    hide *;
    var n := |base.nodes|;
    at := AdditionHangs(before, inBase, incoming, id, ent, i, t);
    var made := PatchOne(before, inBase, incoming, id, ent).doc;
    SameCount(base, before, n);
    PointsMore(inBase, n, |made.nodes|);
    PatchFirst(before, inBase, incoming, id, ent, b);
    BasePatchesOnly(made, inBase, incoming, b, n);
    var patched := PatchAll(made, inBase, incoming, b).doc;
    var p, child := IndexOf(at, ent.parentEntityId), |at.nodes| - 1;
    HungListing(base, before, at, made, p, child);
    SameListing(base, made, patched, n, p, child);
    TailFresh(made, patched, n, child, t);
    SameSizes(base, before, at, made, patched, n, p, child);
    IsLone(base, patched, at, ent.parentEntityId, t);
  }

  lemma SameCount(doc: Document, made: Document, n: nat)
    requires SameLists(doc, made, n)
    ensures |made.nodes| == |doc.nodes|
  {
  }

  lemma IsLone(base: Document, patched: Document, at: Document, parent: Option<string>, t: Tree)
    requires Ends(at) && |base.nodes| < |at.nodes|
    requires var n, p, child := |base.nodes|, IndexOf(at, parent), |at.nodes| - 1;
      && |patched.nodes| == |at.nodes| && (p.Some? ==> p.value < n) && patched.HasScene()
      && Fresh(patched.nodes, n) && Unfolds(patched.nodes, child, t) && Listing(base, patched, n, p, child)
      && (forall k :: 0 <= k < n ==> at.nodes[k].children == base.nodes[k].children)
      && at.scenes == base.scenes && at.scene == base.scene
    ensures LonePatched(base, patched, at, parent, t)
  {
    hide Unfolds, Fresh, Listing, IndexOf, Ends;
  }

  lemma SameSizes(base: Document, before: Document, at: Document, made: Document, patched: Document, n: nat, p: Option<int>, child: int)
    requires SameLists(base, before, n) && HangsAt(at, made, p, child) && SameLists(made, patched, n) && at == before.(nodes := at.nodes)
    ensures |before.nodes| == |base.nodes| && |patched.nodes| == |made.nodes| == |at.nodes|
    ensures at.scenes == base.scenes && at.scene == base.scene
  {
  }

  lemma PatchFirst(doc: Document, inBase: OrderedMap<string, int>, incoming: Document, id: string, ent: Entity, b: OrderedMap<string, Entity>)
    requires Ends(incoming) && Points(inBase, |doc.nodes|) && PatchOne(doc, inBase, incoming, id, ent).Written?
    requires Points(inBase, |PatchOne(doc, inBase, incoming, id, ent).doc.nodes|)
    ensures PatchAll(doc, inBase, incoming, [(id, ent)] + b) == PatchAll(PatchOne(doc, inBase, incoming, id, ent).doc, inBase, incoming, b)
  {
    assert ([(id, ent)] + b)[1..] == b;
    hide PatchOne;
  }

  lemma LoneAdditionIsPatched(base: Document, incoming: Document, merged: OrderedMap<string, Entity>, j: nat, i: nat, t: Tree)
      returns (at: Document)
    requires Ends(base) && Inside(base) && base.HasScene() && Ends(incoming) && j < |merged|
    requires AllInBase(Entries(Visits(base)), merged[..j]) && AllInBase(Entries(Visits(base)), merged[j + 1..])
    requires NodeFor(Entries(Visits(base)), merged[j].0).None?
    requires LeadsTo(Entries(Visits(incoming)), merged[j].0, i) && Unfolds(incoming.nodes, i, t)
    requires Points(Entries(Visits(base)), |base.nodes|)
    ensures Ends(at) && PatchAll(base, Entries(Visits(base)), incoming, merged).Written?
    ensures PatchAll(base, Entries(Visits(base)), incoming, merged[..j]).Written?
    ensures PatchAll(base, Entries(Visits(base)), incoming, merged[..j]).doc.nodes <= at.nodes
    ensures LonePatched(base, PatchAll(base, Entries(Visits(base)), incoming, merged).doc, at, merged[j].1.parentEntityId, t)
  {
    var inBase := Entries(Visits(base));
    var a, b := merged[..j], merged[j + 1..];
    var (id, ent) := merged[j];
    assert merged == a + ([(id, ent)] + b);
    BasePatchesOnly(base, inBase, incoming, a, |base.nodes|);
    PatchSplits(base, inBase, incoming, a, [(id, ent)] + b);
    var before := PatchAll(base, inBase, incoming, a).doc;
    SameScene(base, before, |base.nodes|);
    hide Unfolds, Inside, IndexOf, AllInBase, Visits, SameLists, PatchAll, Points, LonePatched, Ends, LeadsTo, NodeFor;
    at := AddedThenPatched(base, before, inBase, incoming, id, ent, b, i, t);
  }

  lemma SameScene(doc: Document, made: Document, n: nat)
    requires SameLists(doc, made, n)
    ensures made.HasScene() == doc.HasScene()
  {
  }

  /** The lists that the removals leave. */
  predicate KeptListing(base: Document, made: Document, index: OrderedMap<string, int>, ids: seq<string>, baseIds: seq<string>, p: Option<int>, child: int) {
    && |base.nodes| <= |made.nodes|
    && (forall k :: 0 <= k < |base.nodes| && !IsDropped(index, ids, baseIds, k) ==>
          made.nodes[k].children == Kept(index, ids, baseIds, base.nodes[k].children) + if p == Some(k) then [child] else [])
    && made.Roots() == Kept(index, ids, baseIds, base.Roots()) + if p.Some? && p.value >= 0 then [] else [child]
  }

  lemma RemovalsKeepListing(base: Document, patched: Document, index: OrderedMap<string, int>, ids: seq<string>, baseIds: seq<string>, p: Option<int>, child: int)
    requires Points(index, |base.nodes|) && Points(index, |patched.nodes|) && patched.HasScene() && child >= |base.nodes|
    requires Listing(base, patched, |base.nodes|, p, child)
    ensures KeptListing(base, RemoveAll(patched, index, ids, baseIds), index, ids, baseIds, p, child)
  {
    var n, made := |base.nodes|, RemoveAll(patched, index, ids, baseIds);
    hide IsDropped, RemoveAll, Kept, Points;
    RemovalsKeepRoots(patched, index, ids, baseIds);
    KeptPlus(index, ids, baseIds, base.Roots(), child, n);
    forall k | 0 <= k < n && !IsDropped(index, ids, baseIds, k)
      ensures made.nodes[k].children == Kept(index, ids, baseIds, base.nodes[k].children) + if p == Some(k) then [child] else []
    {
      RemovalsKeep(patched, index, ids, baseIds, k);
      KeptPlus(index, ids, baseIds, base.nodes[k].children, child, n);
    }
  }

  /** The name of the last entity that leads to the node, or its own. */
  ghost predicate Renamed(node: Node, node': Node, inBase: OrderedMap<string, int>, merged: OrderedMap<string, Entity>, k: nat) {
    && (forall j: nat :: LastAt(inBase, merged, k, j) ==> node'.name == Some(merged[j].1.name))
    && ((forall i :: 0 <= i < |merged| ==> !LeadsTo(inBase, merged[i].0, k)) ==> node'.name == node.name)
  }

  lemma AfterRenamed(node: Node, node': Node, inBase: OrderedMap<string, int>, merged: OrderedMap<string, Entity>, k: nat)
    requires Bare(node') == Bare(NodeAfter(node, inBase, merged, k))
    ensures Renamed(node, node', inBase, merged, k)
  {
    forall j: nat | LastAt(inBase, merged, k, j) ensures node'.name == Some(merged[j].1.name) { LastDecides(node, inBase, merged, k, j); }
    if forall i :: 0 <= i < |merged| ==> !LeadsTo(inBase, merged[i].0, k) { UntouchedAfter(node, inBase, merged, k); }
  }

  /**
   * The file that a merge with one added entity writes: its incoming subtree stands below the new last node, which is
   * put at the end of the list of its parent, or of the top level where the parent's id leads to none by then; every
   * other list is the base's without the dropped nodes. `at` is the document in which the parent's id is looked up: the
   * base with the names that the entities merged before give it.
   */
  lemma LoneAdditionIsWritten(base: Document, incoming: Document, merged: OrderedMap<string, Entity>, baseIds: seq<string>, j: nat, i: nat, t: Tree)
      returns (at: Document)
    requires Materialized(base, incoming, merged, baseIds).Written? && Ends(base) && Inside(base) && Ends(incoming) && j < |merged|
    requires AllInBase(Entries(Visits(base)), merged[..j]) && AllInBase(Entries(Visits(base)), merged[j + 1..])
    requires NodeFor(Entries(Visits(base)), merged[j].0).None?
    requires LeadsTo(Entries(Visits(incoming)), merged[j].0, i) && Unfolds(incoming.nodes, i, t)
    ensures Ends(at) && at.scenes == base.scenes && at.scene == base.scene && |base.nodes| < |at.nodes|
    ensures forall k :: 0 <= k < |base.nodes| ==>
              at.nodes[k].children == base.nodes[k].children && Renamed(base.nodes[k], at.nodes[k], Entries(Visits(base)), merged[..j], k)
    ensures var made, p, child := Materialized(base, incoming, merged, baseIds).doc, IndexOf(at, merged[j].1.parentEntityId), |at.nodes| - 1;
      && |made.nodes| == |at.nodes| && Unfolds(made.nodes, child, t) && (p.Some? ==> p.value < |base.nodes|)
      && KeptListing(base, made, Entries(Visits(base)), KeysOf(merged), baseIds, p, child)
  {
    var inBase, n, ids := Entries(Visits(base)), |base.nodes|, KeysOf(merged);
    EntriesPoint(base);
    WrittenIs(base, incoming, merged, baseIds);
    at := LoneAdditionIsPatched(base, incoming, merged, j, i, t);
    var patched := PatchAll(base, inBase, incoming, merged).doc;
    var p, child := IndexOf(at, merged[j].1.parentEntityId), |at.nodes| - 1;
    hide Unfolds, Inside, IndexOf, AllInBase, Visits, LeadsTo, NodeFor, PatchAll, RemoveAll, Listing, KeptListing, Materialized, Points, Fresh, Ends;
    PointsMore(inBase, n, |patched.nodes|);
    RemovalsKeepFresh(patched, inBase, ids, baseIds, n);
    RemovalsKeepListing(base, patched, inBase, ids, baseIds, p, child);
    forall k | 0 <= k < n ensures Renamed(base.nodes[k], at.nodes[k], inBase, merged[..j], k) {
      PatchedNodes(base, inBase, incoming, merged[..j], k);
      var before := PatchAll(base, inBase, incoming, merged[..j]).doc;
      assert at.nodes[k] == before.nodes[k];
      AfterRenamed(base.nodes[k], at.nodes[k], inBase, merged[..j], k);
    }
    UnfoldsFresh(patched.nodes, RemoveAll(patched, inBase, ids, baseIds).nodes, n, child, t);
  }

  lemma WrittenIs(base: Document, incoming: Document, merged: OrderedMap<string, Entity>, baseIds: seq<string>)
    requires Materialized(base, incoming, merged, baseIds).Written? && Ends(base) && Points(Entries(Visits(base)), |base.nodes|)
    ensures base.HasScene() && Ends(incoming) && PatchAll(base, Entries(Visits(base)), incoming, merged).Written?
    ensures var patched := PatchAll(base, Entries(Visits(base)), incoming, merged).doc;
      Points(Entries(Visits(base)), |patched.nodes|)
      && Materialized(base, incoming, merged, baseIds).doc == RemoveAll(patched, Entries(Visits(base)), KeysOf(merged), baseIds)
  {
    var patched := PatchAll(base, Entries(Visits(base)), incoming, merged).doc;
    PointsMore(Entries(Visits(base)), |base.nodes|, |patched.nodes|);
    hide PatchAll, RemoveAll, Visits, Ends, Points;
  }

  lemma KeptPlus(index: OrderedMap<string, int>, kept: seq<string>, ids: seq<string>, list: seq<int>, child: int, n: nat)
    requires n <= child && Points(index, n)
    ensures Kept(index, kept, ids, list + [child]) == Kept(index, kept, ids, list) + [child]
    ensures list + [] == list && Kept(index, kept, ids, list) + [] == Kept(index, kept, ids, list)
  {
    KeptNew(index, kept, ids, [child], n);
    KeptBoth(index, kept, ids, list, [child]);
    hide Kept, Points;
  }
}
