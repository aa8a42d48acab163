/**
 * Entities held together by position-fixed constraints (apps/api/src/routes/entities.ts and constraints.ts): the two
 * breadth-first collectors, and moves, deletions and constraint edits interleaved at their awaits.
 */
module RigidGroups {
  import opened Wrappers
  import opened Collections

  type Id = nat

  // ---------------------------------------------------------------- least closed sets

  ghost predicate Closed(edges: set<(Id, Id)>, s: set<Id>) { forall x, y :: (x, y) in edges && x in s ==> y in s }

  /** What the edges reach from `seed`: the least set around it that no edge leaves. */
  ghost predicate IsReach(edges: set<(Id, Id)>, seed: Id, s: set<Id>) {
    seed in s && Closed(edges, s) && forall t: set<Id> :: Holds(edges, seed, t) ==> s <= t
  }

  ghost predicate Holds(edges: set<(Id, Id)>, seed: Id, t: set<Id>) { seed in t && Closed(edges, t) }

  predicate IsPath(edges: set<(Id, Id)>, p: seq<Id>) { p != [] && forall k :: 0 <= k < |p| - 1 ==> (p[k], p[k + 1]) in edges }

  ghost predicate Linked(edges: set<(Id, Id)>, x: Id, y: Id) {
    exists p :: IsPath(edges, p) && p[0] == x && p[|p| - 1] == y
  }

  lemma {:induction false} PathStaysIn(edges: set<(Id, Id)>, s: set<Id>, p: seq<Id>)
    requires IsPath(edges, p) && Closed(edges, s) && p[0] in s
    ensures p[|p| - 1] in s
    decreases |p|
  {
    if |p| > 1 {
      assert (p[0], p[1]) in edges;
      assert IsPath(edges, p[1..]);
      PathStaysIn(edges, s, p[1..]);
    }
  }

  /** The least closed set around `seed` holds exactly what a path of edges leads to. */
  lemma ReachIsLinked(edges: set<(Id, Id)>, seed: Id, s: set<Id>, x: Id)
    requires IsReach(edges, seed, s)
    ensures x in s <==> Linked(edges, seed, x)
  {
    if Linked(edges, seed, x) {
      var p :| IsPath(edges, p) && p[0] == seed && p[|p| - 1] == x;
      PathStaysIn(edges, s, p);
    }
    var t := set y | y in s && Linked(edges, seed, y);
    assert seed in t by { assert IsPath(edges, [seed]) && [seed][0] == seed; }
    forall y, z | (y, z) in edges && y in t ensures z in t {
      var p :| IsPath(edges, p) && p[0] == seed && p[|p| - 1] == y;
      assert IsPath(edges, p + [z]) && (p + [z])[0] == seed && (p + [z])[|p + [z]| - 1] == z;
    }
    assert Holds(edges, seed, t);
  }

  // ------------------------------------------------------------ the rigid group of a move

  /** The rows of position-fixed constraints, as edges both ways. */
  function Edges(rows: seq<(Id, Id)>): set<(Id, Id)> {
    (set r | r in rows :: (r.0, r.1)) + (set r | r in rows :: (r.1, r.0))
  }

  predicate Joined(rows: seq<(Id, Id)>, x: Id, y: Id) { (x, y) in rows || (y, x) in rows }

  lemma EdgeRows(rows: seq<(Id, Id)>, e: (Id, Id))
    ensures e in Edges(rows) <==> Joined(rows, e.0, e.1)
  {
    assert (e.0, e.1) in rows ==> e in (set r | r in rows :: (r.0, r.1));
    assert (e.1, e.0) in rows ==> e in (set r | r in rows :: (r.1, r.0));
  }

  function Neighbours(adjacency: map<Id, set<Id>>, x: Id): set<Id> { if x in adjacency then adjacency[x] else {} }

  function Ends(rows: seq<(Id, Id)>): set<Id> { (set r | r in rows :: r.0) + (set r | r in rows :: r.1) }

  lemma EndsOfEdge(rows: seq<(Id, Id)>, e: (Id, Id))
    requires e in Edges(rows)
    ensures e.1 in Ends(rows)
  {
    EdgeRows(rows, e);
  }

  /** The adjacency sets that `collectPositionFixedGroup` builds first. */
  method Adjacency(rows: seq<(Id, Id)>) returns (adjacency: map<Id, set<Id>>)
    ensures forall x: Id, y: Id :: y in Neighbours(adjacency, x) <==> (x, y) in Edges(rows)
  {
    adjacency := map[];
    for n := 0 to |rows|
      invariant forall x: Id, y: Id :: y in Neighbours(adjacency, x) <==> Joined(rows[..n], x, y)
    {
      var (a, b) := rows[n];
      JoinedPush(rows[..n], a, b);
      assert rows[..n + 1] == rows[..n] + [(a, b)];
      adjacency := adjacency[a := Neighbours(adjacency, a) + {b}];
      adjacency := adjacency[b := Neighbours(adjacency, b) + {a}];
    }
    assert rows[..|rows|] == rows;
    forall x: Id, y: Id ensures y in Neighbours(adjacency, x) <==> (x, y) in Edges(rows) { EdgeRows(rows, (x, y)); }
  }

  lemma JoinedPush(rows: seq<(Id, Id)>, a: Id, b: Id)
    ensures forall x: Id, y: Id :: Joined(rows + [(a, b)], x, y) <==> Joined(rows, x, y) || (x == a && y == b) || (x == b && y == a)
  {
  }

  /** The inner loop of the search: neighbours not visited before join `visited` and the queue. */
  method VisitAll(neighbours: set<Id>, before: set<Id>, waiting: seq<Id>) returns (visited: set<Id>, queue: seq<Id>)
    ensures visited == before + neighbours && waiting <= queue
    ensures forall q :: q in queue <==> q in waiting || q in visited - before
    ensures visited == before ==> queue == waiting
  {
    visited, queue := before, waiting;
    var todo := neighbours;
    while todo != {}
      invariant todo <= neighbours && visited + todo == before + neighbours && before <= visited && waiting <= queue
      invariant forall q :: q in queue <==> q in waiting || q in visited - before
      invariant visited == before ==> queue == waiting
    {
      var next :| next in todo;
      todo := todo - {next};
      if next !in visited {
        visited := visited + {next};
        queue := queue + [next];
      }
    }
  }

  /** `collectPositionFixedGroup`: the connected component of the seed. */
  method CollectPositionFixedGroup(rows: seq<(Id, Id)>, seed: Id) returns (visited: set<Id>)
    ensures IsReach(Edges(rows), seed, visited)
  {
    var adjacency := Adjacency(rows);
    ghost var edges, all := Edges(rows), {seed} + Ends(rows);
    visited := {seed};
    var queue := [seed];
    while queue != []
      invariant seed in visited && visited <= all && forall q :: q in queue ==> q in visited
      invariant forall x: Id, y: Id :: (x, y) in edges && x in visited && x !in queue ==> y in visited
      invariant forall t: set<Id> :: Holds(edges, seed, t) ==> visited <= t
      decreases |all - visited|, |queue|
    {
      var current := queue[0];
      ghost var before := visited;
      visited, queue := VisitAll(Neighbours(adjacency, current), visited, queue[1..]);
      forall y | y in visited ensures y in all {
        if y !in before { EndsOfEdge(rows, (current, y)); }
      }
      Fewer(all, before, visited);
    }
  }

  lemma Fewer(all: set<Id>, before: set<Id>, visited: set<Id>)
    requires before <= visited <= all
    ensures visited == before || |all - visited| < |all - before|
  {
    assert all - before == (all - visited) + (visited - before);
    if visited != before { assert visited - before != {}; }
  }

  // --------------------------------------------------------------- the subtree of a deletion

  datatype Vec = Vec(x: real, y: real, z: real)

  function Plus(u: Vec, v: Vec): Vec { Vec(u.x + v.x, u.y + v.y, u.z + v.z) }

  function Minus(u: Vec, v: Vec): Vec { Vec(u.x - v.x, u.y - v.y, u.z - v.z) }

  const ZERO := Vec(0.0, 0.0, 0.0)

  /** An entity row: its id within the snapshot, that of its parent, and its position, if it has one. */
  datatype Entity = Entity(name: string, parent: Option<string>, pos: Option<Vec>)

  predicate IsChild(entities: map<Id, Entity>, p: Id, x: Id) {
    p in entities && x in entities && entities[x].parent == Some(entities[p].name)
  }

  function ChildEdges(entities: map<Id, Entity>): set<(Id, Id)> {
    set p, x | p in entities && x in entities && IsChild(entities, p, x) :: (p, x)
  }

  /** The snapshot is a forest: names are unique, and ranks grow from parent to child. */
  ghost predicate Forest(entities: map<Id, Entity>, rank: map<Id, nat>) {
    && rank.Keys == entities.Keys
    && (forall x, y :: x in entities && y in entities && entities[x].name == entities[y].name ==> x == y)
    && (forall p, x :: IsChild(entities, p, x) ==> rank[p] < rank[x])
  }

  lemma DistinctAppend(a: seq<Id>, b: seq<Id>)
    requires Distinct(a) && Distinct(b) && forall x :: x in b ==> x !in a
    ensures Distinct(a + b)
  {
    forall j, k | 0 <= j < k < |a + b| ensures (a + b)[j] != (a + b)[k] {
      if j < |a| <= k { assert b[k - |a|] in b && a[j] in a; }
    }
  }

  lemma HeadIsNew(ids: seq<Id>, queue: seq<Id>)
    requires Distinct(ids + queue) && queue != []
    ensures queue[0] !in ids
  {
    assert (ids + queue)[|ids|] == queue[0];
    forall k | 0 <= k < |ids| ensures ids[k] != queue[0] { assert (ids + queue)[k] == ids[k]; }
  }

  function Elements(s: seq<Id>): set<Id> { set x | x in s }

  /** The rows whose parent has this name, in some order. */
  method FindChildren(entities: map<Id, Entity>, name: string) returns (children: seq<Id>)
    ensures Distinct(children) && forall x :: x in children <==> x in entities && entities[x].parent == Some(name)
  {
    children := [];
    var rest := entities.Keys;
    while rest != {}
      invariant rest <= entities.Keys && Distinct(children)
      invariant forall x :: x in children <==> x in entities && x !in rest && entities[x].parent == Some(name)
    {
      var x :| x in rest;
      rest := rest - {x};
      if entities[x].parent == Some(name) { children := children + [x]; }
    }
  }

  /** What the collector knows of the ids it has taken and those in its queue. */
  ghost predicate Collected(entities: map<Id, Entity>, root: Id, ids: seq<Id>, queue: seq<Id>) {
    && Distinct(ids + queue) && root in ids + queue
    && (forall p, x :: p in ids && IsChild(entities, p, x) ==> x in ids + queue)
    && (forall x :: x in ids + queue && x != root ==> HasParentIn(entities, ids, x))
  }

  predicate HasParentIn(entities: map<Id, Entity>, ids: seq<Id>, x: Id) { exists p :: p in ids && IsChild(entities, p, x) }

  lemma {:induction false} BelowRootInRank(entities: map<Id, Entity>, rank: map<Id, nat>, root: Id, ids: seq<Id>, queue: seq<Id>, x: Id)
    requires Forest(entities, rank) && Collected(entities, root, ids, queue) && x in ids + queue && x != root
    ensures x in rank && root in rank && rank[root] < rank[x]
    decreases if x in rank then rank[x] else 0
  {
    var p :| p in ids && IsChild(entities, p, x);
    if p != root { BelowRootInRank(entities, rank, root, ids, queue, p); }
  }

  /** One turn of the collector: the head of the queue is taken and its children join the queue. */
  lemma CollectOne(entities: map<Id, Entity>, rank: map<Id, nat>, root: Id, ids: seq<Id>, queue: seq<Id>, children: seq<Id>)
    requires Forest(entities, rank) && Collected(entities, root, ids, queue) && queue != []
    requires Distinct(children) && forall x :: x in children <==> IsChild(entities, queue[0], x)
    ensures Collected(entities, root, ids + [queue[0]], queue[1..] + children)
  {
    var e := queue[0];
    var before, after := ids + queue, ids + [e] + (queue[1..] + children);
    assert queue == [e] + queue[1..];
    assert after == before + children;
    HeadIsNew(ids, queue);
    forall x | x in children ensures x !in before {
      if x == root && e != root { BelowRootInRank(entities, rank, root, ids, queue, e); }
    }
    DistinctAppend(before, children);
    forall x | x in after && x != root ensures HasParentIn(entities, ids + [e], x) {
      if x in before {
        var p :| p in ids && IsChild(entities, p, x);
        assert p in ids + [e];
      } else {
        assert e in ids + [e] && IsChild(entities, e, x);
      }
    }
  }

  /** `collectSubtreeIds`, when nothing else writes in between: the root and everything below it, each once. */
  method CollectSubtreeIds(entities: map<Id, Entity>, root: Id, ghost rank: map<Id, nat>) returns (ids: seq<Id>)
    requires Forest(entities, rank)
    ensures Distinct(ids) && IsReach(ChildEdges(entities), root, Elements(ids))
  {
    ids := [];
    var queue := [root];
    ghost var all := entities.Keys + {root};
    while queue != []
      invariant Collected(entities, root, ids, queue)
      invariant Elements(ids + queue) <= all
      decreases |all - Elements(ids)|
    {
      var e := queue[0];
      var children := [];
      if e in entities { children := FindChildren(entities, entities[e].name); }
      CollectOne(entities, rank, root, ids, queue, children);
      TakenFromRest(all, ids, queue);
      ids, queue := ids + [e], queue[1..] + children;
    }
    CollectedIsReach(entities, rank, root, ids);
  }

  lemma TakenFromRest(all: set<Id>, ids: seq<Id>, queue: seq<Id>)
    requires Distinct(ids + queue) && queue != [] && Elements(ids + queue) <= all
    ensures |all - Elements(ids + [queue[0]])| < |all - Elements(ids)|
  {
    var e := queue[0];
    HeadIsNew(ids, queue);
    assert e in ids + queue;
    assert all - Elements(ids) == (all - Elements(ids + [e])) + {e};
  }

  lemma CollectedIsReach(entities: map<Id, Entity>, rank: map<Id, nat>, root: Id, ids: seq<Id>)
    requires Forest(entities, rank) && Collected(entities, root, ids, [])
    ensures Distinct(ids) && IsReach(ChildEdges(entities), root, Elements(ids))
  {
    assert ids + [] == ids;
    forall t: set<Id>, x | Holds(ChildEdges(entities), root, t) && x in ids ensures x in t {
      CollectedIsNeeded(entities, rank, root, ids, t, x);
    }
  }

  /** Every set around the root that is closed under children holds what was collected. */
  lemma {:induction false} CollectedIsNeeded(entities: map<Id, Entity>, rank: map<Id, nat>, root: Id, ids: seq<Id>, t: set<Id>, x: Id)
    requires Forest(entities, rank) && Collected(entities, root, ids, []) && Holds(ChildEdges(entities), root, t) && x in ids
    ensures x in t
    decreases if x in rank then rank[x] else 0
  {
    if x != root {
      assert x in ids + [];
      var p :| p in ids && IsChild(entities, p, x);
      CollectedIsNeeded(entities, rank, root, ids, t, p);
      assert (p, x) in ChildEdges(entities);
    }
  }
}
