/**
 * What a deletion removes (apps/api/src/routes/entities.ts): told on the rows before and after, first with other
 * requests racing, then alone.
 */
module RigidDeletes {
  import opened Wrappers
  import opened Collections
  import opened RigidGroups
  import opened RigidRuns

  /** The entity is the root or somewhere below it. */
  ghost predicate Below(entities: map<Id, Entity>, root: Id, x: Id) { Linked(ChildEdges(entities), root, x) }

  lemma ChildEdge(entities: map<Id, Entity>, p: Id, x: Id)
    ensures (p, x) in ChildEdges(entities) <==> IsChild(entities, p, x)
  {
  }

  lemma RootIsBelow(entities: map<Id, Entity>, root: Id)
    ensures Below(entities, root, root)
  {
    assert IsPath(ChildEdges(entities), [root]) && [root][0] == root;
  }

  lemma ChildIsBelow(entities: map<Id, Entity>, root: Id, p: Id, x: Id)
    requires Below(entities, root, p) && IsChild(entities, p, x)
    ensures Below(entities, root, x)
  {
    ChildEdge(entities, p, x);
    var path :| IsPath(ChildEdges(entities), path) && path[0] == root && path[|path| - 1] == p;
    var longer := path + [x];
    assert IsPath(ChildEdges(entities), longer) && longer[0] == root && longer[|longer| - 1] == x;
  }

  // ------------------------------------------------------------------- racing requests

  /** The deletion has taken its root, or is about to. */
  predicate Takes(s: State, r: nat, root: Id) {
    r in s.requests && match s.requests[r]
                       case Collecting(ids, queue, _) => root in ids || root in queue
                       case Deleting(ids) => root in ids
                       case _ => false
  }

  lemma StepKeepsTakes(s: State, e: Event, r: nat, root: Id)
    requires Enabled(s, e) && Takes(s, r, root) && !(e.Abandon? && e.r == r) && !(e.DropEntities? && e.r == r)
    ensures Takes(Next(s, e), r, root)
  {
    if e.FindEntity? && e.r == r {
      var queue := s.requests[r].queue;
      assert queue == [queue[0]] + queue[1..];
    }
  }

  /** Neither given up nor finished. */
  predicate GoesOn(es: seq<Event>, r: nat) {
    forall k :: 0 <= k < |es| ==> !(es[k].Abandon? && es[k].r == r) && !(es[k].DropEntities? && es[k].r == r)
  }

  lemma {:induction false} RunKeepsTakes(s: State, es: seq<Event>, r: nat, root: Id)
    requires Legal(s, es) && Takes(s, r, root) && GoesOn(es, r)
    ensures Takes(Run(s, es), r, root)
    decreases |es|
  {
    if es != [] {
      StepKeepsTakes(s, es[0], r, root);
      RunKeepsTakes(Next(s, es[0]), es[1..], r, root);
    }
  }

  /**
   * However it races with other requests, a deletion that finishes leaves nothing of the subtree of its root as it
   * stands then, removes no entity it has not collected, and leaves exactly the constraints that touch none of those.
   */
  lemma FinishedDeletionTakesSubtree(s: State, r: nat, root: Id, es: seq<Event>)
    requires DeletesSound(s) && Legal(s, [StartDelete(r, root)] + es + [DropEntities(r)]) && GoesOn(es, r)
    requires s.entities[root].parent.Some? && s.entities[root].parent.value != ""
    ensures Legal(s, [StartDelete(r, root)] + es)
    ensures var before, after := Run(s, [StartDelete(r, root)] + es), Run(s, [StartDelete(r, root)] + es + [DropEntities(r)]);
      && r in before.requests && before.requests[r].Deleting?
      && (forall x :: Below(before.entities, root, x) ==> x in before.requests[r].ids && x !in after.entities)
      && (forall x :: x in before.entities && x !in before.requests[r].ids ==> x in after.entities && after.entities[x] == before.entities[x])
      && (forall x :: x in after.entities ==> x in before.entities)
      && (forall c :: c in after.constraints <==> c in before.constraints && before.constraints[c].a !in before.requests[r].ids
                                                  && before.constraints[c].b !in before.requests[r].ids)
  {
    var begun, drop := [StartDelete(r, root)] + es, DropEntities(r);
    LegalSplits(s, begun, [drop]);
    assert [drop][1..] == [];
    assert begun[1..] == es;
    var started := Next(s, StartDelete(r, root));
    StepKeepsDeletesSound(s, StartDelete(r, root));
    RunKeepsTakes(started, es, r, root);
    RunKeepsDeletesSound(started, es);
    var before := Run(s, begun);
    var ids := before.requests[r].ids;
    assert CollectSound(before.entities, before.requests[r]);
    assert Run(before, [drop]) == Next(before, drop) by { assert Run(Next(before, drop), []) == Next(before, drop); }
    forall x | Below(before.entities, root, x) ensures x in ids {
      var path :| IsPath(ChildEdges(before.entities), path) && path[0] == root && path[|path| - 1] == x;
      assert Closed(ChildEdges(before.entities), ids);
      PathStaysIn(ChildEdges(before.entities), ids, path);
    }
  }

  lemma {:induction false} LegalSplits(s: State, a: seq<Event>, b: seq<Event>)
    requires Legal(s, a + b)
    ensures Legal(s, a) && Legal(Run(s, a), b) && Run(s, a + b) == Run(Run(s, a), b)
    decreases |a|
  {
    if a == [] {
      assert a + b == b;
    } else {
      assert (a + b)[1..] == a[1..] + b;
      LegalSplits(Next(s, a[0]), a[1..], b);
    }
  }

  lemma {:induction false} RunKeepsDeletesSound(s: State, es: seq<Event>)
    requires DeletesSound(s) && Legal(s, es)
    ensures DeletesSound(Run(s, es))
    decreases |es|
  {
    if es != [] {
      StepKeepsDeletesSound(s, es[0]);
      RunKeepsDeletesSound(Next(s, es[0]), es[1..]);
    }
  }

  // --------------------------------------------------------------------------- alone

  /** One of the deletion's own queries. */
  predicate OwnQuery(e: Event, r: nat) { (e.FindEntity? || e.FindBelow?) && e.r == r }

  predicate OwnQueries(es: seq<Event>, r: nat) { forall k :: 0 <= k < |es| ==> OwnQuery(es[k], r) }

  /** What has been collected is the root or below it. */
  ghost predicate Inside(s: State, r: nat, root: Id) {
    && r in s.requests && s.requests[r].Collecting?
    && (forall x :: x in s.requests[r].ids || x in s.requests[r].queue ==> Below(s.entities, root, x))
    && (s.requests[r].name.Some? ==>
          exists p :: p in s.entities && Below(s.entities, root, p) && s.requests[r].name == Some(s.entities[p].name))
  }

  lemma QueryKeepsInside(s: State, e: Event, r: nat, root: Id)
    requires Enabled(s, e) && OwnQuery(e, r) && Inside(s, r, root)
    ensures Inside(Next(s, e), r, root)
    ensures Next(s, e) == s.(requests := s.requests[r := Next(s, e).requests[r]])
  {
    var queue := s.requests[r].queue;
    if e.FindEntity? {
      assert queue == [queue[0]] + queue[1..];
      assert queue[0] in queue;
    } else {
      var p :| p in s.entities && Below(s.entities, root, p) && s.requests[r].name == Some(s.entities[p].name);
      forall x | x in e.children ensures Below(s.entities, root, x) {
        assert IsChild(s.entities, p, x);
        ChildIsBelow(s.entities, root, p, x);
      }
    }
  }

  lemma {:induction false} QueriesKeepInside(s: State, es: seq<Event>, r: nat, root: Id)
    requires Legal(s, es) && OwnQueries(es, r) && Inside(s, r, root)
    ensures Inside(Run(s, es), r, root)
    ensures Run(s, es) == s.(requests := s.requests[r := Run(s, es).requests[r]])
    decreases |es|
  {
    hide Enabled, Next, Inside, OwnQuery;
    if es == [] {
      InsideIsThere(s, r, root);
    } else {
      QueryKeepsInside(s, es[0], r, root);
      assert OwnQueries(es[1..], r);
      QueriesKeepInside(Next(s, es[0]), es[1..], r, root);
    }
  }

  lemma InsideIsThere(s: State, r: nat, root: Id)
    requires Inside(s, r, root)
    ensures r in s.requests && s.requests[r := s.requests[r]] == s.requests
  {
  }

  /**
   * A deletion alone: once it has no more to ask, it removes exactly the root and everything below it, and exactly the
   * constraints with an end among those, and nothing else changes.
   */
  lemma DeletionAloneTakesExactly(s: State, r: nat, root: Id, queries: seq<Event>)
    requires DeletesSound(s) && OwnQueries(queries, r)
    requires Legal(s, [StartDelete(r, root)] + queries + [DropConstraints(r)] + [DropEntities(r)])
    requires s.entities[root].parent.Some? && s.entities[root].parent.value != ""
    ensures var after := Run(s, [StartDelete(r, root)] + queries + [DropConstraints(r)] + [DropEntities(r)]);
      && (forall x :: x in after.entities <==> x in s.entities && !Below(s.entities, root, x))
      && (forall x :: x in after.entities ==> after.entities[x] == s.entities[x])
      && (forall c :: c in after.constraints <==>
            c in s.constraints && !Below(s.entities, root, s.constraints[c].a) && !Below(s.entities, root, s.constraints[c].b))
      && (forall c :: c in after.constraints ==> after.constraints[c] == s.constraints[c])
      && after.requests == s.requests
  {
    var begun, drop := [StartDelete(r, root)] + queries, DropConstraints(r);
    LegalSplits(s, begun + [drop], [DropEntities(r)]);
    LegalSplits(s, begun, [drop]);
    LegalSplits(s, [StartDelete(r, root)], queries);
    var started := Next(s, StartDelete(r, root));
    RunOne(s, StartDelete(r, root));
    var asked := Run(started, queries);
    AllCollected(s, r, root, queries);
    hide Legal, Run, Below, OwnQueries;
    RunOne(asked, drop);
    RunOne(Next(asked, drop), DropEntities(r));
    LastTwo(s, asked, r, root);
  }

  /** The last two steps of a deletion. */
  lemma LastTwo(s: State, asked: State, r: nat, root: Id)
    requires r !in s.requests && Enabled(asked, DropConstraints(r)) && asked == s.(requests := s.requests[r := asked.requests[r]])
    requires forall x :: x in asked.requests[r].ids <==> Below(s.entities, root, x)
    ensures Enabled(Next(asked, DropConstraints(r)), DropEntities(r))
    ensures var after := Next(Next(asked, DropConstraints(r)), DropEntities(r));
      && (forall x :: x in after.entities <==> x in s.entities && !Below(s.entities, root, x))
      && (forall x :: x in after.entities ==> after.entities[x] == s.entities[x])
      && (forall c :: c in after.constraints <==>
            c in s.constraints && !Below(s.entities, root, s.constraints[c].a) && !Below(s.entities, root, s.constraints[c].b))
      && (forall c :: c in after.constraints ==> after.constraints[c] == s.constraints[c])
      && after.requests == s.requests
  {
    hide Below;
    var after := Next(Next(asked, DropConstraints(r)), DropEntities(r));
    assert after.requests == s.requests;
  }

  lemma RunOne(s: State, e: Event)
    requires Legal(s, [e])
    ensures Enabled(s, e) && Run(s, [e]) == Next(s, e)
  {
    assert [e][1..] == [];
    assert Run(Next(s, e), []) == Next(s, e);
    hide Enabled, Next;
  }

  lemma AllCollected(s: State, r: nat, root: Id, queries: seq<Event>)
    requires DeletesSound(s) && OwnQueries(queries, r) && Enabled(s, StartDelete(r, root))
    requires s.entities[root].parent.Some? && s.entities[root].parent.value != ""
    requires Legal(Next(s, StartDelete(r, root)), queries)
    ensures var asked := Run(Next(s, StartDelete(r, root)), queries);
      Enabled(asked, DropConstraints(r)) ==>
        asked == s.(requests := s.requests[r := asked.requests[r]]) && forall x :: x in asked.requests[r].ids <==> Below(s.entities, root, x)
  {
    var started := Next(s, StartDelete(r, root));
    RootIsBelow(s.entities, root);
    QueriesKeepInside(started, queries, r, root);
    StepKeepsDeletesSound(s, StartDelete(r, root));
    RunKeepsDeletesSound(started, queries);
    assert GoesOn(queries, r) by { assert forall k :: 0 <= k < |queries| ==> OwnQuery(queries[k], r); }
    RunKeepsTakes(started, queries, r, root);
    var asked := Run(started, queries);
    if Enabled(asked, DropConstraints(r)) {
      var ids := asked.requests[r].ids;
      assert CollectSound(asked.entities, asked.requests[r]);
      assert Closed(ChildEdges(s.entities), ids);
      forall x | Below(s.entities, root, x) ensures x in ids {
        var path :| IsPath(ChildEdges(s.entities), path) && path[0] == root && path[|path| - 1] == x;
        PathStaysIn(ChildEdges(s.entities), ids, path);
      }
    }
  }

  lemma {:induction false} InSomeOrder(xs: set<Id>) returns (q: seq<Id>)
    ensures Distinct(q) && forall x :: x in q <==> x in xs
    decreases xs
  {
    if xs == {} {
      q := [];
    } else {
      var x :| x in xs;
      var rest := InSomeOrder(xs - {x});
      q := [x] + rest;
      DistinctAppend([x], rest);
    }
  }

  lemma HasElement(xs: seq<Id>)
    ensures xs != [] ==> exists x :: x in xs
  {
    if xs != [] { assert xs[0] in xs; }
  }

  /** One turn: the head of the queue is looked up, and its children, if it is there, are asked for. */
  lemma OneTurn(s: State, r: nat, ids: set<Id>, queue: seq<Id>, children: seq<Id>) returns (turn: seq<Event>)
    requires r in s.requests && s.requests[r] == Collecting(ids, queue, None) && queue != []
    requires forall x :: x in children <==> IsChild(s.entities, queue[0], x)
    ensures Legal(s, turn) && OwnQueries(turn, r)
    ensures Run(s, turn) == s.(requests := s.requests[r := Collecting(ids + {queue[0]}, queue[1..] + children, None)])
  {
    var e := queue[0];
    var found := Next(s, FindEntity(r));
    if e in s.entities {
      assert forall x :: x in children <==> x in s.entities && s.entities[x].parent == Some(s.entities[e].name);
      var below := Next(found, FindBelow(r, children));
      turn := [FindEntity(r)] + ([FindBelow(r, children)] + []);
      assert Legal(below, []) && Run(below, []) == below;
      LegalCons(found, FindBelow(r, children), []);
      LegalCons(s, FindEntity(r), [FindBelow(r, children)] + []);
    } else {
      HasElement(children);
      assert queue[1..] + children == queue[1..];
      turn := [FindEntity(r)] + [];
      assert Legal(found, []) && Run(found, []) == found;
      LegalCons(s, FindEntity(r), []);
    }
  }

  lemma {:induction false} LegalAppend(s: State, a: seq<Event>, b: seq<Event>)
    requires Legal(s, a) && Legal(Run(s, a), b)
    ensures Legal(s, a + b) && Run(s, a + b) == Run(Run(s, a), b)
    decreases |a|
  {
    hide Enabled, Next;
    if a == [] {
      assert a + b == b;
    } else {
      assert (a + b)[1..] == a[1..] + b;
      LegalAppend(Next(s, a[0]), a[1..], b);
    }
  }

  /** On a forest, the queries come to an end, whatever has been collected. */
  lemma {:induction false} QueriesEnd(s: State, r: nat, root: Id, rank: map<Id, nat>, ids: seq<Id>, queue: seq<Id>) returns (es: seq<Event>)
    requires Forest(s.entities, rank) && r in s.requests && s.requests[r] == Collecting(Elements(ids), queue, None)
    requires Collected(s.entities, root, ids, queue) && Elements(ids + queue) <= s.entities.Keys + {root}
    ensures Legal(s, es) && OwnQueries(es, r) && Enabled(Run(s, es), DropConstraints(r))
    decreases |s.entities.Keys + {root} - Elements(ids)|
  {
    if queue == [] {
      es := [];
    } else {
      hide *;
      var e := queue[0];
      var children := ChildrenOf(s.entities, e);
      CollectOne(s.entities, rank, root, ids, queue, children);
      TakenBefore(s, root, ids, queue);
      StillThere(s, root, ids, queue, children);
      OneMore(ids, e);
      var turn := OneTurn(s, r, Elements(ids), queue, children);
      var rest := QueriesEnd(Run(s, turn), r, root, rank, ids + [e], queue[1..] + children);
      es := turn + rest;
      LegalAppend(s, turn, rest);
      OwnAppend(turn, rest, r);
    }
  }

  lemma ChildrenOf(entities: map<Id, Entity>, e: Id) returns (children: seq<Id>)
    ensures Distinct(children) && forall x :: x in children <==> IsChild(entities, e, x)
  {
    children := InSomeOrder(set x | x in entities && IsChild(entities, e, x));
  }

  lemma OneMore(ids: seq<Id>, e: Id)
    ensures Elements(ids) + {e} == Elements(ids + [e])
  {
  }

  lemma OwnAppend(a: seq<Event>, b: seq<Event>, r: nat)
    requires OwnQueries(a, r) && OwnQueries(b, r)
    ensures OwnQueries(a + b, r)
  {
    hide OwnQuery;
  }

  lemma TakenBefore(s: State, root: Id, ids: seq<Id>, queue: seq<Id>)
    requires Collected(s.entities, root, ids, queue) && queue != [] && Elements(ids + queue) <= s.entities.Keys + {root}
    ensures |s.entities.Keys + {root} - Elements(ids + [queue[0]])| < |s.entities.Keys + {root} - Elements(ids)|
  {
    TakenFromRest(s.entities.Keys + {root}, ids, queue);
  }

  lemma StillThere(s: State, root: Id, ids: seq<Id>, queue: seq<Id>, children: seq<Id>)
    requires queue != [] && Elements(ids + queue) <= s.entities.Keys + {root} && forall x :: x in children ==> x in s.entities
    ensures Elements(ids + [queue[0]] + (queue[1..] + children)) <= s.entities.Keys + {root}
  {
    assert queue == [queue[0]] + queue[1..];
    forall x | x in ids + [queue[0]] + (queue[1..] + children) ensures x in s.entities.Keys + {root} {
      if x !in children { assert x in ids + queue && x in Elements(ids + queue); }
    }
  }

  lemma LegalCons(s: State, e: Event, es: seq<Event>)
    requires Enabled(s, e) && Legal(Next(s, e), es)
    ensures Legal(s, [e] + es) && Run(s, [e] + es) == Run(Next(s, e), es)
  {
    assert ([e] + es)[1..] == es;
    hide Enabled, Next;
  }

  /** So a deletion alone can always be run to its end. */
  lemma DeletionAloneEnds(s: State, r: nat, root: Id, rank: map<Id, nat>) returns (queries: seq<Event>)
    requires Enabled(s, StartDelete(r, root)) && s.entities[root].parent.Some? && s.entities[root].parent.value != ""
    requires Forest(s.entities, rank)
    ensures OwnQueries(queries, r) && Legal(s, [StartDelete(r, root)] + queries + [DropConstraints(r)] + [DropEntities(r)])
  {
    var started := Next(s, StartDelete(r, root));
    assert [] + [root] == [root] && Elements([]) == {};
    queries := QueriesEnd(started, r, root, rank, [], [root]);
    LegalCons(s, StartDelete(r, root), queries);
    var begun := [StartDelete(r, root)] + queries;
    var asked := Run(s, begun);
    var dropped := Next(asked, DropConstraints(r));
    assert Legal(Next(dropped, DropEntities(r)), []) && Legal(dropped, []);
    LegalCons(dropped, DropEntities(r), []);
    LegalCons(asked, DropConstraints(r), []);
    assert [DropConstraints(r)] + [] == [DropConstraints(r)] && [DropEntities(r)] + [] == [DropEntities(r)];
    LegalAppend(s, begun, [DropConstraints(r)]);
    LegalAppend(s, begun + [DropConstraints(r)], [DropEntities(r)]);
  }

  /** Deleting an entity without a parent deletes the whole snapshot. */
  lemma RootDeletionTakesAll(s: State, r: nat, root: Id)
    requires Enabled(s, StartDelete(r, root)) && (s.entities[root].parent.None? || s.entities[root].parent.value == "")
    ensures forall x :: x !in Next(s, StartDelete(r, root)).entities
    ensures forall c :: c !in Next(s, StartDelete(r, root)).constraints
  {
    if s.entities[root].parent.Some? { assert s.entities[root].parent == Some(""); }
  }
}
