/**
 * Moves, deletions and constraint edits of one snapshot, interleaved at their awaits (apps/api/src/routes/entities.ts
 * and constraints.ts). A move reads its group, then the places, then writes absolute places in one transaction; a
 * deletion collects a subtree query by query; the database refuses dangling constraint ends and cascades.
 */
module RigidRuns {
  import opened Wrappers
  import opened RigidGroups
  import opened Collections

  datatype Constraint = Constraint(a: Id, b: Id, fixed: bool)

  datatype Request =
    | Moving(seed: Id, delta: Vec)
    | Grouped(targets: set<Id>, delta: Vec)
    | Placed(places: map<Id, Vec>, delta: Vec)
    | Collecting(ids: set<Id>, queue: seq<Id>, name: Option<string>)
    | Deleting(ids: set<Id>)

  datatype State = State(entities: map<Id, Entity>, constraints: map<nat, Constraint>, requests: map<nat, Request>)

  datatype Event =
    | StartMove(r: nat, seed: Id, delta: Vec)
    | ReadGroup(r: nat, targets: set<Id>)
    | ReadPlaces(r: nat)
    | Write(r: nat)
    | Create(c: nat, a: Id, b: Id, fixed: bool)
    | SetFixed(c: nat, fixed: bool)
    | Unfix(c: nat)
    | StartDelete(r: nat, root: Id)
    | FindEntity(r: nat)
    | FindBelow(r: nat, children: seq<Id>)
    | DropConstraints(r: nat)
    | DropEntities(r: nat)
    | Abandon(r: nat)

  /** The place of an entity; a missing position counts as the origin. */
  function At(entities: map<Id, Entity>, x: Id): Vec
    requires x in entities
  {
    if entities[x].pos.Some? then entities[x].pos.value else ZERO
  }

  function FixedEdges(constraints: map<nat, Constraint>): set<(Id, Id)> {
    (set c | c in constraints && constraints[c].fixed :: (constraints[c].a, constraints[c].b))
    + (set c | c in constraints && constraints[c].fixed :: (constraints[c].b, constraints[c].a))
  }

  /** The write of a move: absolute places, from those read before. */
  function Shifted(entities: map<Id, Entity>, places: map<Id, Vec>, delta: Vec): (r: map<Id, Entity>)
    ensures r.Keys == entities.Keys
  {
    map x | x in entities :: if x in places then entities[x].(pos := Some(Plus(places[x], delta))) else entities[x]
  }

  function Untouched(constraints: map<nat, Constraint>, ids: set<Id>): map<nat, Constraint> {
    map c | c in constraints && constraints[c].a !in ids && constraints[c].b !in ids :: constraints[c]
  }

  ghost predicate Enabled(s: State, e: Event) {
    match e
    case StartMove(r, seed, delta) => r !in s.requests && seed in s.entities && delta != ZERO
    case ReadGroup(r, targets) =>
      r in s.requests && s.requests[r].Moving? && IsReach(FixedEdges(s.constraints), s.requests[r].seed, targets)
    case ReadPlaces(r) => r in s.requests && s.requests[r].Grouped?
    case Write(r) => r in s.requests && s.requests[r].Placed?
    case Create(c, a, b, _) => c !in s.constraints && a != b && a in s.entities && b in s.entities
    case SetFixed(c, _) => c in s.constraints
    case Unfix(c) => c in s.constraints
    case StartDelete(r, root) => r !in s.requests && root in s.entities
    case FindEntity(r) => r in s.requests && s.requests[r].Collecting? && s.requests[r].queue != [] && s.requests[r].name == None
    case FindBelow(r, children) =>
      && r in s.requests && s.requests[r].Collecting? && s.requests[r].name.Some?
      && forall x :: x in children <==> x in s.entities && s.entities[x].parent == s.requests[r].name
    case DropConstraints(r) => r in s.requests && s.requests[r].Collecting? && s.requests[r].queue == [] && s.requests[r].name == None
    case DropEntities(r) => r in s.requests && s.requests[r].Deleting?
    case Abandon(r) => r in s.requests
  }

  ghost function Next(s: State, e: Event): State
    requires Enabled(s, e)
  {
    match e
    case StartMove(r, seed, delta) => s.(requests := s.requests[r := Moving(seed, delta)])
    case ReadGroup(r, targets) => s.(requests := s.requests[r := Grouped(targets, s.requests[r].delta)])
    case ReadPlaces(r) =>
      var targets := s.requests[r].targets;
      var places := map x | x in targets && x in s.entities :: At(s.entities, x);
      s.(requests := s.requests[r := Placed(places, s.requests[r].delta)])
    case Write(r) =>
      var (places, delta) := (s.requests[r].places, s.requests[r].delta);
      var written := if places.Keys <= s.entities.Keys then Shifted(s.entities, places, delta) else s.entities;
      s.(entities := written, requests := s.requests - {r})
    case Create(c, a, b, fixed) => s.(constraints := s.constraints[c := Constraint(a, b, fixed)])
    case SetFixed(c, fixed) => s.(constraints := s.constraints[c := s.constraints[c].(fixed := fixed)])
    case Unfix(c) => s.(constraints := s.constraints - {c})
    case StartDelete(r, root) =>
      if s.entities[root].parent in {None, Some("")} then s.(entities := map[], constraints := map[])
      else s.(requests := s.requests[r := Collecting({}, [root], None)])
    case FindEntity(r) =>
      var (ids, queue) := (s.requests[r].ids, s.requests[r].queue);
      var name := if queue[0] in s.entities then Some(s.entities[queue[0]].name) else None;
      s.(requests := s.requests[r := Collecting(ids + {queue[0]}, queue[1..], name)])
    case FindBelow(r, children) =>
      s.(requests := s.requests[r := Collecting(s.requests[r].ids, s.requests[r].queue + children, None)])
    case DropConstraints(r) =>
      s.(constraints := Untouched(s.constraints, s.requests[r].ids), requests := s.requests[r := Deleting(s.requests[r].ids)])
    case DropEntities(r) =>
      var ids := s.requests[r].ids;
      s.(entities := s.entities - ids, constraints := Untouched(s.constraints, ids), requests := s.requests - {r})
    case Abandon(r) => s.(requests := s.requests - {r})
  }

  // ------------------------------------------------------------------ deletions leave nothing

  predicate NameAlive(entities: map<Id, Entity>, name: string) { exists p :: p in entities && entities[p].name == name }

  /** Both ends of every constraint, and the parent of every entity, are there. */
  ghost predicate NothingDangles(s: State) {
    && (forall c :: c in s.constraints ==> s.constraints[c].a in s.entities && s.constraints[c].b in s.entities)
    && (forall c :: c in s.constraints ==> s.constraints[c].a != s.constraints[c].b)
    && (forall x :: x in s.entities && s.entities[x].parent.Some? ==> NameAlive(s.entities, s.entities[x].parent.value))
  }

  /** What a deletion has collected so far: the children of what it has taken are taken or queued. */
  ghost predicate CollectSound(entities: map<Id, Entity>, q: Request) {
    match q
    case Collecting(ids, queue, name) =>
      forall p, x :: p in ids && IsChild(entities, p, x) && Some(entities[p].name) != name ==> x in ids || x in queue
    case Deleting(ids) => forall p, x :: p in ids && IsChild(entities, p, x) ==> x in ids
    case _ => true
  }

  ghost predicate DeletesSound(s: State) { forall r :: r in s.requests ==> CollectSound(s.entities, s.requests[r]) }

  lemma CollectSoundShifts(entities: map<Id, Entity>, places: map<Id, Vec>, delta: Vec, q: Request)
    requires CollectSound(entities, q)
    ensures CollectSound(Shifted(entities, places, delta), q)
  {
    var shifted := Shifted(entities, places, delta);
    assert forall p, x :: IsChild(shifted, p, x) ==> IsChild(entities, p, x) && shifted[p].name == entities[p].name;
  }

  lemma CollectSoundShrinks(entities: map<Id, Entity>, ids: set<Id>, q: Request)
    requires CollectSound(entities, q)
    ensures CollectSound(entities - ids, q)
  {
    assert forall p, x :: IsChild(entities - ids, p, x) ==> IsChild(entities, p, x);
  }

  lemma StepKeepsDeletesSound(s: State, e: Event)
    requires DeletesSound(s) && Enabled(s, e)
    ensures DeletesSound(Next(s, e))
  {
    var s' := Next(s, e);
    forall r | r in s'.requests ensures CollectSound(s'.entities, s'.requests[r]) {
      if r in s.requests {
        var q := s.requests[r];
        assert CollectSound(s.entities, q);
        match e
        case Write(w) => CollectSoundShifts(s.entities, s.requests[w].places, s.requests[w].delta, q);
        case DropEntities(d) => CollectSoundShrinks(s.entities, s.requests[d].ids, q);
        case FindEntity(f) => if r == f { TakeSound(s.entities, q); }
        case _ =>
      }
    }
  }

  lemma TakeSound(entities: map<Id, Entity>, q: Request)
    requires q.Collecting? && q.queue != [] && q.name == None && CollectSound(entities, q)
    ensures CollectSound(entities, Collecting(q.ids + {q.queue[0]}, q.queue[1..],
                                              if q.queue[0] in entities then Some(entities[q.queue[0]].name) else None))
  {
    assert q.queue == [q.queue[0]] + q.queue[1..];
  }

  lemma StepKeepsNothingDangling(s: State, e: Event)
    requires NothingDangles(s) && DeletesSound(s) && Enabled(s, e)
    ensures NothingDangles(Next(s, e))
  {
    var s' := Next(s, e);
    forall x | x in s'.entities && s'.entities[x].parent.Some? ensures NameAlive(s'.entities, s'.entities[x].parent.value) {
      assert x in s.entities && s.entities[x].parent == s'.entities[x].parent;
      var p :| p in s.entities && s.entities[p].name == s.entities[x].parent.value;
      assert IsChild(s.entities, p, x);
      if e.DropEntities? { assert CollectSound(s.entities, s.requests[e.r]); }
      assert p in s'.entities && s'.entities[p].name == s.entities[p].name;
    }
  }

  ghost predicate Legal(s: State, es: seq<Event>)
    decreases |es|
  {
    es == [] || (Enabled(s, es[0]) && Legal(Next(s, es[0]), es[1..]))
  }

  ghost function Run(s: State, es: seq<Event>): State
    requires Legal(s, es)
    decreases |es|
  {
    if es == [] then s else Run(Next(s, es[0]), es[1..])
  }

  /** However deletions race with each other and with new constraints, no reference to a deleted entity is left. */
  lemma {:induction false} RunLeavesNothingDangling(s: State, es: seq<Event>)
    requires NothingDangles(s) && DeletesSound(s) && Legal(s, es)
    ensures NothingDangles(Run(s, es)) && DeletesSound(Run(s, es))
    decreases |es|
  {
    if es != [] {
      StepKeepsDeletesSound(s, es[0]);
      StepKeepsNothingDangling(s, es[0]);
      RunLeavesNothingDangling(Next(s, es[0]), es[1..]);
    }
  }

  // ------------------------------------------------------------- rigid groups stay rigid

  function Offset(s: State, c: nat): Vec
    requires c in s.constraints && s.constraints[c].a in s.entities && s.constraints[c].b in s.entities
  {
    Minus(At(s.entities, s.constraints[c].a), At(s.entities, s.constraints[c].b))
  }

  /**
   * A move in flight has both ends of the constraint or neither, and read them as far apart as they are; or its write
   * will be refused, because it read an entity that has been deleted since.
   */
  predicate Together(s: State, q: Request, c: nat)
    requires c in s.constraints && s.constraints[c].a in s.entities && s.constraints[c].b in s.entities
  {
    var (a, b) := (s.constraints[c].a, s.constraints[c].b);
    match q
    case Grouped(targets, _) => a in targets <==> b in targets
    case Placed(places, _) => places.Keys <= s.entities.Keys ==>
      (a in places <==> b in places) && (a in places && b in places ==> Minus(places[a], places[b]) == Offset(s, c))
    case _ => true
  }

  /** No move in flight separates the ends of the constraint. */
  ghost predicate Unseparated(s: State, c: nat)
    requires c in s.constraints && s.constraints[c].a in s.entities && s.constraints[c].b in s.entities
  {
    forall r :: r in s.requests ==> Together(s, s.requests[r], c)
  }

  ghost predicate MovesSound(s: State)
    requires NothingDangles(s)
  {
    forall c :: c in s.constraints && s.constraints[c].fixed ==> Unseparated(s, c)
  }

  predicate Stays(s: State, s': State, c: nat) {
    c in s.constraints && c in s'.constraints && s'.constraints[c].a == s.constraints[c].a && s'.constraints[c].b == s.constraints[c].b
  }

  /** No step changes how far apart the ends of an unseparated constraint are. */
  lemma StepKeepsOffset(s: State, e: Event, c: nat)
    requires Enabled(s, e) && NothingDangles(s) && NothingDangles(Next(s, e))
    requires c in s.constraints && Unseparated(s, c) && Stays(s, Next(s, e), c)
    ensures Offset(Next(s, e), c) == Offset(s, c)
  {
    if e.Write? { assert Together(s, s.requests[e.r], c); }
  }

  /** A constraint the event creates or turns on. */
  predicate Fixes(s: State, e: Event, c: nat) {
    (e.Create? && e.c == c && e.fixed) || (e.SetFixed? && e.c == c && e.fixed && c in s.constraints && !s.constraints[c].fixed)
  }

  lemma StepKeepsUnseparated(s: State, e: Event, c: nat)
    requires Enabled(s, e) && NothingDangles(s) && NothingDangles(Next(s, e))
    requires c in s.constraints && s.constraints[c].fixed && Unseparated(s, c) && Stays(s, Next(s, e), c)
    ensures Unseparated(Next(s, e), c)
  {
    var s' := Next(s, e);
    StepKeepsOffset(s, e, c);
    var (a, b) := (s.constraints[c].a, s.constraints[c].b);
    forall r | r in s'.requests ensures Together(s', s'.requests[r], c) {
      if r in s.requests {
        assert Together(s, s.requests[r], c);
        if e.ReadGroup? && e.r == r {
          assert (a, b) in FixedEdges(s.constraints) && (b, a) in FixedEdges(s.constraints);
        }
      }
    }
  }

  /** Requests in flight are unaffected by events about constraints. */
  lemma FixingIsSafe(s: State, e: Event, c: nat)
    requires Enabled(s, e) && NothingDangles(s) && NothingDangles(Next(s, e)) && Fixes(s, e, c)
    ensures c in Next(s, e).constraints && Next(s, e).requests == s.requests && Next(s, e).entities == s.entities
  {
  }

  /**
   * Exactly: moves stay sound over a step if and only if no move in flight separates the ends of the constraint the
   * step fixes, if it fixes one.
   */
  lemma StepKeepsMovesSound(s: State, e: Event)
    requires Enabled(s, e) && NothingDangles(s) && NothingDangles(Next(s, e)) && MovesSound(s)
    ensures MovesSound(Next(s, e)) <==> forall c :: Fixes(s, e, c) ==> Unseparated(Next(s, e), c)
  {
    var s' := Next(s, e);
    forall c | c in s'.constraints && s'.constraints[c].fixed && !Fixes(s, e, c) ensures Unseparated(s', c) {
      assert c in s.constraints && s.constraints[c].fixed && Stays(s, s', c);
      StepKeepsUnseparated(s, e, c);
    }
    forall c | Fixes(s, e, c) ensures c in s'.constraints && s'.constraints[c].fixed {
      FixingIsSafe(s, e, c);
    }
  }

  /** The constraint is position-fixed at `s` and after every step. */
  ghost predicate StandsFixed(s: State, es: seq<Event>, c: nat)
    requires Legal(s, es)
    decreases |es|
  {
    c in s.constraints && s.constraints[c].fixed && (es == [] || StandsFixed(Next(s, es[0]), es[1..], c))
  }

  /**
   * Over any run, racing moves included, a standing constraint that no move in flight separates at first keeps its
   * ends exactly as far apart as they were.
   */
  lemma {:induction false} RunKeepsOffset(s: State, es: seq<Event>, c: nat)
    requires NothingDangles(s) && DeletesSound(s) && Legal(s, es) && StandsFixed(s, es, c) && Unseparated(s, c)
    ensures NothingDangles(Run(s, es)) && c in Run(s, es).constraints && Offset(Run(s, es), c) == Offset(s, c)
    ensures Run(s, es).constraints[c].fixed && Unseparated(Run(s, es), c)
    decreases |es|
  {
    if es != [] {
      StepKeepsDeletesSound(s, es[0]);
      StepKeepsNothingDangling(s, es[0]);
      var next := Next(s, es[0]);
      assert Stays(s, next, c);
      StepKeepsUnseparated(s, es[0], c);
      StepKeepsOffset(s, es[0], c);
      RunKeepsOffset(next, es[1..], c);
    }
  }

  /** And where a move has read one end and not the other, letting it finish does change the offset. */
  lemma SeparatedMoveBreaks(s: State, r: nat, c: nat)
    requires NothingDangles(s) && c in s.constraints && r in s.requests && s.requests[r].Grouped? && s.requests[r].delta != ZERO
    requires !Together(s, s.requests[r], c)
    ensures var es := [ReadPlaces(r), Write(r)];
            Legal(s, es) && Stays(s, Run(s, es), c) && NothingDangles(Run(s, es)) && Offset(Run(s, es), c) != Offset(s, c)
  {
    var read := Next(s, ReadPlaces(r));
    var places := read.requests[r].places;
    assert places.Keys <= s.entities.Keys;
    var written := Next(read, Write(r));
    var es := [ReadPlaces(r), Write(r)];
    assert es[1..] == [Write(r)] && es[1..][1..] == [];
    assert Legal(written, []) && Legal(read, [Write(r)]);
    assert Run(written, []) == written && Run(read, [Write(r)]) == written && Run(s, es) == written;
    assert NothingDangles(written) by {
      forall x | x in written.entities && written.entities[x].parent.Some?
        ensures NameAlive(written.entities, written.entities[x].parent.value)
      {
        var p :| p in s.entities && s.entities[p].name == s.entities[x].parent.value;
        assert written.entities[p].name == s.entities[p].name;
      }
    }
  }

  /** Some position-fixed constraint joins the two. */
  predicate Held(constraints: map<nat, Constraint>, x: Id, y: Id) {
    exists c :: c in constraints && constraints[c].fixed
                && ((constraints[c].a == x && constraints[c].b == y) || (constraints[c].a == y && constraints[c].b == x))
  }

  /** A chain of position-fixed constraints leads from one entity to the other. */
  ghost predicate Chained(constraints: map<nat, Constraint>, x: Id, y: Id) {
    exists p: seq<Id> :: p != [] && p[0] == x && p[|p| - 1] == y && forall k :: 0 <= k < |p| - 1 ==> Held(constraints, p[k], p[k + 1])
  }

  lemma FixedEdgeHolds(constraints: map<nat, Constraint>, x: Id, y: Id)
    ensures (x, y) in FixedEdges(constraints) <==> Held(constraints, x, y)
  {
    if c :| c in constraints && constraints[c].fixed && constraints[c].a == x && constraints[c].b == y {
      assert (constraints[c].a, constraints[c].b) in FixedEdges(constraints);
    }
    if c :| c in constraints && constraints[c].fixed && constraints[c].a == y && constraints[c].b == x {
      assert (constraints[c].b, constraints[c].a) in FixedEdges(constraints);
    }
  }

  lemma LinkedIsChained(constraints: map<nat, Constraint>, x: Id, y: Id)
    ensures Linked(FixedEdges(constraints), x, y) <==> Chained(constraints, x, y)
  {
    var edges := FixedEdges(constraints);
    forall u: Id, v: Id ensures (u, v) in edges <==> Held(constraints, u, v) { FixedEdgeHolds(constraints, u, v); }
    if Linked(edges, x, y) {
      var p :| IsPath(edges, p) && p[0] == x && p[|p| - 1] == y;
      assert forall k :: 0 <= k < |p| - 1 ==> Held(constraints, p[k], p[k + 1]);
    }
    if Chained(constraints, x, y) {
      var p: seq<Id> :| p != [] && p[0] == x && p[|p| - 1] == y && forall k :: 0 <= k < |p| - 1 ==> Held(constraints, p[k], p[k + 1]);
      assert IsPath(edges, p);
    }
  }

  /** A move that nothing interrupts shifts exactly what chains of position-fixed constraints tie to its seed, by exactly its delta. */
  lemma UndisturbedMove(s: State, r: nat, targets: set<Id>)
    requires Enabled(s, ReadGroup(r, targets))
    ensures var es := [ReadGroup(r, targets), ReadPlaces(r), Write(r)];
            Legal(s, es)
            && var s' := Run(s, es);
               && s'.entities.Keys == s.entities.Keys && s'.constraints == s.constraints
               && (forall x :: x in s.entities ==>
                     && s'.entities[x].name == s.entities[x].name && s'.entities[x].parent == s.entities[x].parent
                     && At(s'.entities, x) == if Chained(s.constraints, s.requests[r].seed, x) then Plus(At(s.entities, x), s.requests[r].delta)
                                              else At(s.entities, x))
  {
    MoveShiftsGroup(s, r, targets);
    forall x ensures Linked(FixedEdges(s.constraints), s.requests[r].seed, x) <==> Chained(s.constraints, s.requests[r].seed, x) {
      LinkedIsChained(s.constraints, s.requests[r].seed, x);
    }
    hide Linked, Chained, FixedEdges;
  }

  /** A write is all or nothing: nothing, when an entity it has read is gone, and else every place it has read, shifted. */
  lemma WriteIsAllOrNothing(s: State, r: nat)
    requires Enabled(s, Write(r))
    ensures var (places, s') := (s.requests[r].places, Next(s, Write(r)));
      && s'.entities.Keys == s.entities.Keys && s'.constraints == s.constraints
      && ((exists x :: x in places && x !in s.entities) ==> s'.entities == s.entities)
      && ((forall x :: x in places ==> x in s.entities) ==>
            forall x :: x in s.entities ==>
              At(s'.entities, x) == if x in places then Plus(places[x], s.requests[r].delta) else At(s.entities, x))
  {
  }

  /** What an edit of a constraint leaves. */
  lemma EditsOneConstraint(s: State, e: Event)
    requires Enabled(s, e) && (e.Create? || e.SetFixed? || e.Unfix?)
    ensures var s' := Next(s, e);
      && s'.entities == s.entities && s'.requests == s.requests
      && (forall c :: c != e.c ==> (c in s'.constraints <==> c in s.constraints) && (c in s.constraints ==> s'.constraints[c] == s.constraints[c]))
      && (e.Create? ==> e.c in s'.constraints && s'.constraints[e.c] == Constraint(e.a, e.b, e.fixed))
      && (e.SetFixed? ==> e.c in s'.constraints && s'.constraints[e.c] == Constraint(s.constraints[e.c].a, s.constraints[e.c].b, e.fixed))
      && (e.Unfix? ==> e.c !in s'.constraints)
  {
  }

  /** A move that nothing interrupts shifts exactly the connected component of its seed, by exactly its delta. */
  lemma MoveShiftsGroup(s: State, r: nat, targets: set<Id>)
    requires Enabled(s, ReadGroup(r, targets))
    ensures var es := [ReadGroup(r, targets), ReadPlaces(r), Write(r)];
            Legal(s, es) && Run(s, es).entities.Keys == s.entities.Keys && Run(s, es).constraints == s.constraints
            && forall x :: x in s.entities ==>
                 Run(s, es).entities[x].name == s.entities[x].name && Run(s, es).entities[x].parent == s.entities[x].parent &&
                 At(Run(s, es).entities, x) ==
                   if Linked(FixedEdges(s.constraints), s.requests[r].seed, x) then Plus(At(s.entities, x), s.requests[r].delta)
                   else At(s.entities, x)
  {
    var grouped := Next(s, ReadGroup(r, targets));
    var read := Next(grouped, ReadPlaces(r));
    var written := Next(read, Write(r));
    var es := [ReadGroup(r, targets), ReadPlaces(r), Write(r)];
    assert es[1..] == [ReadPlaces(r), Write(r)] && es[1..][1..] == [Write(r)] && es[1..][1..][1..] == [];
    assert Legal(written, []) && Legal(read, es[1..][1..]) && Legal(grouped, es[1..]);
    assert Run(written, []) == written && Run(read, es[1..][1..]) == written && Run(grouped, es[1..]) == written;
    assert read.requests[r].places.Keys <= s.entities.Keys;
    forall x | x in s.entities ensures x in targets <==> Linked(FixedEdges(s.constraints), s.requests[r].seed, x) {
      ReachIsLinked(FixedEdges(s.constraints), s.requests[r].seed, targets, x);
    }
  }

  /** Two entities, a move of the first between its two reads, and a constraint fixed at that moment. */
  lemma FixedDuringMove()
    ensures var entities := map[1 := Entity("a", None, None), 2 := Entity("b", None, None)];
            var s := State(entities, map[7 := Constraint(1, 2, false)], map[0 := Grouped({1}, Vec(1.0, 0.0, 0.0))]);
            var es := [SetFixed(7, true), ReadPlaces(0), Write(0)];
            NothingDangles(s) && DeletesSound(s) && MovesSound(s) && Legal(s, es)
            && NothingDangles(Run(s, es)) && Stays(s, Run(s, es), 7) && Offset(Run(s, es), 7) != Offset(s, 7)
  {
    var entities := map[1 := Entity("a", None, None), 2 := Entity("b", None, None)];
    var s := State(entities, map[7 := Constraint(1, 2, false)], map[0 := Grouped({1}, Vec(1.0, 0.0, 0.0))]);
    var next := Next(s, SetFixed(7, true));
    assert next.constraints[7] == Constraint(1, 2, true);
    assert NothingDangles(next);
    SeparatedMoveBreaks(next, 0, 7);
    assert [SetFixed(7, true), ReadPlaces(0), Write(0)][1..] == [ReadPlaces(0), Write(0)];
  }

  // ------------------------------------------------------------- exactly when it is kept

  /** No move in flight is by nothing: the route answers those at once. */
  predicate MovesFar(s: State) {
    forall r :: r in s.requests && (s.requests[r].Moving? || s.requests[r].Grouped? || s.requests[r].Placed?) ==> s.requests[r].delta != ZERO
  }

  lemma StepKeepsMovesFar(s: State, e: Event)
    requires MovesFar(s) && Enabled(s, e)
    ensures MovesFar(Next(s, e))
  {
  }

  predicate IsFixed(s: State, c: nat) { c in s.constraints && s.constraints[c].fixed }

  /** After these events the constraint still stands, and its ends are as far apart as they were. */
  ghost predicate Keeps(s: State, es: seq<Event>, c: nat)
    requires NothingDangles(s) && IsFixed(s, c) && Legal(s, es)
  {
    NothingDangles(Run(s, es)) && IsFixed(Run(s, es), c) && Offset(Run(s, es), c) == Offset(s, c)
  }

  lemma Prepend(s: State, e: Event, es: seq<Event>, c: nat)
    requires Enabled(s, e) && IsFixed(s, c) && Legal(Next(s, e), es) && StandsFixed(Next(s, e), es, c)
    ensures Legal(s, [e] + es) && StandsFixed(s, [e] + es, c) && Run(s, [e] + es) == Run(Next(s, e), es)
  {
    assert ([e] + es)[1..] == es;
  }

  /** Where the write of a move puts `x`. */
  function Put(s: State, q: Request, x: Id): Vec
    requires q.Placed? && x in s.entities
  {
    if x in q.places then Plus(q.places[x], q.delta) else At(s.entities, x)
  }

  lemma WriteBreaks(s: State, r: nat, c: nat)
    requires NothingDangles(s) && IsFixed(s, c) && r in s.requests && s.requests[r].Placed?
    requires s.requests[r].places.Keys <= s.entities.Keys
    requires Minus(Put(s, s.requests[r], s.constraints[c].a), Put(s, s.requests[r], s.constraints[c].b)) != Offset(s, c)
    ensures Legal(s, [Write(r)]) && StandsFixed(s, [Write(r)], c) && !Keeps(s, [Write(r)], c)
  {
    Prepend(s, Write(r), [], c);
    assert [Write(r)] + [] == [Write(r)];
    var next := Next(s, Write(r));
    assert Run(next, []) == next;
  }

  lemma {:induction false} LeastReach(edges: set<(Id, Id)>, seed: Id, s: set<Id>) returns (reach: set<Id>)
    requires Holds(edges, seed, s)
    ensures IsReach(edges, seed, reach)
    decreases |s|
  {
    reach := s;
    if t: set<Id> :| Holds(edges, seed, t) && !(s <= t) {
      assert s - s * t != {} && |s * t| + |s - s * t| == |s * t + (s - s * t)| && s * t + (s - s * t) == s;
      reach := LeastReach(edges, seed, s * t);
    }
  }

  /** What the edges reach from any seed is there to be read. */
  lemma ReachExists(edges: set<(Id, Id)>, seed: Id) returns (reach: set<Id>)
    ensures IsReach(edges, seed, reach)
  {
    var all := {seed} + set e | e in edges :: e.1;
    forall x, y | (x, y) in edges && x in all ensures y in all { assert (x, y).1 in all; }
    reach := LeastReach(edges, seed, all);
  }

  /** A whole move of a constraint's end, undisturbed, takes the other end along. */
  lemma MoveBoth(s: State, c: nat, delta: Vec) returns (es: seq<Event>)
    requires NothingDangles(s) && IsFixed(s, c) && delta != ZERO
    ensures Legal(s, es) && StandsFixed(s, es, c)
    ensures var s' := Run(s, es);
            s'.constraints == s.constraints && s'.requests == s.requests && s'.entities.Keys == s.entities.Keys
            && At(s'.entities, s.constraints[c].a) == Plus(At(s.entities, s.constraints[c].a), delta)
            && At(s'.entities, s.constraints[c].b) == Plus(At(s.entities, s.constraints[c].b), delta)
  {
    var (a, b, edges) := (s.constraints[c].a, s.constraints[c].b, FixedEdges(s.constraints));
    var r := UpperBound(s.requests.Keys);
    var targets := ReachExists(edges, a);
    assert (a, b) in edges;
    var moving := Next(s, StartMove(r, a, delta));
    var grouped := Next(moving, ReadGroup(r, targets));
    var read := Next(grouped, ReadPlaces(r));
    var written := Next(read, Write(r));
    assert read.requests[r].places.Keys <= s.entities.Keys;
    assert written.requests == s.requests;
    Prepend(read, Write(r), [], c);
    Prepend(grouped, ReadPlaces(r), [Write(r)] + [], c);
    Prepend(moving, ReadGroup(r, targets), [ReadPlaces(r)] + ([Write(r)] + []), c);
    es := [StartMove(r, a, delta)] + ([ReadGroup(r, targets)] + ([ReadPlaces(r)] + ([Write(r)] + [])));
    Prepend(s, StartMove(r, a, delta), [ReadGroup(r, targets)] + ([ReadPlaces(r)] + ([Write(r)] + [])), c);
    assert Run(written, []) == written;
  }

  lemma GroupedBreaks(s: State, r: nat, c: nat)
    requires NothingDangles(s) && IsFixed(s, c) && MovesFar(s)
    requires r in s.requests && s.requests[r].Grouped? && !Together(s, s.requests[r], c)
    ensures var es := [ReadPlaces(r), Write(r)]; Legal(s, es) && StandsFixed(s, es, c) && !Keeps(s, es, c)
  {
    SeparatedMoveBreaks(s, r, c);
    var read := Next(s, ReadPlaces(r));
    Prepend(read, Write(r), [], c);
    assert [Write(r)] + [] == [Write(r)] && [ReadPlaces(r)] + [Write(r)] == [ReadPlaces(r), Write(r)];
    Prepend(s, ReadPlaces(r), [Write(r)], c);
  }

  lemma RunsJoin(s: State, es: seq<Event>, more: seq<Event>, c: nat)
    requires Legal(s, es) && StandsFixed(s, es, c) && Legal(Run(s, es), more) && StandsFixed(Run(s, es), more, c)
    ensures Legal(s, es + more) && StandsFixed(s, es + more, c) && Run(s, es + more) == Run(Run(s, es), more)
    decreases |es|
  {
    if es == [] {
      assert es + more == more;
    } else {
      RunsJoin(Next(s, es[0]), es[1..], more, c);
      assert (es + more)[1..] == es[1..] + more;
    }
  }

  /**
   * A write whose places separate the ends breaks the offset at once, or, where the stale place happens to be the
   * present one, as soon as another move has carried both ends away.
   */
  lemma PlacedBreaks(s: State, r: nat, c: nat) returns (es: seq<Event>)
    requires NothingDangles(s) && DeletesSound(s) && IsFixed(s, c) && MovesFar(s)
    requires r in s.requests && s.requests[r].Placed? && !Together(s, s.requests[r], c)
    ensures Legal(s, es) && StandsFixed(s, es, c) && !Keeps(s, es, c)
  {
    var (q, a, b) := (s.requests[r], s.constraints[c].a, s.constraints[c].b);
    if Minus(Put(s, q, a), Put(s, q, b)) != Offset(s, c) {
      WriteBreaks(s, r, c);
      return [Write(r)];
    }
    assert a in q.places <==> b !in q.places;
    var moved := MoveBoth(s, c, q.delta);
    var s' := Run(s, moved);
    assert Offset(s', c) == Offset(s, c);
    RunLeavesNothingDangling(s, moved);
    WriteBreaks(s', r, c);
    RunsJoin(s, moved, [Write(r)], c);
    es := moved + [Write(r)];
  }

  /** Every legal run in which the constraint stands keeps its ends as far apart as they are. */
  ghost predicate AlwaysKeeps(s: State, c: nat)
    requires NothingDangles(s) && IsFixed(s, c)
  {
    forall es: seq<Event> :: Legal(s, es) && StandsFixed(s, es, c) ==> Keeps(s, es, c)
  }

  /**
   * Exactly: every legal run in which a position-fixed constraint stands keeps its ends as far apart as they are if
   * and only if no move in flight separates them now.
   */
  lemma OffsetIsSafeOnlyUnseparated(s: State, c: nat)
    requires NothingDangles(s) && DeletesSound(s) && MovesFar(s) && IsFixed(s, c)
    ensures Unseparated(s, c) <==> AlwaysKeeps(s, c)
  {
    if Unseparated(s, c) {
      forall es: seq<Event> | Legal(s, es) && StandsFixed(s, es, c) ensures Keeps(s, es, c) {
        RunKeepsOffset(s, es, c);
      }
    } else {
      var r :| r in s.requests && !Together(s, s.requests[r], c);
      if s.requests[r].Grouped? {
        GroupedBreaks(s, r, c);
      } else {
        var es := PlacedBreaks(s, r, c);
      }
    }
  }

  /**
   * From a state in which every fixed constraint is safe, a step leaves them all safe for ever, with any it fixes, if
   * and only if no move in flight separates the ends of what it fixes.
   */
  lemma StepIsSafeOnlyUnseparated(s: State, e: Event)
    requires NothingDangles(s) && DeletesSound(s) && MovesFar(s) && Enabled(s, e)
    requires forall c :: IsFixed(s, c) ==> AlwaysKeeps(s, c)
    ensures NothingDangles(Next(s, e))
    ensures (forall c :: IsFixed(Next(s, e), c) ==> AlwaysKeeps(Next(s, e), c)) <==> forall c :: Fixes(s, e, c) ==> Unseparated(Next(s, e), c)
  {
    var s' := Next(s, e);
    StepKeepsDeletesSound(s, e);
    StepKeepsNothingDangling(s, e);
    StepKeepsMovesFar(s, e);
    forall c | IsFixed(s, c) ensures Unseparated(s, c) { OffsetIsSafeOnlyUnseparated(s, c); }
    forall c | IsFixed(s', c) ensures Unseparated(s', c) <==> AlwaysKeeps(s', c) { OffsetIsSafeOnlyUnseparated(s', c); }
    StepKeepsMovesSound(s, e);
    forall c | Fixes(s, e, c) ensures IsFixed(s', c) { FixingIsSafe(s, e, c); }
  }
}
