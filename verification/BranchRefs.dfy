/**
 * Writers racing on the branches of one bare repository: web commits (apps/api/src/web-commit.ts), fork
 * sync, merge and suggestion pushes (apps/api/src/git-utils.ts) and client pushes through the pre-receive
 * hook (apps/api/src/git-hooks.ts). A step is what happens between two awaits.
 */
module BranchRefs {
  import opened Wrappers
  import opened Collections

  /** Commit objects, numbered so that parents come before children. */
  type Graph = map<nat, set<nat>>

  predicate WellFormed(g: Graph) { forall c: nat, p: nat :: c in g && p in g[c] ==> p in g && p < c }

  ghost predicate Ancestor(g: Graph, a: nat, c: nat)
    decreases c
  {
    a == c || (c in g && exists p :: p in g[c] && p < c && Ancestor(g, a, p))
  }

  lemma {:induction false} AncestorTransitive(g: Graph, a: nat, b: nat, c: nat)
    requires Ancestor(g, a, b) && Ancestor(g, b, c)
    ensures Ancestor(g, a, c)
    decreases c
  {
    if b != c {
      var p :| p in g[c] && p < c && Ancestor(g, b, p);
      AncestorTransitive(g, a, b, p);
    }
  }

  lemma {:induction false} AncestorGrows(g: Graph, g': Graph, a: nat, c: nat)
    requires Ancestor(g, a, c) && forall x :: x in g ==> x in g' && g'[x] == g[x]
    ensures Ancestor(g', a, c)
    decreases c
  {
    if a != c {
      var p :| p in g[c] && p < c && Ancestor(g, a, p);
      AncestorGrows(g, g', a, p);
    }
  }

  lemma {:induction false} AncestorIsOlder(g: Graph, a: nat, c: nat)
    requires Ancestor(g, a, c)
    ensures a <= c
    decreases c
  {
    if a != c {
      var p :| p in g[c] && p < c && Ancestor(g, a, p);
      AncestorIsOlder(g, a, p);
    }
  }

  ghost function Reachable(g: Graph, c: nat): set<nat> { set a: nat | a <= c && Ancestor(g, a, c) }

  /** `git rev-list --left-right --count base...head`: commits only `head` reaches. */
  ghost function AheadCount(g: Graph, base: nat, head: nat): nat { |Reachable(g, head) - Reachable(g, base)| }

  lemma NotAheadIsAncestor(g: Graph, base: nat, head: nat)
    ensures AheadCount(g, base, head) == 0 <==> Ancestor(g, head, base)
  {
    var only := Reachable(g, head) - Reachable(g, base);
    if Ancestor(g, head, base) {
      forall a | a in Reachable(g, head) ensures a in Reachable(g, base) {
        AncestorTransitive(g, a, head, base);
        AncestorIsOlder(g, a, base);
      }
      assert only == {};
    } else {
      assert head in only;
    }
  }

  // ------------------------------------------------------------------ the system

  /** A writer between two of its awaits. `guard` is the value its ref update is guarded with. */
  datatype Task =
    | WebRead(branch: string, guard: Option<nat>, parent: Option<nat>)     // a new branch has no old value
    | WebReady(branch: string, guard: Option<nat>, commit: nat)
    | SyncRead(branch: string, upstream: nat, oldSha: Option<nat>)       // fetched and resolved the fork's tip
    | SyncCounted(branch: string, upstream: nat, oldTip: nat, ahead: nat, behind: nat)
    | Cloned(branch: string, tip: nat)                                   // merge, squash, rebase or suggestion
    | Built(branch: string, commit: nat)
    | Pushing(branch: string, guard: Option<nat>, commit: nat)             // past the client-side fast-forward test
    | Received(branch: string, guard: Option<nat>, new_: Option<nat>)      // past the pre-receive hook

  /** `tags`: what git finds under a bare name before the branch of that name, a tag above all, and its commit if it is of one. */
  datatype State = State(graph: Graph, refs: map<string, nat>, tags: map<string, Option<nat>>, tasks: map<nat, Task>)

  datatype Event =
    | NewCommit(commit: nat, parents: set<nat>)
    | Tag(name: string, points: Option<nat>)
    | Untag(name: string)
    | WebBegin(task: nat, base: string, target: string)
    | WebCommit(task: nat, commit: nat)
    | WebSwap(task: nat)
    | SyncBegin(task: nat, branch: string, upstream: nat)
    | SyncCount(task: nat)
    | SyncSwap(task: nat)
    | SyncCreate(task: nat)
    | Clone(task: nat, branch: string)
    | Build(task: nat, commit: nat)
    | PushStart(task: nat)
    | PushFinish(task: nat)
    | Receive(task: nat, branch: string, claimed: Option<nat>, new_: Option<nat>)
    | ReceiveFinish(task: nat)

  function Tip(s: State, branch: string): Option<nat> {
    if branch in s.refs then Some(s.refs[branch]) else None
  }

  /** The commit that a bare name means to git: a tag comes before the branch. */
  function Named(s: State, name: string): Option<nat> { if name in s.tags then s.tags[name] else Tip(s, name) }

  function SetRef(refs: map<string, nat>, branch: string, value: Option<nat>): map<string, nat> {
    if value.Some? then refs[branch := value.value] else refs - {branch}
  }

  /** `git update-ref <ref> <new> <old>`: moves the ref only if it still holds the old value. */
  function Swap(s: State, branch: string, guard: Option<nat>, value: Option<nat>): State {
    if Tip(s, branch) == guard then s.(refs := SetRef(s.refs, branch, value)) else s
  }

  function Done(s: State, t: nat): State { s.(tasks := s.tasks - {t}) }

  function Becomes(s: State, t: nat, task: Task): State { s.(tasks := s.tasks[t := task]) }

  /** The hook on one branch of `locked`, the branches whose rule blocks force pushes. */
  ghost predicate HookPasses(g: Graph, locked: set<string>, branch: string, claimed: Option<nat>, new_: Option<nat>) {
    branch in locked ==> new_.Some? && (claimed.Some? ==> Ancestor(g, claimed.value, new_.value))
  }

  ghost predicate Enabled(s: State, e: Event, locked: set<string>) {
    match e
    case NewCommit(c, parents) => c !in s.graph && forall p :: p in parents ==> p in s.graph && p < c
    case Tag(_, target) => target.Some? ==> target.value in s.graph
    case Untag(_) => true
    case WebBegin(t, base, target) =>
      // Only an empty repository may start without a parent.
      t !in s.tasks && (base in s.refs || s.refs == map[]) && (target != base ==> target !in s.refs)
    case WebCommit(t, c) =>
      t in s.tasks && s.tasks[t].WebRead? && c !in s.graph &&
      (s.tasks[t].parent.Some? ==> s.tasks[t].parent.value in s.graph && s.tasks[t].parent.value < c)
    case WebSwap(t) => t in s.tasks && s.tasks[t].WebReady?
    case SyncBegin(t, _, upstream) => t !in s.tasks && upstream in s.graph
    case SyncCount(t) => t in s.tasks && s.tasks[t].SyncRead? && s.tasks[t].oldSha.Some?
    case SyncSwap(t) => t in s.tasks && s.tasks[t].SyncCounted?
    case SyncCreate(t) => t in s.tasks && s.tasks[t].SyncRead? && s.tasks[t].oldSha.None?
    case Clone(t, branch) => t !in s.tasks && branch in s.refs
    case Build(t, c) => t in s.tasks && s.tasks[t].Cloned? && c in s.graph && Ancestor(s.graph, s.tasks[t].tip, c)
    case PushStart(t) => t in s.tasks && s.tasks[t].Built?
    case PushFinish(t) => t in s.tasks && s.tasks[t].Pushing?
    case Receive(t, _, _, new_) => t !in s.tasks && (new_.Some? ==> new_.value in s.graph)
    case ReceiveFinish(t) => t in s.tasks && s.tasks[t].Received?
  }

  /** One step of one writer. */
  ghost function Step(s: State, e: Event, locked: set<string>): State
    requires Enabled(s, e, locked)
  {
    match e
    case NewCommit(c, parents) => s.(graph := s.graph[c := parents])
    case Tag(name, target) => s.(tags := s.tags[name := target])
    case Untag(name) => s.(tags := s.tags - {name})
    case WebBegin(t, base, target) =>
      Becomes(s, t, WebRead(target, if target == base then Tip(s, base) else None, Tip(s, base)))
    case WebCommit(t, c) =>
      var w := s.tasks[t];
      var parents := if w.parent.Some? then {w.parent.value} else {};
      Becomes(s.(graph := s.graph[c := parents]), t, WebReady(w.branch, w.guard, c))
    case WebSwap(t) =>
      var w := s.tasks[t];
      Done(Swap(s, w.branch, w.guard, Some(w.commit)), t)
    case SyncBegin(t, branch, upstream) => Becomes(s, t, SyncRead(branch, upstream, Tip(s, branch)))
    case SyncCount(t) =>
      // The branch is named again here, and bare: what is counted may be newer than the guarded tip, or a tag.
      var w := s.tasks[t];
      var head := Named(s, w.branch);
      if head.None? then Becomes(s, t, SyncCounted(w.branch, w.upstream, w.oldSha.value, 0, 0))
      else Becomes(s, t, SyncCounted(w.branch, w.upstream, w.oldSha.value,
                                     AheadCount(s.graph, w.upstream, head.value), AheadCount(s.graph, head.value, w.upstream)))
    case SyncSwap(t) =>
      var w := s.tasks[t];
      if w.behind == 0 || w.ahead > 0 then Done(s, t)
      else Done(Swap(s, w.branch, Some(w.oldTip), Some(w.upstream)), t)
    case SyncCreate(t) =>
      // No old value: `git update-ref <ref> <new>` writes whatever is there.
      var w := s.tasks[t];
      Done(s.(refs := s.refs[w.branch := w.upstream]), t)
    case Clone(t, branch) => Becomes(s, t, Cloned(branch, s.refs[branch]))
    case Build(t, c) => Becomes(s, t, Built(s.tasks[t].branch, c))
    case PushStart(t) =>
      var w := s.tasks[t];
      var advertised := Tip(s, w.branch);
      if advertised.Some? && !Ancestor(s.graph, advertised.value, w.commit) then Done(s, t)
      else Becomes(s, t, Pushing(w.branch, advertised, w.commit))
    case PushFinish(t) =>
      var w := s.tasks[t];
      Done(Swap(s, w.branch, w.guard, Some(w.commit)), t)
    case Receive(t, branch, claimed, new_) =>
      if HookPasses(s.graph, locked, branch, claimed, new_) then Becomes(s, t, Received(branch, claimed, new_)) else s
    case ReceiveFinish(t) =>
      var w := s.tasks[t];
      Done(Swap(s, w.branch, w.guard, w.new_), t)
  }

  // ---------------------------------------------------------------- the invariant

  /** Nothing a locked branch holds or held is off the history of what it holds. */
  ghost predicate Moves(g: Graph, refs: map<string, nat>, refs': map<string, nat>, branch: string) {
    branch in refs ==> branch in refs' && Ancestor(g, refs[branch], refs'[branch])
  }

  /** What a pending writer has established, so that its guarded write can only go forward. */
  ghost predicate TaskSound(s: State, w: Task, locked: set<string>) {
    match w
    case WebRead(branch, guard, parent) => (parent.Some? ==> parent.value in s.graph) && (guard.Some? ==> guard == parent)
    case WebReady(branch, guard, commit) => commit in s.graph && (guard.Some? ==> Ancestor(s.graph, guard.value, commit))
    case SyncRead(branch, upstream, oldSha) =>
      upstream in s.graph && (oldSha.Some? ==> oldSha.value in s.graph) && (branch in locked && oldSha.Some? ==>
        branch in s.refs && Ancestor(s.graph, oldSha.value, s.refs[branch]))
    case SyncCounted(branch, upstream, oldTip, ahead, behind) =>
      upstream in s.graph && (branch in locked && ahead == 0 && behind > 0 ==> Ancestor(s.graph, oldTip, upstream))
    case Cloned(branch, tip) => true
    case Built(branch, commit) => commit in s.graph
    case Pushing(branch, guard, commit) => commit in s.graph && (guard.Some? ==> Ancestor(s.graph, guard.value, commit))
    case Received(branch, guard, new_) => (new_.Some? ==> new_.value in s.graph) && HookPasses(s.graph, locked, branch, guard, new_)
  }

  ghost predicate Inv(s: State, locked: set<string>) {
    && WellFormed(s.graph)
    && (forall b :: b in s.refs ==> s.refs[b] in s.graph)
    && (forall n :: n in s.tags && s.tags[n].Some? ==> s.tags[n].value in s.graph)
    && (forall t :: t in s.tasks ==> TaskSound(s, s.tasks[t], locked))
  }

  ghost predicate GraphGrows(g: Graph, g': Graph) { forall c :: c in g ==> c in g' && g'[c] == g[c] }

  lemma TaskStaysSound(s: State, s': State, w: Task, locked: set<string>)
    requires TaskSound(s, w, locked) && GraphGrows(s.graph, s'.graph)
    requires forall b :: b in locked ==> Moves(s'.graph, s.refs, s'.refs, b)
    ensures TaskSound(s', w, locked)
  {
    match w
    case WebReady(_, guard, commit) => if guard.Some? { AncestorGrows(s.graph, s'.graph, guard.value, commit); }
    case SyncRead(branch, _, oldSha) =>
      if branch in locked && oldSha.Some? {
        AncestorGrows(s.graph, s'.graph, oldSha.value, s.refs[branch]);
        AncestorTransitive(s'.graph, oldSha.value, s.refs[branch], s'.refs[branch]);
      }
    case SyncCounted(branch, upstream, oldTip, ahead, behind) =>
      if branch in locked && ahead == 0 && behind > 0 { AncestorGrows(s.graph, s'.graph, oldTip, upstream); }
    case Pushing(_, guard, commit) => if guard.Some? { AncestorGrows(s.graph, s'.graph, guard.value, commit); }
    case Received(branch, guard, new_) =>
      if branch in locked && guard.Some? { AncestorGrows(s.graph, s'.graph, guard.value, new_.value); }
    case _ =>
  }

  /**
   * Of a locked branch: the one write without an old value happens only while the branch is still absent, and a tag
   * of its name that a sync counts on descends from the tip the sync guards.
   */
  ghost predicate Guarded(s: State, e: Event, locked: set<string>) {
    match e
    case SyncCreate(t) => t in s.tasks && s.tasks[t].SyncRead? && s.tasks[t].branch in locked ==> s.tasks[t].branch !in s.refs
    case SyncCount(t) =>
      t in s.tasks && s.tasks[t].SyncRead? && s.tasks[t].oldSha.Some? && s.tasks[t].branch in locked ==> CountsDescendant(s, s.tasks[t])
    case _ => true
  }

  ghost predicate CountsDescendant(s: State, w: Task)
    requires w.SyncRead? && w.oldSha.Some?
  {
    w.branch in s.tags && s.tags[w.branch].Some? ==> Ancestor(s.graph, w.oldSha.value, s.tags[w.branch].value)
  }

  /** A write that is guarded by `guard`, of a value that is then no step back, moves no locked branch back. */
  lemma SwapMovesForward(s: State, branch: string, guard: Option<nat>, value: Option<nat>, locked: set<string>)
    requires branch in locked && guard.Some? ==> value.Some? && Ancestor(s.graph, guard.value, value.value)
    ensures forall b :: b in locked ==> Moves(s.graph, s.refs, Swap(s, branch, guard, value).refs, b)
  {
    forall b | b in locked ensures Moves(s.graph, s.refs, Swap(s, branch, guard, value).refs, b) {
      if b in s.refs { assert Ancestor(s.graph, s.refs[b], s.refs[b]); }
    }
  }

  /** Most events write no branch. */
  predicate Writes(e: Event) { e.WebSwap? || e.SyncSwap? || e.SyncCreate? || e.PushFinish? || e.ReceiveFinish? }

  lemma StepGrowsGraph(s: State, e: Event, locked: set<string>)
    requires Enabled(s, e, locked)
    ensures GraphGrows(s.graph, Step(s, e, locked).graph)
    ensures !Writes(e) ==> Step(s, e, locked).refs == s.refs
    ensures Writes(e) ==> Step(s, e, locked).graph == s.graph
  {
  }

  lemma WriteMovesForward(s: State, e: Event, locked: set<string>)
    requires Inv(s, locked) && Enabled(s, e, locked) && Guarded(s, e, locked) && Writes(e)
    ensures forall b :: b in locked ==> Moves(s.graph, s.refs, Step(s, e, locked).refs, b)
  {
    var w := s.tasks[e.task];
    assert TaskSound(s, w, locked);
    match e
    case WebSwap(_) => SwapMovesForward(s, w.branch, w.guard, Some(w.commit), locked);
    case SyncSwap(_) => if w.behind > 0 && w.ahead == 0 { SwapMovesForward(s, w.branch, Some(w.oldTip), Some(w.upstream), locked); }
    case SyncCreate(_) =>
    case PushFinish(_) => SwapMovesForward(s, w.branch, w.guard, Some(w.commit), locked);
    case ReceiveFinish(_) => SwapMovesForward(s, w.branch, w.guard, w.new_, locked);
  }

  /** Every step moves every locked branch forward or not at all. */
  lemma StepMovesForward(s: State, e: Event, locked: set<string>)
    requires Inv(s, locked) && Enabled(s, e, locked) && Guarded(s, e, locked)
    ensures GraphGrows(s.graph, Step(s, e, locked).graph)
    ensures forall b :: b in locked ==> Moves(Step(s, e, locked).graph, s.refs, Step(s, e, locked).refs, b)
  {
    StepGrowsGraph(s, e, locked);
    if Writes(e) { WriteMovesForward(s, e, locked); }
  }

  /** What the writer that took the step has established. */
  lemma ChangedTaskSound(s: State, e: Event, locked: set<string>, t: nat)
    requires Inv(s, locked) && Enabled(s, e, locked) && Guarded(s, e, locked)
    requires t in Step(s, e, locked).tasks && (t in s.tasks ==> Step(s, e, locked).tasks[t] != s.tasks[t])
    ensures TaskSound(Step(s, e, locked), Step(s, e, locked).tasks[t], locked)
  {
    var s' := Step(s, e, locked);
    match e
    case WebCommit(_, c) =>
      var w := s.tasks[t];
      if w.guard.Some? { assert w.guard.value in s'.graph[c] && Ancestor(s'.graph, w.guard.value, w.guard.value); }
    case SyncCount(_) =>
      // A count of zero says what is counted is in upstream; the guarded tip is in what is counted.
      var w := s.tasks[t];
      var head := Named(s, w.branch);
      if head.Some? {
        NotAheadIsAncestor(s.graph, w.upstream, head.value);
        if w.branch in locked && Ancestor(s.graph, head.value, w.upstream) {
          AncestorTransitive(s.graph, w.oldSha.value, head.value, w.upstream);
        }
      }
    case _ =>
  }

  lemma StepKeepsInv(s: State, e: Event, locked: set<string>)
    requires Inv(s, locked) && Enabled(s, e, locked) && Guarded(s, e, locked)
    ensures Inv(Step(s, e, locked), locked)
  {
    var s' := Step(s, e, locked);
    StepMovesForward(s, e, locked);
    forall t | t in s'.tasks ensures TaskSound(s', s'.tasks[t], locked) {
      if t in s.tasks && s'.tasks[t] == s.tasks[t] { TaskStaysSound(s, s', s.tasks[t], locked); }
      else { ChangedTaskSound(s, e, locked, t); }
    }
    StepKeepsGraph(s, e, locked);
  }

  lemma StepKeepsGraph(s: State, e: Event, locked: set<string>)
    requires Inv(s, locked) && Enabled(s, e, locked) && Guarded(s, e, locked)
    ensures WellFormed(Step(s, e, locked).graph)
    ensures forall b :: b in Step(s, e, locked).refs ==> Step(s, e, locked).refs[b] in Step(s, e, locked).graph
    ensures var s' := Step(s, e, locked); forall n :: n in s'.tags && s'.tags[n].Some? ==> s'.tags[n].value in s'.graph
  {
    StepGrowsGraph(s, e, locked);
    StepKeepsWellFormed(s, e, locked);
    if Writes(e) { WriteKeepsRefs(s, e, locked); }
  }

  lemma StepKeepsWellFormed(s: State, e: Event, locked: set<string>)
    requires WellFormed(s.graph) && Enabled(s, e, locked)
    ensures WellFormed(Step(s, e, locked).graph)
  {
    var g, g' := s.graph, Step(s, e, locked).graph;
    forall c: nat, p: nat | c in g' && p in g'[c] ensures p in g' && p < c {
      if c in g { assert g'[c] == g[c]; }
    }
  }

  lemma WriteKeepsRefs(s: State, e: Event, locked: set<string>)
    requires Inv(s, locked) && Enabled(s, e, locked) && Writes(e)
    ensures forall b :: b in Step(s, e, locked).refs ==> Step(s, e, locked).refs[b] in s.graph
  {
    assert TaskSound(s, s.tasks[e.task], locked);
  }

  // ------------------------------------------------------------- what a write leaves

  /** The branch alone changes, to the value (or is gone). */
  ghost predicate OnlyChanges(refs: map<string, nat>, refs': map<string, nat>, branch: string, value: Option<nat>) {
    && (value.Some? ==> branch in refs' && refs'[branch] == value.value)
    && (value.None? ==> branch !in refs')
    && forall b :: b != branch ==> (b in refs <==> b in refs') && (b in refs && b in refs' ==> refs'[b] == refs[b])
  }

  /** A write whose guard is the tip leaves exactly its value there; any other guarded write leaves everything. */
  ghost predicate Lands(s: State, s': State, branch: string, guard: Option<nat>, value: Option<nat>) {
    if Tip(s, branch) == guard then OnlyChanges(s.refs, s'.refs, branch, value) else s'.refs == s.refs
  }

  /** Web commits, pushes of merges and suggestions, and received pushes leave what they were asked to write. */
  lemma WritesLand(s: State, e: Event, locked: set<string>)
    requires Enabled(s, e, locked)
    ensures e.WebSwap? ==> var w := s.tasks[e.task]; Lands(s, Step(s, e, locked), w.branch, w.guard, Some(w.commit))
    ensures e.PushFinish? ==> var w := s.tasks[e.task]; Lands(s, Step(s, e, locked), w.branch, w.guard, Some(w.commit))
    ensures e.ReceiveFinish? ==> var w := s.tasks[e.task]; Lands(s, Step(s, e, locked), w.branch, w.guard, w.new_)
    ensures e.SyncCreate? ==> var w := s.tasks[e.task]; OnlyChanges(s.refs, Step(s, e, locked).refs, w.branch, Some(w.upstream))
    ensures Writes(e) ==> Step(s, e, locked).graph == s.graph && Step(s, e, locked).tasks.Keys == s.tasks.Keys - {e.task}
    ensures !Writes(e) ==> Step(s, e, locked).refs == s.refs
  {
  }

  /** The events happen one after the other with nothing in between. */
  ghost predicate Undisturbed(s: State, es: seq<Event>, locked: set<string>)
    decreases |es|
  {
    es == [] || (Enabled(s, es[0], locked) && Undisturbed(Step(s, es[0], locked), es[1..], locked))
  }

  ghost function After(s: State, es: seq<Event>, locked: set<string>): State
    requires Undisturbed(s, es, locked)
    decreases |es|
  {
    if es == [] then s else After(Step(s, es[0], locked), es[1..], locked)
  }

  lemma AfterOne(s: State, e: Event, es: seq<Event>, locked: set<string>)
    requires Enabled(s, e, locked) && Undisturbed(Step(s, e, locked), es, locked)
    ensures Undisturbed(s, [e] + es, locked) && After(s, [e] + es, locked) == After(Step(s, e, locked), es, locked)
  {
    assert ([e] + es)[1..] == es;
  }

  lemma AfterTwo(s: State, e0: Event, e1: Event, s1: State, s2: State, locked: set<string>)
    requires StepsTo(s, e0, s1, locked) && StepsTo(s1, e1, s2, locked)
    ensures Undisturbed(s, [e0, e1], locked) && After(s, [e0, e1], locked) == s2
  {
    assert After(s2, [], locked) == s2;
    AfterOne(s1, e1, [], locked);
    AfterOne(s, e0, [e1] + [], locked);
    assert [e0] + ([e1] + []) == [e0, e1];
  }

  lemma AfterThree(s: State, e0: Event, e1: Event, e2: Event, s1: State, s2: State, s3: State, locked: set<string>)
    requires StepsTo(s, e0, s1, locked) && StepsTo(s1, e1, s2, locked) && StepsTo(s2, e2, s3, locked)
    ensures Undisturbed(s, [e0, e1, e2], locked) && After(s, [e0, e1, e2], locked) == s3
  {
    AfterTwo(s1, e1, e2, s2, s3, locked);
    AfterOne(s, e0, [e1, e2], locked);
    assert [e0] + [e1, e2] == [e0, e1, e2];
  }

  lemma AfterFour(s: State, e0: Event, e1: Event, e2: Event, e3: Event, s1: State, s2: State, s3: State, s4: State, locked: set<string>)
    requires StepsTo(s, e0, s1, locked) && StepsTo(s1, e1, s2, locked) && StepsTo(s2, e2, s3, locked) && StepsTo(s3, e3, s4, locked)
    ensures Undisturbed(s, [e0, e1, e2, e3], locked) && After(s, [e0, e1, e2, e3], locked) == s4
  {
    AfterThree(s1, e1, e2, e3, s2, s3, s4, locked);
    AfterOne(s, e0, [e1, e2, e3], locked);
    assert [e0] + [e1, e2, e3] == [e0, e1, e2, e3];
  }

  /** A merge or suggestion that nobody disturbs ends with the branch at the commit it built, and nothing else changed. */
  lemma UndisturbedPush(s: State, t: nat, branch: string, c: nat, locked: set<string>)
    requires t !in s.tasks && branch in s.refs && c in s.graph && Ancestor(s.graph, s.refs[branch], c)
    ensures var es := [Clone(t, branch), Build(t, c), PushStart(t), PushFinish(t)];
      && Undisturbed(s, es, locked)
      && var s' := After(s, es, locked);
         OnlyChanges(s.refs, s'.refs, branch, Some(c)) && s'.graph == s.graph && s'.tasks == s.tasks && s'.tags == s.tags
  {
    var s1 := Step(s, Clone(t, branch), locked);
    var s2 := Step(s1, Build(t, c), locked);
    var s3 := Step(s2, PushStart(t), locked);
    var s4 := Step(s3, PushFinish(t), locked);
    assert s4.tasks == s.tasks;
    AfterFour(s, Clone(t, branch), Build(t, c), PushStart(t), PushFinish(t), s1, s2, s3, s4, locked);
  }

  /**
   * A web commit that nobody disturbs ends with the target at the new commit, whose only parent is the tip of the
   * base; in an empty repository it has none.
   */
  lemma UndisturbedWebCommit(s: State, t: nat, base: string, target: string, c: nat, locked: set<string>)
    requires t !in s.tasks && c !in s.graph && (base in s.refs ==> s.refs[base] in s.graph && s.refs[base] < c)
    requires (base in s.refs || s.refs == map[]) && (target != base ==> target !in s.refs)
    ensures var es := [WebBegin(t, base, target), WebCommit(t, c), WebSwap(t)];
      && Undisturbed(s, es, locked)
      && var s' := After(s, es, locked);
         && OnlyChanges(s.refs, s'.refs, target, Some(c)) && s'.tasks == s.tasks && s'.tags == s.tags
         && s'.graph.Keys == s.graph.Keys + {c} && GraphGrows(s.graph, s'.graph)
         && s'.graph[c] == if base in s.refs then {s.refs[base]} else {}
  {
    var s1 := Step(s, WebBegin(t, base, target), locked);
    var s2 := Step(s1, WebCommit(t, c), locked);
    var s3 := Step(s2, WebSwap(t), locked);
    assert s3.tasks == s.tasks;
    AfterThree(s, WebBegin(t, base, target), WebCommit(t, c), WebSwap(t), s1, s2, s3, locked);
  }

  /** A client's push that passes the hook and claims the present tip lands; one that the hook stops changes nothing. */
  lemma UndisturbedReceive(s: State, t: nat, branch: string, new_: Option<nat>, locked: set<string>)
    requires t !in s.tasks && (new_.Some? ==> new_.value in s.graph)
    ensures var receive := Receive(t, branch, Tip(s, branch), new_);
      if branch in locked && (new_.None? || (branch in s.refs && !Ancestor(s.graph, s.refs[branch], new_.value)))
      then Enabled(s, receive, locked) && Step(s, receive, locked) == s
      else Undisturbed(s, [receive, ReceiveFinish(t)], locked)
           && var s' := After(s, [receive, ReceiveFinish(t)], locked);
              OnlyChanges(s.refs, s'.refs, branch, new_) && s'.graph == s.graph && s'.tasks == s.tasks
  {
    var receive := Receive(t, branch, Tip(s, branch), new_);
    var s1 := Step(s, receive, locked);
    if HookPasses(s.graph, locked, branch, Tip(s, branch), new_) {
      var s2 := Step(s1, ReceiveFinish(t), locked);
      assert s2.tasks == s.tasks;
      AfterTwo(s, receive, ReceiveFinish(t), s1, s2, locked);
    }
  }

  /**
   * A sync that nobody disturbs, of a branch without a tag of its name, moves it to upstream exactly when upstream is
   * ahead of it, and otherwise leaves it; a branch that is absent is created there.
   */
  lemma UndisturbedSync(s: State, t: nat, branch: string, u: nat, locked: set<string>)
    requires t !in s.tasks && u in s.graph && branch !in s.tags
    ensures var es := [SyncBegin(t, branch, u)] + if branch in s.refs then [SyncCount(t), SyncSwap(t)] else [SyncCreate(t)];
      && Undisturbed(s, es, locked)
      && var s' := After(s, es, locked);
         && s'.graph == s.graph && s'.tasks == s.tasks
         && (if branch in s.refs && !Ancestor(s.graph, s.refs[branch], u) then s'.refs == s.refs
             else OnlyChanges(s.refs, s'.refs, branch, Some(u)))
  {
    var s1 := Step(s, SyncBegin(t, branch, u), locked);
    if branch in s.refs {
      var s2 := Step(s1, SyncCount(t), locked);
      var s3 := Step(s2, SyncSwap(t), locked);
      FastForwardIsProperDescendant(s.graph, s.refs[branch], u);
      NotAheadIsAncestor(s.graph, s.refs[branch], u);
      assert s3.tasks == s.tasks;
      AfterThree(s, SyncBegin(t, branch, u), SyncCount(t), SyncSwap(t), s1, s2, s3, locked);
      assert [SyncBegin(t, branch, u)] + [SyncCount(t), SyncSwap(t)] == [SyncBegin(t, branch, u), SyncCount(t), SyncSwap(t)];
    } else {
      var s2 := Step(s1, SyncCreate(t), locked);
      assert s2.tasks == s.tasks;
      AfterTwo(s, SyncBegin(t, branch, u), SyncCreate(t), s1, s2, locked);
      assert [SyncBegin(t, branch, u)] + [SyncCreate(t)] == [SyncBegin(t, branch, u), SyncCreate(t)];
    }
  }

  // --------------------------------------------------------------------- whole runs

  ghost predicate Run(states: seq<State>, events: seq<Event>, locked: set<string>) {
    && |states| == |events| + 1
    && Inv(states[0], locked)
    && forall i :: 0 <= i < |events| ==> Leads(states[i], events[i], states[i + 1], locked)
  }

  ghost predicate Leads(s: State, e: Event, s': State, locked: set<string>) {
    StepsTo(s, e, s', locked) && Guarded(s, e, locked)
  }

  ghost predicate StepsTo(s: State, e: Event, s': State, locked: set<string>) {
    Enabled(s, e, locked) && s' == Step(s, e, locked)
  }

  lemma {:induction false} RunKeepsInv(states: seq<State>, events: seq<Event>, locked: set<string>, i: nat)
    requires Run(states, events, locked) && i < |states|
    ensures Inv(states[i], locked)
  {
    if i > 0 {
      RunKeepsInv(states, events, locked, i - 1);
      assert Leads(states[i - 1], events[i - 1], states[i - 1 + 1], locked);
      StepKeepsInv(states[i - 1], events[i - 1], locked);
    }
  }

  /**
   * Nothing accepted is ever lost: whatever commit a locked branch reaches at one moment of a run, it
   * reaches at every later moment, under every interleaving of the writers.
   */
  lemma {:induction false} NothingAcceptedIsLost(states: seq<State>, events: seq<Event>, locked: set<string>, i: nat, j: nat,
                                                 branch: string, commit: nat)
    requires Run(states, events, locked) && i <= j < |states|
    requires branch in locked && branch in states[i].refs && Ancestor(states[i].graph, commit, states[i].refs[branch])
    ensures branch in states[j].refs && Ancestor(states[j].graph, commit, states[j].refs[branch])
    decreases j - i
  {
    if i < j {
      RunKeepsInv(states, events, locked, i);
      assert Leads(states[i], events[i], states[i + 1], locked);
      StepMovesForward(states[i], events[i], locked);
      var s, s' := states[i], states[i + 1];
      AncestorGrows(s.graph, s'.graph, commit, s.refs[branch]);
      AncestorTransitive(s'.graph, commit, s.refs[branch], s'.refs[branch]);
      NothingAcceptedIsLost(states, events, locked, i + 1, j, branch, commit);
    }
  }

  // ------------------------------------------------- where the guards are missing

  /** The unguarded creation of a branch moves it forward exactly when it is absent or already behind upstream. */
  lemma CreationIsSafeOnlyWhenAbsent(s: State, t: nat, locked: set<string>)
    requires Enabled(s, SyncCreate(t), locked)
    ensures (forall b: string :: Moves(s.graph, s.refs, Step(s, SyncCreate(t), locked).refs, b))
       <==> s.tasks[t].branch !in s.refs || Ancestor(s.graph, s.refs[s.tasks[t].branch], s.tasks[t].upstream)
  {
    var s', w := Step(s, SyncCreate(t), locked), s.tasks[t];
    assert forall b: string :: b != w.branch ==> Moves(s.graph, s.refs, s'.refs, b);
    assert Moves(s.graph, s.refs, s'.refs, w.branch) <==> w.branch !in s.refs || Ancestor(s.graph, s.refs[w.branch], w.upstream);
  }

  /**
   * The sync's guarded swap moves every branch forward exactly when it writes nothing, because the counts or
   * the old value stop it, or its guarded tip is behind upstream.
   */
  lemma SyncIsSafeOnlyForward(s: State, t: nat, locked: set<string>)
    requires Enabled(s, SyncSwap(t), locked)
    ensures var w := s.tasks[t];
      (forall b: string :: Moves(s.graph, s.refs, Step(s, SyncSwap(t), locked).refs, b))
      <==> w.behind == 0 || w.ahead > 0 || Tip(s, w.branch) != Some(w.oldTip) || Ancestor(s.graph, w.oldTip, w.upstream)
  {
    var s', w := Step(s, SyncSwap(t), locked), s.tasks[t];
    assert forall b: string :: b != w.branch ==> Moves(s.graph, s.refs, s'.refs, b);
    if w.branch in s.refs {
      assert Ancestor(s.graph, s.refs[w.branch], s.refs[w.branch]);
      assert Moves(s.graph, s.refs, s'.refs, w.branch) <==> Ancestor(s.graph, s.refs[w.branch], s'.refs[w.branch]);
    }
  }

  /** The counts on this tip and this upstream let the sync write: nothing ahead, something behind. */
  ghost predicate FastForward(g: Graph, head: nat, upstream: nat) {
    AheadCount(g, upstream, head) == 0 && AheadCount(g, head, upstream) > 0
  }

  lemma FastForwardIsProperDescendant(g: Graph, head: nat, upstream: nat)
    ensures FastForward(g, head, upstream) <==> Ancestor(g, head, upstream) && head != upstream
  {
    NotAheadIsAncestor(g, upstream, head);
    NotAheadIsAncestor(g, head, upstream);
    if Ancestor(g, head, upstream) && Ancestor(g, upstream, head) {
      AncestorIsOlder(g, head, upstream);
      AncestorIsOlder(g, upstream, head);
    }
  }

  /** New commits give the old ones no new ancestors. */
  lemma {:induction false} AncestorWasThere(g: Graph, g': Graph, a: nat, c: nat)
    requires WellFormed(g) && GraphGrows(g, g') && c in g && Ancestor(g', a, c)
    ensures Ancestor(g, a, c)
    decreases c
  {
    if a != c {
      var p :| p in g'[c] && p < c && Ancestor(g', a, p);
      AncestorWasThere(g, g', a, p);
    }
  }

  /** A later graph of the same repository. */
  ghost predicate Later(g: Graph, g': Graph) { WellFormed(g') && GraphGrows(g, g') }

  lemma DescendantIsSafe(g: Graph, a: nat, b: nat, g': Graph, u: nat)
    requires Ancestor(g, a, b) && Later(g, g') && FastForward(g', b, u)
    ensures Ancestor(g', a, u)
  {
    FastForwardIsProperDescendant(g', b, u);
    AncestorGrows(g, g', a, b);
    AncestorTransitive(g', a, b, u);
  }

  lemma NewTipWellFormed(g: Graph, b: nat, u: nat)
    requires WellFormed(g) && b in g && u !in g && b < u
    ensures WellFormed(g[u := {b}])
  {
    var g' := g[u := {b}];
    forall c: nat, p: nat | c in g' && p in g'[c] ensures p in g' && p < c {
      if c == u { assert p == b; } else { assert c in g && p in g[c]; }
    }
  }

  /** One new commit on top of `b` alone is an upstream that `b` lets pass. */
  lemma CommitOnTop(g: Graph, a: nat, b: nat) returns (g': Graph, u: nat)
    requires WellFormed(g) && a in g && b in g
    ensures Later(g, g') && u in g' && FastForward(g', b, u) && (Ancestor(g', a, u) ==> Ancestor(g, a, b))
  {
    u := UpperBound(g.Keys);
    g' := g[u := {b}];
    assert u !in g && b in g'[u] && b < u && Ancestor(g', b, b);
    NewTipWellFormed(g, b, u);
    FastForwardIsProperDescendant(g', b, u);
    if Ancestor(g', a, u) { AncestorWasThere(g, g', a, b); }
  }

  /**
   * A sync that guards tip `a` and counts on tip `b` loses nothing, whatever the upstream and whatever is
   * committed meanwhile, exactly when the tip it counted descends from the tip it guards.
   */
  lemma CountIsSafeOnlyOnDescendants(g: Graph, a: nat, b: nat)
    requires WellFormed(g) && a in g && b in g
    ensures Ancestor(g, a, b) <==>
      forall g': Graph, u: nat :: Later(g, g') && u in g' && FastForward(g', b, u) ==> Ancestor(g', a, u)
  {
    if Ancestor(g, a, b) {
      forall g': Graph, u: nat | Later(g, g') && u in g' && FastForward(g', b, u) ensures Ancestor(g', a, u) {
        DescendantIsSafe(g, a, b, g', u);
      }
    } else {
      var g', u := CommitOnTop(g, a, b);
    }
  }

  /** The same sync against another upstream, in a later history. */
  function Against(s: State, t: nat, g: Graph, u: nat): State
    requires t in s.tasks && s.tasks[t].SyncRead?
  {
    s.(graph := g, tasks := s.tasks[t := SyncRead(s.tasks[t].branch, u, s.tasks[t].oldSha)])
  }

  /** What the sync has established once it has counted. */
  ghost predicate CountSound(s: State, t: nat, locked: set<string>)
    requires Enabled(s, SyncCount(t), locked)
  {
    TaskSound(Step(s, SyncCount(t), locked), Step(s, SyncCount(t), locked).tasks[t], locked)
  }

  lemma CountSoundIs(s: State, t: nat, locked: set<string>, g: Graph, u: nat)
    requires Enabled(s, SyncCount(t), locked) && s.tasks[t].branch in locked && u in g
    ensures var counted := Named(s, s.tasks[t].branch);
      CountSound(Against(s, t, g, u), t, locked)
      <==> counted.None? || (FastForward(g, counted.value, u) ==> Ancestor(g, s.tasks[t].oldSha.value, u))
  {
  }

  /**
   * Counting leaves a sync of a locked branch sound, whatever the upstream and whatever is committed before, exactly
   * when what the bare name means, a tag of that name first, is nothing or descends from the guarded tip.
   */
  lemma CountedNameMustDescend(s: State, t: nat, locked: set<string>)
    requires Inv(s, locked) && Enabled(s, SyncCount(t), locked) && s.tasks[t].branch in locked
    ensures var counted := Named(s, s.tasks[t].branch);
      (forall g: Graph, u: nat :: Later(s.graph, g) && u in g ==> CountSound(Against(s, t, g, u), t, locked))
      <==> counted.None? || Ancestor(s.graph, s.tasks[t].oldSha.value, counted.value)
  {
    var counted := Named(s, s.tasks[t].branch);
    assert TaskSound(s, s.tasks[t], locked);
    forall g: Graph, u: nat | Later(s.graph, g) && u in g
      ensures CountSound(Against(s, t, g, u), t, locked)
         <==> counted.None? || (FastForward(g, counted.value, u) ==> Ancestor(g, s.tasks[t].oldSha.value, u))
    {
      CountSoundIs(s, t, locked, g, u);
    }
    if counted.Some? { CountIsSafeOnlyOnDescendants(s.graph, s.tasks[t].oldSha.value, counted.value); }
  }

  /** Three commits: a root, the fork's own commit and upstream's. */
  const FORKED: Graph := map[0 := {}, 1 := {0}, 2 := {0}]

  /**
   * Fast-forward-only history is what the fork sync relies on. On a branch that may be force-pushed, moved
   * away and back between the sync's reads, ahead and behind are counted on the wrong tip, the old value
   * still matches, and the fork's own commit is lost.
   */
  lemma SyncLosesCommitsOfUnlockedBranches(branch: string) returns (states: seq<State>, events: seq<Event>)
    ensures Run(states, events, {}) && states[0] == State(FORKED, map[branch := 1], map[], map[])
    ensures states[|events|].graph == FORKED && states[|events|].refs == map[branch := 2] && !Ancestor(FORKED, 1, 2)
  {
    hide Leads, Inv;
    var counted := AwayAndCounted(branch);
    ForkedIsSound(branch, {});
    Away(branch, counted);
    Back(branch, counted);
    var read := SyncRead(branch, 2, Some(1));
    events := [SyncBegin(0, branch, 2), Receive(1, branch, Some(1), Some(0)), ReceiveFinish(1), SyncCount(0),
               Receive(2, branch, Some(0), Some(1)), ReceiveFinish(2), SyncSwap(0)];
    states := [At(branch, 1, map[]),
               At(branch, 1, map[0 := read]),
               At(branch, 1, map[0 := read, 1 := Received(branch, Some(1), Some(0))]),
               At(branch, 0, map[0 := read]),
               At(branch, 0, map[0 := counted]),
               At(branch, 0, map[0 := counted, 2 := Received(branch, Some(0), Some(1))]),
               At(branch, 1, map[0 := counted]),
               At(branch, 2, map[])];
  }

  function At(branch: string, tip: nat, tasks: map<nat, Task>): State { State(FORKED, map[branch := tip], map[], tasks) }

  lemma ForkedIsSound(branch: string, locked: set<string>)
    ensures Inv(At(branch, 1, map[]), locked)
  {
  }

  lemma Away(branch: string, counted: Task)
    requires counted == SyncCounted(branch, 2, 1, AheadCount(FORKED, 2, 0), AheadCount(FORKED, 0, 2))
    ensures var read, received := SyncRead(branch, 2, Some(1)), Received(branch, Some(1), Some(0));
      && Leads(At(branch, 1, map[]), SyncBegin(0, branch, 2), At(branch, 1, map[0 := read]), {})
      && Leads(At(branch, 1, map[0 := read]), Receive(1, branch, Some(1), Some(0)), At(branch, 1, map[0 := read, 1 := received]), {})
      && Leads(At(branch, 1, map[0 := read, 1 := received]), ReceiveFinish(1), At(branch, 0, map[0 := read]), {})
      && Leads(At(branch, 0, map[0 := read]), SyncCount(0), At(branch, 0, map[0 := counted]), {})
  {
    var read, received := SyncRead(branch, 2, Some(1)), Received(branch, Some(1), Some(0));
    PushedAway(branch, read, received);
    CountedAway(branch, counted);
  }

  lemma PushedAway(branch: string, read: Task, received: Task)
    requires read == SyncRead(branch, 2, Some(1)) && received == Received(branch, Some(1), Some(0))
    ensures Leads(At(branch, 1, map[0 := read]), Receive(1, branch, Some(1), Some(0)), At(branch, 1, map[0 := read, 1 := received]), {})
    ensures Leads(At(branch, 1, map[0 := read, 1 := received]), ReceiveFinish(1), At(branch, 0, map[0 := read]), {})
  {
    assert map[0 := read, 1 := received] - {1} == map[0 := read];
  }

  lemma CountedAway(branch: string, counted: Task)
    requires counted == SyncCounted(branch, 2, 1, AheadCount(FORKED, 2, 0), AheadCount(FORKED, 0, 2))
    ensures Leads(At(branch, 0, map[0 := SyncRead(branch, 2, Some(1))]), SyncCount(0), At(branch, 0, map[0 := counted]), {})
  {
    var before := At(branch, 0, map[0 := SyncRead(branch, 2, Some(1))]);
    assert Step(before, SyncCount(0), {}) == At(branch, 0, map[0 := counted]);
  }

  lemma Back(branch: string, counted: Task)
    requires counted.SyncCounted? && counted.branch == branch && counted.oldTip == 1 && counted.upstream == 2
    requires counted.ahead == 0 && counted.behind > 0
    ensures var received := Received(branch, Some(0), Some(1));
      && Leads(At(branch, 0, map[0 := counted]), Receive(2, branch, Some(0), Some(1)), At(branch, 0, map[0 := counted, 2 := received]), {})
      && Leads(At(branch, 0, map[0 := counted, 2 := received]), ReceiveFinish(2), At(branch, 1, map[0 := counted]), {})
      && Leads(At(branch, 1, map[0 := counted]), SyncSwap(0), At(branch, 2, map[]), {})
  {
    assert map[0 := counted, 2 := Received(branch, Some(0), Some(1))] - {2} == map[0 := counted];
  }

  lemma AwayAndCounted(branch: string) returns (w: Task)
    ensures w == SyncCounted(branch, 2, 1, AheadCount(FORKED, 2, 0), AheadCount(FORKED, 0, 2))
    ensures w.ahead == 0 && w.behind > 0
    ensures !Ancestor(FORKED, 1, 2)
  {
    assert 0 in FORKED[2] && Ancestor(FORKED, 0, 0);
    NotAheadIsAncestor(FORKED, 2, 0);
    NotAheadIsAncestor(FORKED, 0, 2);
    w := SyncCounted(branch, 2, 1, AheadCount(FORKED, 2, 0), AheadCount(FORKED, 0, 2));
  }

  /** A run of the writers in which nothing is asked of the sync. */
  ghost predicate Happens(states: seq<State>, events: seq<Event>, locked: set<string>) {
    && |states| == |events| + 1 && Inv(states[0], locked)
    && forall i :: 0 <= i < |events| ==> StepsTo(states[i], events[i], states[i + 1], locked)
  }

  function Tagged(branch: string, tip: nat, tasks: map<nat, Task>): State {
    State(FORKED, map[branch := tip], map[branch := Some(0)], tasks)
  }

  /**
   * Without a force push and without a race: somebody tags the root with the branch's name, the sync counts on the
   * tag, finds nothing ahead, and the locked branch loses the fork's own commit.
   */
  lemma TagLosesLockedCommit(branch: string) returns (states: seq<State>, events: seq<Event>)
    ensures events == [Tag(branch, Some(0)), SyncBegin(0, branch, 2), SyncCount(0), SyncSwap(0)]
    ensures Happens(states, events, {branch}) && states[0] == State(FORKED, map[branch := 1], map[], map[])
    ensures states[|events|].graph == FORKED && states[|events|].refs == map[branch := 2] && !Ancestor(FORKED, 1, 2)
  {
    hide StepsTo, Inv;
    var counted := AwayAndCounted(branch);
    ForkedIsSound(branch, {branch});
    var read := SyncRead(branch, 2, Some(1));
    events := [Tag(branch, Some(0)), SyncBegin(0, branch, 2), SyncCount(0), SyncSwap(0)];
    states := [At(branch, 1, map[]), Tagged(branch, 1, map[]), Tagged(branch, 1, map[0 := read]),
               Tagged(branch, 1, map[0 := counted]), Tagged(branch, 2, map[])];
    TaggedAndCounted(branch, counted);
  }

  lemma TaggedAndCounted(branch: string, counted: Task)
    requires counted == SyncCounted(branch, 2, 1, AheadCount(FORKED, 2, 0), AheadCount(FORKED, 0, 2))
    requires counted.ahead == 0 && counted.behind > 0
    ensures var read := SyncRead(branch, 2, Some(1));
      && StepsTo(At(branch, 1, map[]), Tag(branch, Some(0)), Tagged(branch, 1, map[]), {branch})
      && StepsTo(Tagged(branch, 1, map[]), SyncBegin(0, branch, 2), Tagged(branch, 1, map[0 := read]), {branch})
      && StepsTo(Tagged(branch, 1, map[0 := read]), SyncCount(0), Tagged(branch, 1, map[0 := counted]), {branch})
      && StepsTo(Tagged(branch, 1, map[0 := counted]), SyncSwap(0), Tagged(branch, 2, map[]), {branch})
  {
    CountedOnTag(branch, counted);
    SwappedAfterTag(branch, counted);
  }

  lemma CountedOnTag(branch: string, counted: Task)
    requires counted == SyncCounted(branch, 2, 1, AheadCount(FORKED, 2, 0), AheadCount(FORKED, 0, 2))
    ensures StepsTo(Tagged(branch, 1, map[0 := SyncRead(branch, 2, Some(1))]), SyncCount(0), Tagged(branch, 1, map[0 := counted]), {branch})
  {
    var before := Tagged(branch, 1, map[0 := SyncRead(branch, 2, Some(1))]);
    assert Step(before, SyncCount(0), {branch}) == Tagged(branch, 1, map[0 := counted]);
  }

  lemma SwappedAfterTag(branch: string, counted: Task)
    requires counted.SyncCounted? && counted.branch == branch && counted.oldTip == 1 && counted.upstream == 2
    requires counted.ahead == 0 && counted.behind > 0
    ensures StepsTo(Tagged(branch, 1, map[0 := counted]), SyncSwap(0), Tagged(branch, 2, map[]), {branch})
  {
    assert map[0 := counted] - {0} == map[];
  }
}
