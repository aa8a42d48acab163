/**
 * The handle of a wasm worker (apps/api/src/fhr/wasm-runtime.ts, class WasmWorkerHandler): calls in flight,
 * timeouts, crashes, respawn and retirement. A method is what runs between two awaits or on one event;
 * events of any worker ever spawned may arrive at any time.
 */
module WasmHandler {
  import opened Wrappers

  /** A `call()` in progress: before its worker is ready, in `pending`, or on its way to its `finally`. */
  datatype Call = Waiting(spawn: nat) | Posted(id: nat) | Leaving

  datatype Event =
    | Enter(call: nat)
    | Resume(call: nat, ready: bool)
    | Leave(call: nat)
    | Result(worker: nat, id: nat, crashed: bool)
    | Error(worker: nat)
    | Exit(worker: nat, code: int)
    | Timeout(id: nat)
    | Retire

  /** What settling the promises of `ids` makes of the calls that await them. */
  function Settling(calls: map<nat, Call>, ids: set<nat>): (r: map<nat, Call>)
    ensures r.Keys == calls.Keys && |r| == |calls|
  {
    var r := map k | k in calls :: if calls[k].Posted? && calls[k].id in ids then Leaving else calls[k];
    assert r.Keys == calls.Keys && |r| == |r.Keys| && |calls| == |calls.Keys|;
    r
  }

  /** `settled` has gone up by one for each of `ids`. */
  ghost predicate OnceMore(before: multiset<nat>, after: multiset<nat>, ids: set<nat>) {
    forall id :: after[id] == before[id] + if id in ids then 1 else 0
  }

  /** Every id issued is pending, at the current worker, or has been settled exactly once. */
  ghost predicate IdsSound(postedTo: map<nat, nat>, issued: nat, pending: set<nat>, worker: Option<nat>, settled: multiset<nat>) {
    && (forall id :: id in postedTo <==> 1 <= id <= issued)
    && (forall id :: id in pending ==> id in postedTo && worker == Some(postedTo[id]))
    && (forall id :: settled[id] == if id in postedTo && id !in pending then 1 else 0)
  }

  /** `active` counts the calls in progress, and what is pending is what they await. */
  ghost predicate CallsSound(calls: map<nat, Call>, active: nat, pending: set<nat>) {
    && active == |calls|
    && (forall k :: k in calls && calls[k].Posted? ==> calls[k].id in pending)
    && (forall id :: id in pending ==> Awaited(calls, id))
  }

  class WasmWorkerHandler {
    var worker: Option<nat>
    var readyP: Option<nat>
    var pending: set<nat>
    var lastId: nat
    var active: nat
    var retired: bool

    /** Workers spawned so far; a worker is named by its turn. */
    var spawned: nat
    /** The calls in progress, each under a name of its own. */
    var calls: map<nat, Call>
    /** The worker each call id was posted to. */
    var postedTo: map<nat, nat>
    /** How often the promise of each id was resolved or rejected. */
    var settled: multiset<nat>

    ghost predicate Valid()
      reads this
    {
      && worker == readyP && (worker.Some? ==> worker.value < spawned)
      && IdsSound(postedTo, lastId, pending, worker, settled) && CallsSound(calls, active, pending)
      && (retired && active == 0 ==> worker == None)
    }

    constructor ()
      ensures Valid() && worker == None && pending == {} && calls == map[] && settled == multiset{} && !retired && lastId == 0 && spawned == 0
    {
      worker, readyP, pending, lastId, active, retired := None, None, {}, 0, 0, false;
      spawned, calls, postedTo, settled := 0, map[], map[], multiset{};
    }

    /** A promise of `pending` is resolved or rejected: its call goes to its `finally`. */
    method Settle(id: nat)
      modifies this`settled, this`calls
      ensures OnceMore(old(settled), settled, {id}) && calls == Settling(old(calls), {id})
    {
      settled := settled + multiset{id};
      calls := Settling(calls, {id});
    }

    method Stop()
      modifies this`worker, this`readyP
      ensures worker == None && readyP == None
    {
      if worker.Some? { worker := None; }
      readyP := None;
    }

    /** Rejects every pending call and tears the worker down. */
    method Fail()
      modifies this`worker, this`readyP, this`pending, this`settled, this`calls
      ensures worker == None && readyP == None && pending == {}
      ensures OnceMore(old(settled), settled, old(pending)) && calls == Settling(old(calls), old(pending))
    {
      var rest := pending;
      ghost var done: set<nat> := {};
      assert calls == Settling(calls, {});
      while rest != {}
        invariant pending == old(pending) && rest <= pending && forall id :: id in pending ==> (id in done <==> id !in rest)
        invariant done <= pending
        invariant OnceMore(old(settled), settled, done) && calls == Settling(old(calls), done)
      {
        var id :| id in rest;
        SettlingBoth(old(calls), done, {id}, done + {id});
        Settle(id);
        rest, done := rest - {id}, done + {id};
      }
      assert done == pending;
      pending := {};
      Stop();
    }

    /** `ensure`: the promise of the current worker, spawning one when there is none. */
    method Ensure() returns (spawn: nat)
      requires worker == readyP
      modifies this`worker, this`readyP, this`spawned
      ensures worker == readyP == Some(spawn)
      ensures old(worker).Some? ==> worker == old(worker) && spawned == old(spawned)
      ensures old(worker).None? ==> spawn == old(spawned) && spawned == old(spawned) + 1
    {
      if readyP.None? {
        worker := Some(spawned);
        readyP := worker;
        spawned := spawned + 1;
      }
      spawn := readyP.value;
    }

    /** A newer build has replaced this one. */
    method Retire()
      requires Valid()
      modifies this
      ensures Valid() && retired && unchanged(`pending, `settled, `calls, `active, `lastId, `postedTo, `spawned)
      ensures worker == if active == 0 then None else old(worker)
    {
      retired := true;
      NothingPendingWithoutCalls(calls, pending);
      if active == 0 { Stop(); }
    }

    /** `call` up to its first await. */
    method CallEnter(k: nat)
      requires Valid() && k !in calls
      modifies this
      ensures Valid() && unchanged(`pending, `settled, `lastId, `postedTo, `retired)
      ensures readyP.Some? && calls == old(calls)[k := Waiting(readyP.value)] && active == old(active) + 1
      ensures old(worker).Some? ==> worker == old(worker)
    {
      active := active + 1;
      var spawn := Ensure();
      calls := calls[k := Waiting(spawn)];
      assert forall id :: id in pending ==> Awaited(old(calls), id);
      StillAwaited(old(calls), calls, pending, k);
    }

    /** `call` once its worker is ready, or the spawn has failed: post to the worker of the moment, or leave. */
    method CallResume(k: nat, ready: bool)
      requires Valid() && k in calls && calls[k].Waiting?
      modifies this
      ensures Valid() && unchanged(`worker, `readyP, `settled, `active, `retired, `spawned)
      ensures if ready && worker.Some?
              then calls == old(calls)[k := Posted(lastId)] && lastId == old(lastId) + 1 && pending == old(pending) + {lastId}
                   && postedTo == old(postedTo)[lastId := worker.value]
              else calls == old(calls)[k := Leaving] && lastId == old(lastId) && pending == old(pending) && postedTo == old(postedTo)
    {
      if !ready || worker.None? {
        calls := calls[k := Leaving];
        SameNames(old(calls), calls);
        StillAwaited(old(calls), calls, pending, k);
        return;
      }
      lastId := lastId + 1;
      pending := pending + {lastId};
      postedTo := postedTo[lastId := worker.value];
      calls := calls[k := Posted(lastId)];
      PostKeepsCalls(old(calls), active, old(pending), k, lastId);
    }

    /** The `finally` of `call`: a retired build keeps no idle worker. */
    method CallLeave(k: nat)
      requires Valid() && k in calls && calls[k].Leaving?
      modifies this
      ensures Valid() && unchanged(`pending, `settled, `lastId, `postedTo, `retired, `spawned)
      ensures active == old(active) - 1 && calls == old(calls) - {k}
      ensures worker == if active == 0 && retired then None else old(worker)
    {
      OneFewer(calls, k);
      active := active - 1;
      calls := calls - {k};
      StillAwaited(old(calls), calls, pending, k);
      NothingPendingWithoutCalls(calls, pending);
      if active == 0 && retired { Stop(); }
    }

    /** Losing the worker with all that is pending keeps the handle sound. */
    method Lose()
      requires Valid()
      modifies this
      ensures Valid() && unchanged(`active, `retired, `spawned, `lastId, `postedTo)
      ensures worker == None && pending == {} && OnceMore(old(settled), settled, old(pending))
    {
      CallsSettled(calls, active, pending, pending);
      Fail();
      IdsSettled(postedTo, lastId, old(pending), old(worker), old(settled), settled, old(pending));
    }

    /** A `result` message of worker `w`, dead or alive, for a call that was posted to it. */
    method OnResult(w: nat, id: nat, crashed: bool)
      requires Valid() && id in postedTo && postedTo[id] == w
      modifies this
      ensures Valid() && unchanged(`active, `retired, `spawned, `lastId, `postedTo)
      ensures pending == if crashed && old(worker) == Some(w) then {} else old(pending) - {id}
      ensures worker == if crashed && old(worker) == Some(w) then None else old(worker)
      ensures OnceMore(old(settled), settled, old(pending) - pending)
      ensures old(worker) != Some(w) ==> unchanged(this)
    {
      var known := id in pending;
      if known { SettleResult(id); }
      if crashed && worker == Some(w) {
        label settledOne:
        Lose();
        if known { OnceMoreBoth(old(settled), old@settledOne(settled), settled, old(pending), {id}, old(pending) - {id}); }
      }
    }

    /** The first half of the message handler, for a call that is still pending. */
    method SettleResult(id: nat)
      requires Valid() && id in pending
      modifies this`pending, this`settled, this`calls
      ensures Valid() && pending == old(pending) - {id} && OnceMore(old(settled), settled, {id})
    {
      CallsSettled(calls, active, pending, {id});
      pending := pending - {id};
      Settle(id);
      IdsSettled(postedTo, lastId, old(pending), old(worker), old(settled), settled, {id});
    }

    /** An `error` event of worker `w`. */
    method OnError(w: nat)
      requires Valid() && w < spawned
      modifies this
      ensures Valid() && unchanged(`active, `retired, `spawned, `lastId, `postedTo)
      ensures if old(worker) == Some(w) then worker == None && pending == {} && OnceMore(old(settled), settled, old(pending))
              else unchanged(this)
    {
      if worker == Some(w) { Lose(); }
    }

    /** An `exit` event of worker `w`. */
    method OnExit(w: nat, code: int)
      requires Valid() && w < spawned
      modifies this
      ensures Valid() && unchanged(`active, `retired, `spawned, `lastId, `postedTo)
      ensures if code != 0 && old(worker) == Some(w) then worker == None && pending == {} && OnceMore(old(settled), settled, old(pending))
              else unchanged(this)
    {
      if code != 0 && worker == Some(w) { Lose(); }
    }

    /** The timer of a pending call: the hung worker goes, and every call with it; its own call is rejected last. */
    method OnTimeout(id: nat)
      requires Valid() && id in pending
      modifies this
      ensures Valid() && unchanged(`active, `retired, `spawned, `lastId, `postedTo)
      ensures worker == None && pending == {} && OnceMore(old(settled), settled, old(pending))
    {
      CallsSettled(calls, active, pending, pending);
      FailThenReject(id);
      IdsSettled(postedTo, lastId, old(pending), old(worker), old(settled), settled, old(pending));
    }

    /** The body of the timer callback. */
    method FailThenReject(id: nat)
      requires id in pending
      modifies this`worker, this`readyP, this`pending, this`settled, this`calls
      ensures worker == None && readyP == None && pending == {}
      ensures OnceMore(old(settled), settled, old(pending)) && calls == Settling(old(calls), old(pending))
    {
      SettlingBoth(calls, pending - {id}, {id}, pending);
      pending := pending - {id};
      Fail();
      label failed:
      Settle(id);
      OnceMoreBoth(old(settled), old@failed(settled), settled, old(pending), old(pending) - {id}, {id});
    }
  }

  ghost predicate Awaited(calls: map<nat, Call>, id: nat) { exists k :: k in calls && calls[k] == Posted(id) }

  /** Touching a call that awaits nothing in `pending` leaves the others awaited. */
  lemma StillAwaited(calls: map<nat, Call>, calls': map<nat, Call>, pending: set<nat>, k: nat)
    requires forall id :: id in pending ==> Awaited(calls, id)
    requires k in calls ==> !calls[k].Posted?
    requires forall j :: j in calls && j != k ==> j in calls' && calls'[j] == calls[j]
    ensures forall id :: id in pending ==> Awaited(calls', id)
  {
    forall id | id in pending ensures Awaited(calls', id) {
      var j :| j in calls && calls[j] == Posted(id);
      assert calls'[j] == Posted(id);
    }
  }

  lemma PostKeepsCalls(calls: map<nat, Call>, active: nat, pending: set<nat>, k: nat, id: nat)
    requires CallsSound(calls, active, pending) && k in calls && calls[k].Waiting?
    ensures CallsSound(calls[k := Posted(id)], active, pending + {id})
  {
    var calls' := calls[k := Posted(id)];
    SameNames(calls, calls');
    StillAwaited(calls, calls', pending, k);
    assert calls'[k] == Posted(id) && Awaited(calls', id);
  }

  lemma SameNames(calls: map<nat, Call>, calls': map<nat, Call>)
    requires calls.Keys == calls'.Keys
    ensures |calls| == |calls'|
  {
    assert |calls| == |calls.Keys| && |calls'| == |calls'.Keys|;
  }

  lemma OneFewer(calls: map<nat, Call>, k: nat)
    requires k in calls
    ensures |calls - {k}| == |calls| - 1
  {
    assert (calls - {k}).Keys == calls.Keys - {k};
    assert |calls| == |calls.Keys| && |calls - {k}| == |(calls - {k}).Keys|;
  }

  lemma NothingPendingWithoutCalls(calls: map<nat, Call>, pending: set<nat>)
    requires forall id :: id in pending ==> Awaited(calls, id)
    ensures |calls| == 0 ==> pending == {}
  {
  }

  lemma SettlingBoth(calls: map<nat, Call>, a: set<nat>, b: set<nat>, all: set<nat>)
    requires a + b == all
    ensures Settling(Settling(calls, a), b) == Settling(calls, all)
  {
  }

  lemma OnceMoreBoth(first: multiset<nat>, then_: multiset<nat>, last: multiset<nat>, all: set<nat>, a: set<nat>, b: set<nat>)
    requires OnceMore(first, then_, a) && OnceMore(then_, last, b) && a !! b && a + b == all
    ensures OnceMore(first, last, all)
  {
  }

  /** Settling pending ids once leaves every id pending or settled once; the worker may go with the last of them. */
  lemma IdsSettled(postedTo: map<nat, nat>, issued: nat, pending: set<nat>, worker: Option<nat>, settled: multiset<nat>,
                   settled': multiset<nat>, ids: set<nat>)
    requires IdsSound(postedTo, issued, pending, worker, settled) && OnceMore(settled, settled', ids) && ids <= pending
    ensures IdsSound(postedTo, issued, pending - ids, worker, settled')
    ensures ids == pending ==> IdsSound(postedTo, issued, {}, None, settled')
  {
  }

  /** After settling `ids`, what is still pending is what the calls still await. */
  lemma CallsSettled(calls: map<nat, Call>, active: nat, pending: set<nat>, ids: set<nat>)
    requires CallsSound(calls, active, pending)
    ensures CallsSound(Settling(calls, ids), active, pending - ids)
    ensures ids == pending ==> CallsSound(Settling(calls, ids), active, {})
  {
    forall id | id in pending - ids ensures Awaited(Settling(calls, ids), id) {
      assert Awaited(calls, id);
      var k :| k in calls && calls[k] == Posted(id);
      assert Settling(calls, ids)[k] == Posted(id);
    }
  }

  // -------------------------------------------------------------------- whole lives

  /** An event that can happen: timers of settled calls are cleared, and workers answer only what they were asked. */
  predicate Possible(h: WasmWorkerHandler, e: Event)
    reads h
  {
    match e
    case Enter(k) => k !in h.calls
    case Resume(k, _) => k in h.calls && h.calls[k].Waiting?
    case Leave(k) => k in h.calls && h.calls[k].Leaving?
    case Result(w, id, _) => id in h.postedTo && h.postedTo[id] == w
    case Error(w) => w < h.spawned
    case Exit(w, _) => w < h.spawned
    case Timeout(id) => id in h.pending
    case Retire => true
  }

  /**
   * A handle through any sequence of events. Every call that was posted is pending or has been settled exactly
   * once, all that is pending is at the current worker, and once no call is left a retired handle has no worker.
   */
  method Live(events: seq<Event>) returns (h: WasmWorkerHandler)
    ensures fresh(h) && h.Valid()
    ensures h.calls == map[] ==> h.pending == {} && forall id :: 1 <= id <= h.lastId ==> h.settled[id] == 1
    ensures h.calls == map[] && h.retired ==> h.worker == None
  {
    h := new WasmWorkerHandler();
    for n := 0 to |events|
      invariant fresh(h) && h.Valid()
    {
      if Possible(h, events[n]) {
        match events[n]
        case Enter(k) => h.CallEnter(k);
        case Resume(k, ready) => h.CallResume(k, ready);
        case Leave(k) => h.CallLeave(k);
        case Result(w, id, crashed) => h.OnResult(w, id, crashed);
        case Error(w) => h.OnError(w);
        case Exit(w, code) => h.OnExit(w, code);
        case Timeout(id) => h.OnTimeout(id);
        case Retire => h.Retire();
      }
    }
    NothingPendingWithoutCalls(h.calls, h.pending);
  }
}
