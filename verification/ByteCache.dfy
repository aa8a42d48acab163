/** The byte-bounded cache of derived data (apps/api/src/fhr/byte-cache.ts), least recently used first out. */
module ByteCache {
  import opened Wrappers
  import opened OrderedMaps

  /** A cached value: its bytes, and whatever else belongs to it. */
  datatype Value = Value(bytes: seq<bv8>, media: string)

  type Entries = OrderedMap<string, Value>

  function Total(m: Entries): nat { if m == [] then 0 else |m[0].1.bytes| + Total(m[1..]) }

  lemma {:induction false} TotalAppend(a: Entries, b: Entries)
    ensures Total(a + b) == Total(a) + Total(b)
  {
    if a == [] {
      assert a + b == b;
    } else {
      assert (a + b)[1..] == a[1..] + b;
      TotalAppend(a[1..], b);
    }
  }

  // -------------------------------------------------------------------- what each call does

  /** `m` with the entry of `key` last, where a fresh insertion goes. */
  function Renewed(m: Entries, key: string, value: Value): Entries { Delete(m, key) + [(key, value)] }

  function AfterGet(m: Entries, key: string): Entries {
    match Get(m, key)
    case None => m
    case Some(v) => Renewed(m, key, v)
  }

  /** How many entries go from the front until the rest fits. */
  function Surplus(m: Entries, budget: nat): (n: nat)
    ensures n <= |m| && Total(m[n..]) <= budget
    ensures n > 0 ==> Total(m[n - 1..]) > budget
  {
    if Total(m) <= budget then 0
    else
      var n := Surplus(m[1..], budget);
      assert m[1..][n..] == m[n + 1..] && (n > 0 ==> m[1..][n - 1..] == m[n..]) && m[0..] == m;
      1 + n
  }

  function AfterSet(m: Entries, budget: nat, key: string, value: Value): Entries {
    if |value.bytes| > budget then m
    else
      var renewed := Renewed(m, key, value);
      renewed[Surplus(renewed, budget)..]
  }

  /** A set drops the shortest prefix that suffices, and never the entry it has just stored. */
  lemma SetEvictsShortestPrefix(m: Entries, budget: nat, key: string, value: Value, n: nat)
    requires |value.bytes| <= budget
    ensures var renewed := Renewed(m, key, value);
            var after := AfterSet(m, budget, key, value);
            && Total(after) <= budget && after != [] && after[|after| - 1] == (key, value)
            && (n < |renewed| - |after| ==> Total(renewed[n..]) > budget)
  {
    var renewed := Renewed(m, key, value);
    var surplus := Surplus(renewed, budget);
    assert Total(renewed[|renewed| - 1..]) == |value.bytes| by {
      assert renewed[|renewed| - 1..] == [(key, value)] && [(key, value)][1..] == [];
    }
    if n < surplus {
      assert renewed[n..] == renewed[n..surplus - 1] + renewed[surplus - 1..];
      TotalAppend(renewed[n..surplus - 1], renewed[surplus - 1..]);
    }
  }

  /** A read, and a value over the budget, keep every entry; storing a value keeps those of the other keys until some must go. */
  lemma OthersStay(m: Entries, budget: nat, key: string, value: Value, e: (string, Value))
    requires Functional(m)
    ensures e in AfterGet(m, key) <==> e in m
    ensures |value.bytes| > budget ==> AfterSet(m, budget, key, value) == m
    ensures e in Renewed(m, key, value) <==> e == (key, value) || (e in m && e.0 != key)
  {
    DeletedIsWithout(m, key);
    var rest := Delete(m, key);
    if Get(m, key).Some? {
      var k := DeletePresent(m, key);
      assert m == m[..k] + [m[k]] + m[k + 1..];
      assert e in rest <==> e in m && e.0 != key by {
        assert forall j :: 0 <= j < |m| && j != k ==> m[j].0 != key;
        if e in rest { var j :| 0 <= j < |rest| && rest[j] == e; }
      }
    } else {
      DeleteAbsent(m, key);
    }
  }

  lemma {:induction false} TotalSuffix(m: Entries, i: nat, j: nat)
    requires i <= j <= |m|
    ensures Total(m[j..]) <= Total(m[i..])
  {
    assert m[i..] == m[i..j] + m[j..];
    TotalAppend(m[i..j], m[j..]);
  }

  lemma SurplusCuts(m: Entries, budget: nat, i: nat)
    requires i <= |m|
    ensures i >= Surplus(m, budget) <==> Total(m[i..]) <= budget
  {
    hide Total;
    var n := Surplus(m, budget);
    if i < n { TotalSuffix(m, i, n - 1); } else { TotalSuffix(m, n, i); }
  }

  lemma SuffixHas(m: Entries, n: nat, i: nat)
    requires Functional(m) && n <= |m| && i < |m|
    ensures m[i] in m[n..] <==> i >= n
  {
    if i >= n { assert m[n..][i - n] == m[i]; }
    if m[i] in m[n..] {
      var j :| 0 <= j < |m| - n && m[n..][j] == m[i];
      assert m[n + j].0 == m[i].0;
    }
  }

  /** An entry is kept by a set exactly when it and all those used after it fit into the budget together. */
  lemma SetKeepsWhatFits(m: Entries, budget: nat, key: string, value: Value, i: nat)
    requires Functional(m) && |value.bytes| <= budget && i < |Renewed(m, key, value)|
    ensures var renewed := Renewed(m, key, value);
      renewed[i] in AfterSet(m, budget, key, value) <==> Total(renewed[i..]) <= budget
  {
    hide Renewed, Functional, Total;
    RenewKeeps(m, key, value);
    SurplusCuts(Renewed(m, key, value), budget, i);
    SuffixHas(Renewed(m, key, value), Surplus(Renewed(m, key, value), budget), i);
  }

  class Cache {
    const budget: nat
    var entries: Entries
    var bytes: int

    constructor (budget: nat)
      ensures Valid() && this.budget == budget && entries == []
    {
      this.budget, entries, bytes := budget, [], 0;
    }

    ghost predicate Valid()
      reads this
    {
      Functional(entries) && bytes == Total(entries) && bytes <= budget
    }

    method Get(key: string) returns (hit: Option<Value>)
      requires Valid()
      modifies this`entries
      ensures Valid() && entries == AfterGet(old(entries), key)
      ensures hit == OrderedMaps.Get(old(entries), key)
    {
      hit := OrderedMaps.Get(entries, key);
      if hit.Some? {
        RenewKeeps(entries, key, hit.value);
        entries := Delete(entries, key);
        entries := Put(entries, key, hit.value);
      }
    }

    method Set(key: string, value: Value)
      requires Valid()
      modifies this`entries, this`bytes
      ensures Valid() && entries == AfterSet(old(entries), budget, key, value)
    {
      if |value.bytes| > budget { return; }
      Insert(key, value);
      Evict();
    }

    /** The first half of `set`: the entry goes last, and replaces one of the same key. */
    method Insert(key: string, value: Value)
      requires Valid()
      modifies this`entries, this`bytes
      ensures entries == Renewed(old(entries), key, value) && Functional(entries) && bytes == Total(entries)
    {
      RenewKeeps(entries, key, value);
      var was := OrderedMaps.Get(entries, key);
      if was.Some? {
        entries := Delete(entries, key);
        bytes := bytes - |was.value.bytes|;
      } else {
        DeleteAbsent(entries, key);
      }
      entries := Put(entries, key, value);
      bytes := bytes + |value.bytes|;
    }

    /** The second half: entries go from the front until the rest fits. */
    method Evict()
      requires Functional(entries) && bytes == Total(entries)
      modifies this`entries, this`bytes
      ensures Valid() && entries == old(entries)[Surplus(old(entries), budget)..]
    {
      var all := entries;
      for n := 0 to |all|
        invariant Functional(entries) && entries == all[n..] && bytes == Total(entries) && n + Surplus(entries, budget) == Surplus(all, budget)
      {
        if bytes <= budget { break; }
        var (k, v) := all[n];
        EvictOne(entries, budget);
        assert entries[0] == all[n] && entries[1..] == all[n + 1..];
        entries := Delete(entries, k);
        bytes := bytes - |v.bytes|;
      }
    }

    method Clear()
      modifies this`entries, this`bytes
      ensures Valid() && entries == []
    {
      entries := [];
      bytes := 0;
    }
  }

  predicate WithoutKey(m: Entries, key: string) { forall k :: 0 <= k < |m| ==> m[k].0 != key }

  lemma DeletedIsWithout(m: Entries, key: string)
    requires Functional(m)
    ensures Functional(Delete(m, key)) && WithoutKey(Delete(m, key), key) && key !in KeysOf(Delete(m, key))
  {
    var rest := Delete(m, key);
    GetDelete(m, key, key);
    GetAbsent(rest, key);
    forall k | 0 <= k < |rest| ensures rest[k].0 != key { assert KeysOf(rest)[k] == rest[k].0; }
  }

  lemma {:induction false} TotalDelete(m: Entries, key: string)
    ensures Total(Delete(m, key)) == Total(m) - if Get(m, key).Some? then |Get(m, key).value.bytes| else 0
  {
    if m != [] && m[0].0 != key {
      TotalDelete(m[1..], key);
      assert ([m[0]] + Delete(m[1..], key))[1..] == Delete(m[1..], key);
    }
  }

  /** Putting a deleted or new key last keeps one entry a key, and the total is the sum. */
  lemma RenewKeeps(m: Entries, key: string, value: Value)
    requires Functional(m)
    ensures Put(Delete(m, key), key, value) == Renewed(m, key, value) && Functional(Renewed(m, key, value))
    ensures Total(Renewed(m, key, value)) == Total(Delete(m, key)) + |value.bytes|
    ensures Total(Delete(m, key)) == Total(m) - if Get(m, key).Some? then |Get(m, key).value.bytes| else 0
  {
    DeletedIsWithout(m, key);
    PutNew(Delete(m, key), key, value);
    TotalDelete(m, key);
    TotalAppend(Delete(m, key), [(key, value)]);
    assert [(key, value)][1..] == [];
  }

  /** One turn of the eviction. */
  lemma EvictOne(m: Entries, budget: nat)
    requires m != [] && Functional(m)
    ensures Delete(m, m[0].0) == m[1..] && Functional(m[1..]) && Total(m[1..]) == Total(m) - |m[0].1.bytes|
    ensures Total(m) > budget ==> Surplus(m, budget) == 1 + Surplus(m[1..], budget)
  {
  }

  // --------------------------------------------------------------------- whole histories

  datatype Op = GetOp(key: string) | SetOp(key: string, value: Value) | ClearOp

  function After(m: Entries, budget: nat, op: Op): Entries {
    match op
    case GetOp(key) => AfterGet(m, key)
    case SetOp(key, value) => AfterSet(m, budget, key, value)
    case ClearOp => []
  }

  function Run(budget: nat, ops: seq<Op>): Entries {
    if ops == [] then [] else After(Run(budget, ops[..|ops| - 1]), budget, ops[|ops| - 1])
  }

  /** The last value stored under the key since the cache was cleared; a value over the budget is not stored. */
  function LastStored(budget: nat, ops: seq<Op>, key: string): Option<Value> {
    if ops == [] then None
    else
      var op := ops[|ops| - 1];
      if op == ClearOp then None
      else if op.SetOp? && op.key == key && |op.value.bytes| <= budget then Some(op.value)
      else LastStored(budget, ops[..|ops| - 1], key)
  }

  predicate Uses(budget: nat, op: Op, key: string) {
    (op.GetOp? && op.key == key) || (op.SetOp? && op.key == key && |op.value.bytes| <= budget)
  }

  /** When the key was last read or stored: the number of calls up to then. */
  function LastUse(budget: nat, ops: seq<Op>, key: string): (n: nat)
    ensures n <= |ops|
  {
    if ops == [] then 0
    else if Uses(budget, ops[|ops| - 1], key) then |ops|
    else LastUse(budget, ops[..|ops| - 1], key)
  }

  predicate InOrderOfUse(m: Entries, budget: nat, ops: seq<Op>) {
    forall j, k :: 0 <= j < k < |m| ==> LastUse(budget, ops, m[j].0) < LastUse(budget, ops, m[k].0)
  }

  /** Every value in the cache is the last one stored under its key. */
  predicate Current(m: Entries, budget: nat, ops: seq<Op>) {
    forall k :: 0 <= k < |m| ==> LastStored(budget, ops, m[k].0) == Some(m[k].1)
  }

  /** A call about one key, or about a value that is not stored, leaves what is known of the other keys. */
  lemma OthersKeep(m: Entries, budget: nat, before: seq<Op>, op: Op)
    requires Current(m, budget, before) && InOrderOfUse(m, budget, before)
    requires op.GetOp? || op.SetOp?
    requires WithoutKey(m, op.key) || (op.SetOp? && |op.value.bytes| > budget)
    ensures Current(m, budget, before + [op]) && InOrderOfUse(m, budget, before + [op])
    ensures forall k :: 0 <= k < |m| ==> LastUse(budget, before + [op], m[k].0) <= |before|
  {
    assert (before + [op])[..|before|] == before;
    forall k | 0 <= k < |m|
      ensures LastUse(budget, before + [op], m[k].0) == LastUse(budget, before, m[k].0)
      ensures LastStored(budget, before + [op], m[k].0) == LastStored(budget, before, m[k].0)
    {
      assert !Uses(budget, op, m[k].0);
    }
  }

  /** Taking out the entry of a key keeps the order and the values of the rest. */
  lemma DeleteKeeps(m: Entries, budget: nat, ops: seq<Op>, key: string)
    requires Functional(m) && Current(m, budget, ops) && InOrderOfUse(m, budget, ops)
    ensures var rest := Delete(m, key); WithoutKey(rest, key) && Current(rest, budget, ops) && InOrderOfUse(rest, budget, ops)
  {
    DeletedIsWithout(m, key);
    if Get(m, key).Some? {
      var i := DeletePresent(m, key);
    } else {
      DeleteAbsent(m, key);
    }
  }

  lemma RenewedKeeps(m: Entries, budget: nat, before: seq<Op>, op: Op, value: Value)
    requires Functional(m) && Current(m, budget, before) && InOrderOfUse(m, budget, before)
    requires (op.GetOp? && Get(m, op.key) == Some(value)) || (op.SetOp? && op.value == value && |value.bytes| <= budget)
    ensures var after := Renewed(m, op.key, value); Current(after, budget, before + [op]) && InOrderOfUse(after, budget, before + [op])
  {
    DeleteKeeps(m, budget, before, op.key);
    OthersKeep(Delete(m, op.key), budget, before, op);
    assert (before + [op])[..|before|] == before;
    assert LastUse(budget, before + [op], op.key) == |before| + 1;
    if op.GetOp? {
      var k := GetFound(m, op.key);
    }
  }

  lemma SuffixKeeps(m: Entries, n: nat, budget: nat, ops: seq<Op>)
    requires n <= |m| && Functional(m) && Current(m, budget, ops) && InOrderOfUse(m, budget, ops)
    ensures Functional(m[n..]) && Current(m[n..], budget, ops) && InOrderOfUse(m[n..], budget, ops)
  {
  }

  /** After any calls: one entry a key, within the budget, each the last value stored, least recently used first. */
  lemma {:induction false} RunKeeps(budget: nat, ops: seq<Op>)
    ensures var m := Run(budget, ops);
            Functional(m) && Total(m) <= budget && Current(m, budget, ops) && InOrderOfUse(m, budget, ops)
  {
    if ops != [] {
      RunKeeps(budget, ops[..|ops| - 1]);
      assert ops == ops[..|ops| - 1] + [ops[|ops| - 1]];
      CallKeeps(Run(budget, ops[..|ops| - 1]), budget, ops[..|ops| - 1], ops[|ops| - 1]);
    }
  }

  lemma CallKeeps(m: Entries, budget: nat, before: seq<Op>, op: Op)
    requires Functional(m) && Total(m) <= budget && Current(m, budget, before) && InOrderOfUse(m, budget, before)
    ensures var after := After(m, budget, op);
            Functional(after) && Total(after) <= budget && Current(after, budget, before + [op]) && InOrderOfUse(after, budget, before + [op])
  {
    match op
    case GetOp(key) =>
      if Get(m, key).Some? {
        RenewedKeeps(m, budget, before, op, Get(m, key).value);
        RenewKeeps(m, key, Get(m, key).value);
      } else {
        DeleteKeeps(m, budget, before, key);
        DeleteAbsent(m, key);
        OthersKeep(m, budget, before, op);
      }
    case SetOp(key, value) =>
      if |value.bytes| <= budget {
        RenewedKeeps(m, budget, before, op, value);
        RenewKeeps(m, key, value);
        SuffixKeeps(Renewed(m, key, value), Surplus(Renewed(m, key, value), budget), budget, before + [op]);
      } else {
        OthersKeep(m, budget, before, op);
      }
    case ClearOp =>
  }
}
