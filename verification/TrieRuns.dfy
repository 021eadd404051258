/** Whole runs of inserts and removes: the trie depends on the resulting map, not on the history. */
module TrieRuns {
  import opened Basics
  import opened Nibbles
  import opened MerkleTrie
  import opened TrieDelete
  import opened TrieCanonical

  datatype Op = Put(key: Path, value: Value) | Del(key: Path)

  ghost predicate Allowed(t: Trie, op: Op)
    requires Wf(t)
  {
    match op
    case Put(_, v) => v != []
    case Del(k) => Safe(t, k)
  }

  ghost function Step(t: Trie, op: Op): (r: Trie)
    requires Wf(t) && Normal(t) && Allowed(t, op)
    ensures Wf(r) && Normal(r)
  {
    match op
    case Put(k, v) => InsertNormal(t, k, v); Inserted(t, k, v)
    case Del(k) =>
      DeleteLookup(t, k, k);
      DeleteNormal(t, k);
      match Deleted(t, k)
      case None => t
      case Some(r) => r
  }

  ghost predicate AllowedRun(t: Trie, ops: seq<Op>)
    requires Wf(t) && Normal(t)
    decreases |ops|
  {
    ops == [] || (Allowed(t, ops[0]) && AllowedRun(Step(t, ops[0]), ops[1..]))
  }

  ghost function Run(t: Trie, ops: seq<Op>): (r: Trie)
    requires Wf(t) && Normal(t) && AllowedRun(t, ops)
    ensures Wf(r) && Normal(r)
    decreases |ops|
  {
    if ops == [] then t else Run(Step(t, ops[0]), ops[1..])
  }

  /** The same run on a plain map. */
  function MapStep(m: map<Path, Value>, op: Op): map<Path, Value> {
    match op
    case Put(k, v) => m[k := v]
    case Del(k) => m - {k}
  }

  function MapRun(m: map<Path, Value>, ops: seq<Op>): map<Path, Value>
    decreases |ops|
  {
    if ops == [] then m else MapRun(MapStep(m, ops[0]), ops[1..])
  }

  ghost predicate Refines(t: Trie, m: map<Path, Value>)
    requires Wf(t)
  {
    forall k :: Lookup(t, k) == if k in m then m[k] else []
  }

  lemma StepRefines(t: Trie, m: map<Path, Value>, op: Op)
    requires Wf(t) && Normal(t) && Allowed(t, op) && Refines(t, m)
    ensures Refines(Step(t, op), MapStep(m, op))
  {
    forall k ensures Lookup(Step(t, op), k) == if k in MapStep(m, op) then MapStep(m, op)[k] else [] {
      match op
      case Put(k', v) => InsertLookup(t, k', v, k);
      case Del(k') => DeleteLookup(t, k', k);
    }
  }

  /** After any run from the empty trie, lookups are those of the plain map. */
  lemma {:induction false} RunRefines(t: Trie, m: map<Path, Value>, ops: seq<Op>)
    requires Wf(t) && Normal(t) && Refines(t, m) && AllowedRun(t, ops)
    ensures Refines(Run(t, ops), MapRun(m, ops))
    decreases |ops|
  {
    if ops != [] {
      StepRefines(t, m, ops[0]);
      RunRefines(Step(t, ops[0]), MapStep(m, ops[0]), ops[1..]);
    }
  }

  /** Two runs that end in the same map end in the same trie, so in the same root. */
  lemma HistoryIndependence(a: seq<Op>, b: seq<Op>)
    requires AllowedRun(Nil, a) && AllowedRun(Nil, b) && MapRun(map[], a) == MapRun(map[], b)
    ensures Run(Nil, a) == Run(Nil, b)
  {
    RunRefines(Nil, map[], a);
    RunRefines(Nil, map[], b);
    var s, t := Run(Nil, a), Run(Nil, b);
    assert SameMap(s, t) by {
      forall k ensures Lookup(s, k) == Lookup(t, k) {}
    }
    Canonical(s, t);
  }

  /** A key not stored before, inserted and removed again, leaves no trace. */
  lemma InsertThenRemove(t: Trie, k: Path, v: Value)
    requires Wf(t) && Normal(t) && v != [] && !Stored(t, k) && Safe(Inserted(t, k, v), k)
    ensures Normal(Inserted(t, k, v)) && Deleted(Inserted(t, k, v), k) == Some(t)
  {
    InsertNormal(t, k, v);
    var u := Inserted(t, k, v);
    InsertLookup(t, k, v, k);
    DeleteLookup(u, k, k);
    DeleteNormal(u, k);
    var r := Deleted(u, k).value;
    forall q ensures Lookup(r, q) == Lookup(t, q) {
      DeleteLookup(u, k, q);
      InsertLookup(t, k, v, q);
    }
    Canonical(r, t);
  }

  // ------------------------------------------------------------ prefix-free keys

  ghost predicate PairwisePrefixFree(ops: seq<Op>) {
    forall i, j | 0 <= i < |ops| && 0 <= j < |ops| :: ops[i].key <= ops[j].key ==> ops[i].key == ops[j].key
  }

  /** Every stored key is one of these operations' keys. */
  ghost predicate KeysFrom(t: Trie, ops: seq<Op>)
    requires Wf(t)
  {
    forall k :: Stored(t, k) ==> exists i :: 0 <= i < |ops| && ops[i].key == k
  }

  /** A run over prefix-free keys never leaves the safe lines. */
  lemma {:induction false} PrefixFreeRun(t: Trie, ops: seq<Op>, i: nat)
    requires Wf(t) && Normal(t) && KeysFrom(t, ops) && PairwisePrefixFree(ops) && i <= |ops|
    requires forall j | 0 <= j < |ops| :: ops[j].Put? ==> ops[j].value != []
    ensures AllowedRun(t, ops[i..])
    decreases |ops| - i
  {
    if i < |ops| {
      var op := ops[i];
      assert PrefixFree(t, op.key) by {
        forall a, b | Stored(t, a) && Stored(t, b) && a <= b ensures a == b {
          var x, y :| 0 <= x < |ops| && ops[x].key == a && 0 <= y < |ops| && ops[y].key == b;
        }
        forall a | Stored(t, a) && (a <= op.key || op.key <= a) ensures a == op.key {
          var x :| 0 <= x < |ops| && ops[x].key == a;
        }
      }
      PrefixFreeIsSafe(t, op.key);
      var t' := Step(t, op);
      forall k | Stored(t', k) ensures exists x :: 0 <= x < |ops| && ops[x].key == k {
        match op
        case Put(k', v) => InsertLookup(t, k', v, k); assert ops[i].key == k || Stored(t, k);
        case Del(k') => DeleteLookup(t, k', k); assert Stored(t, k);
      }
      PrefixFreeRun(t', ops, i + 1);
      assert ops[i..][1..] == ops[i + 1..];
    }
  }
}
