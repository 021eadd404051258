/** A whole life of the store-backed trie, from an empty store on. */
module TrieStore {
  import opened Basics
  import opened Nibbles
  import opened MerkleTrie
  import opened TrieDelete
  import opened TrieCodec
  import opened OverlayDB
  import opened TrieDB
  import opened TrieHash
  import opened TrieRuns

  /** s is the map m in order. */
  ghost predicate Lists(s: seq<Pair>, m: map<Path, Value>) {
    && Sorted(s)
    && (forall i | 0 <= i < |s| :: s[i].key in m && m[s[i].key] == s[i].value)
    && forall k | k in m :: exists i | 0 <= i < |s| :: s[i].key == k
  }

  /** After any run of inserts and safe removes from `init()` on an empty memory store: the store counts every node as
      often as it occurs in the trie, the scan finds nothing lost and nothing left over, and the root is what the
      one-pass construction makes of the resulting map. */
  method Life(c: Codec, ops: seq<Op>, s: seq<Pair>, ghost bound: nat) returns (t: GenericTrieDB, h: Hash)
    requires c.Sound() && AllowedRun(Nil, ops)
    requires Lists(s, MapRun(map[], ops)) && Bounded(s, bound)
    ensures fresh(t) && fresh(t.db) && t.c == c && t.Valid() && t.trie == Run(Nil, ops) && t.db.disk.None?
    ensures forall x :: t.db.Refs(x) == RootRefs(c, t.trie)[x]
    ensures h == t.root
  {
    t := FromEmpty(c);
    Play(t, ops);
    var clean := t.Check(true);
    assert clean;
    h := Hash256(c, s, bound);
    RunHolds(ops, s);
    forall x ensures t.db.Refs(x) == RootRefs(c, t.trie)[x] {
      assert !t.db.OnDisk(x);
    }
  }

  method FromEmpty(c: Codec) returns (t: GenericTrieDB)
    requires c.Sound()
    ensures fresh(t) && fresh(t.db) && t.c == c && t.Valid() && t.trie == Nil
    ensures t.others == multiset{} && t.db.disk.None?
  {
    var db := new Overlay(None);
    t := new GenericTrieDB(db, c);
    t.Init();
  }

  method Play(t: GenericTrieDB, ops: seq<Op>)
    requires t.Valid() && AllowedRun(t.trie, ops)
    modifies t`root, t`trie, t.db`main
    ensures t.Valid() && t.trie == Run(old(t.trie), ops)
  {
    var k := 0;
    ghost var all := Run(t.trie, ops);
    while k < |ops|
      invariant k <= |ops| && t.Valid()
      invariant AllowedRun(t.trie, ops[k..]) && Run(t.trie, ops[k..]) == all
    {
      assert ops[k..][0] == ops[k] && ops[k..][1..] == ops[k + 1..];
      PlayOne(t, ops[k]);
      k := k + 1;
    }
  }

  method PlayOne(t: GenericTrieDB, op: Op)
    requires t.Valid() && Allowed(t.trie, op)
    modifies t`root, t`trie, t.db`main
    ensures t.Valid() && t.trie == Step(old(t.trie), op)
  {
    match op {
      case Put(k, v) =>
        t.Insert(k, v);
      case Del(k) =>
        DeleteLookup(t.trie, k, k);
        t.Remove(k);
    }
  }

  /** The trie that a run arrives at holds the pairs of the map that the run arrives at. */
  lemma RunHolds(ops: seq<Op>, s: seq<Pair>)
    requires AllowedRun(Nil, ops) && Lists(s, MapRun(map[], ops))
    ensures SamePairs(Run(Nil, ops), s)
  {
    var m := MapRun(map[], ops);
    RunRefines(Nil, map[], ops);
    var t := Run(Nil, ops);
    forall k | Stored(t, k) ensures exists i | 0 <= i < |s| :: s[i].key == k {
      assert k in m;
    }
  }
}
