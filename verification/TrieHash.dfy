/** Building the trie of a sorted map in one pass, without a store. */
module TrieHash {
  import opened Nibbles
  import opened MerkleTrie
  import opened TrieDelete
  import opened TrieCanonical
  import opened TrieCodec

  /** A map as its iterators see it: keys in order, values present. */
  ghost predicate Sorted(s: seq<Pair>) {
    && (forall i, j {:trigger Less(s[i].key, s[j].key)} | 0 <= i < j < |s| :: Less(s[i].key, s[j].key))
    && forall i | 0 <= i < |s| :: s[i].value != []
  }

  /** The keys in [b, e) all begin with p. */
  ghost predicate Under(s: seq<Pair>, b: nat, e: nat, p: Path) {
    b <= e <= |s| && forall i | b <= i < e :: p <= s[i].key
  }

  /** t holds exactly the pairs of [b, e), with p taken off the keys. */
  ghost predicate Holds(t: Trie, s: seq<Pair>, b: nat, e: nat, p: Path)
    requires Wf(t) && Under(s, b, e, p)
  {
    && (forall i | b <= i < e :: Lookup(t, s[i].key[|p|..]) == s[i].value)
    && (forall k | Stored(t, k) :: exists i | b <= i < e :: s[i].key[|p|..] == k)
  }

  /** Among keys that begin with p, nibbles after p ascend, and only the first can end with p. */
  lemma InOrder(s: seq<Pair>, b: nat, e: nat, p: Path, i: nat, j: nat)
    requires Sorted(s) && Under(s, b, e, p) && b <= i < j < e
    ensures |s[j].key| > |p|
    ensures |s[i].key| > |p| ==> s[i].key[|p|] <= s[j].key[|p|]
    ensures Shared(s[i].key, s[j].key) >= |p|
    ensures Shared(s[i].key, s[j].key) == |p| ==> |s[i].key| == |p| || s[i].key[|p|] < s[j].key[|p|]
  {
    var x, y := s[i].key, s[j].key;
    assert Less(x, y);
    var n := Shared(x, y);
    SharedSpec(x, y);
    assert p == x[..|p|] == y[..|p|];
    if n > |p| { assert x[..n][|p|] == y[..n][|p|]; }
  }

  /** Nibbles shared by two keys that agree up to `start`, looking no further than x. */
  method SharedUpTo(first: Path, key: Path, start: nat, x: nat) returns (n: nat)
    requires start <= Shared(first, key) && start <= x <= |first| && x <= |key|
    ensures n == if Shared(first, key) < x then Shared(first, key) else x
  {
    n := start;
    SharedIsLongest(first, key, n);
    while n < x && first[n] == key[n]
      invariant start <= n <= x && n <= Shared(first, key)
      invariant n < Shared(first, key) ==> first[n] == key[n]
    {
      SharedIsLongest(first, key, n);
      n := n + 1;
      SharedIsLongest(first, key, n);
    }
  }

  /** The scan for the prefix shared with the first key. The start value stands for the largest
      unsigned number. */
  method SharedPrefix(s: seq<Pair>, b: nat, e: nat, preLen: nat, ghost p: Path) returns (m: nat)
    requires Sorted(s) && Under(s, b, e, p) && preLen == |p| && b + 1 < e
    ensures preLen <= m && forall i | b < i < e :: Shared(s[b].key, s[i].key) >= m
    ensures exists i | b < i < e :: Shared(s[b].key, s[i].key) == m
  {
    var first := s[b].key;
    ghost var at := b + 1;
    var i := b + 1;
    m := |first| + 1;
    while i < e && m > 0
      invariant b < i <= e && b < at < e && preLen <= m
      invariant if i == b + 1 then m == |first| + 1 else m == Shared(first, s[at].key)
      invariant forall j | b < j < i :: Shared(first, s[j].key) >= m
    {
      InOrder(s, b, e, p, b, i);
      var key := s[i].key;
      var x := if m < |first| then m else |first|;
      if |key| < x { x := |key|; }
      var shared := SharedUpTo(first, key, preLen, x);
      if shared < m { m := shared; at := i; }
      i := i + 1;
    }
  }

  /** While two strings agree, the shared prefix has not ended. */
  lemma SharedIsLongest(a: Path, b: Path, n: nat)
    requires n <= Shared(a, b)
    ensures n < |a| && n < |b| && a[n] == b[n] ==> n < Shared(a, b)
    ensures n < Shared(a, b) ==> a[n] == b[n]
  {
    SharedSpec(a, b);
    if n < Shared(a, b) { assert a[..Shared(a, b)][n] == b[..Shared(a, b)][n]; }
  }

  // -------------------------------------------------------------- one-pass build

  ghost predicate Bounded(s: seq<Pair>, bound: nat) {
    forall i | 0 <= i < |s| :: |s[i].key| <= bound
  }

  /** At least two keys, and two of them part right after p. */
  ghost predicate Parts(s: seq<Pair>, b: nat, e: nat, p: Path)
    requires Under(s, b, e, p)
  {
    exists i | b < i < e :: Shared(s[b].key, s[i].key) == |p|
  }

  method Hash256Aux(c: Codec, s: seq<Pair>, b: nat, e: nat, preLen: nat, ghost p: Path, ghost bound: nat)
    returns (r: Ref, ghost t: Trie)
    requires Sorted(s) && Under(s, b, e, p) && preLen == |p| && Bounded(s, bound) && b < e && c.Sound()
    ensures Wf(t) && Normal(t) && r == RefOf(c, t) && Holds(t, s, b, e, p) && !t.Nil?
    ensures Parts(s, b, e, p) ==> t.Branch?
    decreases bound - |p|, 1, 0
  {
    var n;
    n, t := Hash256Rlp(c, s, b, e, preLen, p, bound);
    if c.size(n) < 32 {
      r := Inline(n);
    } else {
      r := Hashed(c.sha3(n));
    }
  }

  method Hash256Rlp(c: Codec, s: seq<Pair>, b: nat, e: nat, preLen: nat, ghost p: Path, ghost bound: nat)
    returns (n: Rlp, ghost t: Trie)
    requires Sorted(s) && Under(s, b, e, p) && preLen == |p| && Bounded(s, bound) && c.Sound()
    ensures Wf(t) && Normal(t) && n == Enc(c, t) && Holds(t, s, b, e, p) && (t.Nil? <==> b == e)
    ensures Parts(s, b, e, p) ==> t.Branch?
    decreases bound - |p|, 0, 9
  {
    if b == e {
      n, t := RNull, Nil;
    } else if b + 1 == e {
      n := RLeaf(s[b].key[preLen..], s[b].value);
      t := Leaf(s[b].key[preLen..], s[b].value);
    } else {
      var m := SharedPrefix(s, b, e, preLen, p);
      if m > preLen {
        var first := s[b].key;
        ghost var q := first[..m];
        forall i | b <= i < e ensures q <= s[i].key {
          SharedSpec(first, s[i].key);
          if i > b { assert s[i].key[..m] == s[i].key[..Shared(first, s[i].key)][..m]; }
        }
        var path := first[preLen..m];
        var r;
        ghost var child;
        r, child := Hash256Aux(c, s, b, e, m, q, bound);
        n, t := RExt(path, r), Ext(path, child);
        LongerPrefix(child, s, b, e, p, q);
      } else {
        n, t := HashBranch(c, s, b, e, preLen, p, bound);
      }
    }
  }

  /** An extension over what holds the pairs with a longer prefix taken off. */
  lemma LongerPrefix(child: Trie, s: seq<Pair>, b: nat, e: nat, p: Path, q: Path)
    requires Under(s, b, e, p) && Under(s, b, e, q) && p <= q && |p| < |q| && b < e
    requires Wf(child) && child.Branch? && Holds(child, s, b, e, q)
    ensures Holds(Ext(q[|p|..], child), s, b, e, p)
  {
    var path := q[|p|..];
    var t := Ext(path, child);
    forall i | b <= i < e ensures Lookup(t, s[i].key[|p|..]) == s[i].value {
      Strip(p, q, s[i].key);
    }
    forall k | Stored(t, k) ensures exists i | b <= i < e :: s[i].key[|p|..] == k {
      assert Stored(child, k[|path|..]);
      var i :| b <= i < e && s[i].key[|q|..] == k[|path|..];
      Strip(p, q, s[i].key);
      assert k == path + k[|path|..];
    }
  }

  /** Taking off p and then the rest of q is taking off q. */
  lemma Strip(p: Path, q: Path, k: Path)
    requires p <= q <= k
    ensures q[|p|..] <= k[|p|..] && k[|p|..][|q| - |p|..] == k[|q|..]
    ensures k[|p|..] == q[|p|..] + k[|q|..]
  {
    assert q == p + q[|p|..];
    PrefixSplit(p, q[|p|..], k);
  }

  /** The pairs of [b, e) whose key goes on with nibble j after p. */
  ghost predicate KidHolds(kid: Trie, s: seq<Pair>, b: nat, e: nat, p: Path, j: nat)
    requires Wf(kid) && Under(s, b, e, p)
  {
    && (forall i | b <= i < e && |s[i].key| > |p| && s[i].key[|p|] == j ::
          Lookup(kid, s[i].key[|p| + 1..]) == s[i].value)
    && (forall k | Stored(kid, k) ::
          exists i | b <= i < e && |s[i].key| > |p| && s[i].key[|p|] == j :: s[i].key[|p| + 1..] == k)
  }

  method EndOfRun(s: seq<Pair>, b: nat, lo: nat, e: nat, preLen: nat, j: nat, ghost p: Path) returns (hi: nat)
    requires Sorted(s) && Under(s, b, e, p) && preLen == |p| && b <= lo <= e
    requires forall i | lo <= i < e :: |s[i].key| > |p| && s[i].key[|p|] >= j
    ensures lo <= hi <= e && forall i | lo <= i < hi :: s[i].key[|p|] == j
    ensures forall i | hi <= i < e :: s[i].key[|p|] > j
  {
    hi := lo;
    while hi < e && s[hi].key[preLen] == j
      invariant lo <= hi <= e
      invariant forall i | lo <= i < hi :: s[i].key[|p|] == j
    {
      hi := hi + 1;
    }
    forall i | hi <= i < e ensures s[i].key[|p|] > j {
      if i > hi { InOrder(s, b, e, p, hi, i); }
    }
  }

  /** One slot of a branch: the run of keys from lo that go on with nibble j. */
  method HashSlot(c: Codec, s: seq<Pair>, b: nat, lo: nat, e: nat, preLen: nat, j: nat, ghost p: Path, ghost bound: nat)
    returns (hi: nat, r: Ref, ghost kid: Trie)
    requires Sorted(s) && Under(s, b, e, p) && preLen == |p| && Bounded(s, bound) && c.Sound() && j < 16
    requires b <= lo <= e
    requires forall i | b <= i < lo :: |s[i].key| == |p| || s[i].key[|p|] < j
    requires forall i | lo <= i < e :: |s[i].key| > |p| && s[i].key[|p|] >= j
    ensures lo <= hi <= e && Wf(kid) && Normal(kid) && r == RefOf(c, kid) && KidHolds(kid, s, b, e, p, j)
    ensures forall i | b <= i < hi :: |s[i].key| == |p| || s[i].key[|p|] < j + 1
    ensures forall i | hi <= i < e :: |s[i].key| > |p| && s[i].key[|p|] >= j + 1
    decreases bound - |p|, 0, 0
  {
    hi := EndOfRun(s, b, lo, e, preLen, j, p);
    if lo == hi {
      r, kid := NoRef, Nil;
    } else {
      assert |s[lo].key| <= bound;
      ghost var q: Path := p + [j];
      forall i | lo <= i < hi ensures q <= s[i].key {
        assert s[i].key[..|q|] == s[i].key[..|p|] + [s[i].key[|p|]];
      }
      r, kid := Hash256Aux(c, s, lo, hi, preLen + 1, q, bound);
    }
  }

  /** All seventeen entries of a branch. */
  method HashBranch(c: Codec, s: seq<Pair>, b: nat, e: nat, preLen: nat, ghost p: Path, ghost bound: nat)
    returns (n: Rlp, ghost t: Trie)
    requires Sorted(s) && Under(s, b, e, p) && preLen == |p| && Bounded(s, bound) && c.Sound()
    requires b + 1 < e && Parts(s, b, e, p)
    ensures Wf(t) && Normal(t) && n == Enc(c, t) && Holds(t, s, b, e, p) && t.Branch?
    decreases bound - |p|, 0, 1
  {
    var ends := preLen == |s[b].key|;
    var lo := if ends then b + 1 else b;
    forall i | b < i < e ensures |s[i].key| > |p| { InOrder(s, b, e, p, b, i); }
    var refs := [];
    ghost var kids: seq<Trie> := [];
    for j := 0 to 16
      invariant b <= lo <= e && |refs| == |kids| == j
      invariant forall i | b <= i < lo :: |s[i].key| == |p| || s[i].key[|p|] < j
      invariant forall i | lo <= i < e :: |s[i].key| > |p| && s[i].key[|p|] >= j
      invariant forall i | 0 <= i < j :: Wf(kids[i]) && Normal(kids[i]) && refs[i] == RefOf(c, kids[i])
      invariant forall i | 0 <= i < j :: KidHolds(kids[i], s, b, e, p, i)
    {
      var r;
      ghost var kid;
      lo, r, kid := HashSlot(c, s, b, lo, e, preLen, j, p, bound);
      refs := refs + [r];
      kids := kids + [kid];
    }
    var v := if ends then s[b].value else [];
    n := RBranch(refs, v);
    t := Branch(kids, v);
    assert Enc(c, t).refs == refs;
    BranchHolds(kids, v, s, b, e, p);
  }

  lemma BranchHolds(kids: seq<Trie>, v: Value, s: seq<Pair>, b: nat, e: nat, p: Path)
    requires Sorted(s) && Under(s, b, e, p) && b + 1 < e && Parts(s, b, e, p)
    requires |kids| == 16 && v == if |s[b].key| == |p| then s[b].value else []
    requires forall i | 0 <= i < 16 :: Wf(kids[i]) && Normal(kids[i]) && KidHolds(kids[i], s, b, e, p, i)
    ensures Normal(Branch(kids, v)) && Wf(Branch(kids, v)) && Holds(Branch(kids, v), s, b, e, p)
  {
    var t := Branch(kids, v);
    forall i | b <= i < e ensures Lookup(t, s[i].key[|p|..]) == s[i].value {
      if i > b { InOrder(s, b, e, p, b, i); }
      SlotHolds(kids, v, s, b, e, p, i);
    }
    forall k | Stored(t, k) ensures exists i | b <= i < e :: s[i].key[|p|..] == k {
      var i := SlotKeyOf(kids, v, s, b, e, p, k);
    }
    var i :| b < i < e && Shared(s[b].key, s[i].key) == |p|;
    InOrder(s, b, e, p, b, i);
    SlotHolds(kids, v, s, b, e, p, i);
    SlotHolds(kids, v, s, b, e, p, b);
    var x, y := if |s[b].key| == |p| then 16 else s[b].key[|p|], s[i].key[|p|];
    assert Used(kids, v, if x < y then x else y) && Used(kids, v, if x < y then y else x);
  }

  lemma SlotHolds(kids: seq<Trie>, v: Value, s: seq<Pair>, b: nat, e: nat, p: Path, i: nat)
    requires Under(s, b, e, p) && b <= i < e && (|s[i].key| > |p| || i == b) && s[i].value != []
    requires |kids| == 16 && v == if |s[b].key| == |p| then s[b].value else []
    requires forall i | 0 <= i < 16 :: Wf(kids[i]) && Normal(kids[i]) && KidHolds(kids[i], s, b, e, p, i)
    ensures Lookup(Branch(kids, v), s[i].key[|p|..]) == s[i].value
    ensures |s[i].key| > |p| ==> Used(kids, v, s[i].key[|p|])
  {
    var key := s[i].key;
    if |key| > |p| {
      assert key[|p|..][0] == key[|p|] && key[|p|..][1..] == key[|p| + 1..];
    }
  }

  lemma HeadTail(k: Path, n: nat)
    requires n < |k|
    ensures k[n..] == [k[n]] + k[n + 1..] && k[0..] == k
  {
  }

  lemma SlotKeyOf(kids: seq<Trie>, v: Value, s: seq<Pair>, b: nat, e: nat, p: Path, k: Path) returns (i: nat)
    requires Under(s, b, e, p) && b < e
    requires |kids| == 16 && v == if |s[b].key| == |p| then s[b].value else []
    requires forall i | 0 <= i < 16 :: Wf(kids[i]) && Normal(kids[i]) && KidHolds(kids[i], s, b, e, p, i)
    requires Stored(Branch(kids, v), k)
    ensures b <= i < e && s[i].key[|p|..] == k
  {
    if k == [] {
      i := b;
    } else {
      assert Stored(kids[k[0]], k[1..]);
      i :| b <= i < e && |s[i].key| > |p| && s[i].key[|p|] == k[0] && s[i].key[|p| + 1..] == k[1..];
      HeadTail(s[i].key, |p|);
      HeadTail(k, 0);
    }
  }

  // ------------------------------------------------------------------ main result

  /** The map that a trie stands for is the map whose pairs are s. */
  ghost predicate SamePairs(t: Trie, s: seq<Pair>)
    requires Wf(t)
  {
    && (forall i | 0 <= i < |s| :: Lookup(t, s[i].key) == s[i].value)
    && (forall k | Stored(t, k) :: exists i | 0 <= i < |s| :: s[i].key == k)
  }

  lemma SamePairsIsSameMap(a: Trie, b: Trie, s: seq<Pair>)
    requires Wf(a) && Wf(b) && SamePairs(a, s) && SamePairs(b, s)
    ensures SameMap(a, b)
  {
    forall k ensures Lookup(a, k) == Lookup(b, k) {
      if Stored(a, k) || Stored(b, k) {
        var i :| 0 <= i < |s| && s[i].key == k;
      }
    }
  }

  /** The root built directly from a map is the encoding of every normal-form trie of that map:
      the trie that any inserts and removes arrive at has this root. */
  method Rlp256(c: Codec, s: seq<Pair>, ghost bound: nat) returns (n: Rlp)
    requires Sorted(s) && Bounded(s, bound) && c.Sound()
    ensures forall t :: Wf(t) && Normal(t) && SamePairs(t, s) ==> n == Enc(c, t)
    ensures exists t :: Wf(t) && Normal(t) && SamePairs(t, s) && n == Enc(c, t)
  {
    ghost var u;
    n, u := Hash256Rlp(c, s, 0, |s|, 0, [], bound);
    assert SamePairs(u, s);
    forall t | Wf(t) && Normal(t) && SamePairs(t, s) ensures n == Enc(c, t) {
      SamePairsIsSameMap(t, u, s);
      Canonical(t, u);
    }
  }

  method Hash256(c: Codec, s: seq<Pair>, ghost bound: nat) returns (h: Hash)
    requires Sorted(s) && Bounded(s, bound) && c.Sound()
    ensures forall t :: Wf(t) && Normal(t) && SamePairs(t, s) ==> h == c.sha3(Enc(c, t))
  {
    var n := Rlp256(c, s, bound);
    h := c.sha3(n);
  }
}
