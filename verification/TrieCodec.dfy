/** How an unfolded trie is laid out as stored nodes: small children inline, larger ones by hash. */
module TrieCodec {
  import opened Nibbles
  import opened MerkleTrie

  /** A 256-bit digest, compared only for equality. */
  datatype Hash = H256(digest: int)

  /** One item of a node's list: empty, an inlined node, or the digest of a stored one. */
  datatype Ref = NoRef | Inline(node: Rlp) | Hashed(hash: Hash)

  /** A node as the code parses it out of its RLP string. */
  datatype Rlp =
    | RNull
    | RLeaf(path: Path, value: Value)
    | RExt(path: Path, ref: Ref)
    | RBranch(refs: seq<Ref>, value: Value)
  {
    predicate TwoItem() {
      RLeaf? || RExt?
    }
  }

  /** Length of a node's encoding, its digest, and the node a digest stands for. */
  datatype Codec = Codec(size: Rlp -> nat, sha3: Rlp -> Hash, preimage: Hash -> Rlp)
  {
    /** The empty node is small, and sha3 has no collisions among nodes: it has a left inverse. */
    ghost predicate Sound() {
      size(RNull) < 32 && forall n :: preimage(sha3(n)) == n
    }
  }

  function Enc(c: Codec, t: Trie): Rlp
    decreases t, 0
  {
    match t
    case Nil => RNull
    case Leaf(p, v) => RLeaf(p, v)
    case Ext(p, k) => RExt(p, RefOf(c, k))
    case Branch(kids, v) => RBranch(seq(|kids|, i requires 0 <= i < |kids| => RefOf(c, kids[i])), v)
  }

  function RefOf(c: Codec, t: Trie): Ref
    decreases t, 1
  {
    if t.Nil? then NoRef
    else if c.size(Enc(c, t)) < 32 then Inline(Enc(c, t))
    else Hashed(c.sha3(Enc(c, t)))
  }

  /** The layout loses nothing. */
  lemma {:induction false} EncInjective(c: Codec, a: Trie, b: Trie)
    requires c.Sound()
    ensures Enc(c, a) == Enc(c, b) ==> a == b
    ensures c.sha3(Enc(c, a)) == c.sha3(Enc(c, b)) ==> a == b
    ensures RefOf(c, a) == RefOf(c, b) ==> a == b
    decreases a
  {
    if a.Ext? && b.Ext? { EncInjective(c, a.child, b.child); }
    if a.Branch? && b.Branch? && Enc(c, a) == Enc(c, b) {
      assert |a.kids| == |Enc(c, a).refs| == |b.kids|;
      forall i | 0 <= i < |a.kids| ensures a.kids[i] == b.kids[i] {
        assert RefOf(c, a.kids[i]) == Enc(c, a).refs[i] == Enc(c, b).refs[i] == RefOf(c, b.kids[i]);
        EncInjective(c, a.kids[i], b.kids[i]);
      }
    }
  }

  // ------------------------------------------------ which digests a trie refers to

  ghost function Own(c: Codec, t: Trie): multiset<Hash> {
    if c.size(Enc(c, t)) < 32 then multiset{} else multiset{c.sha3(Enc(c, t))}
  }

  /** Every occurrence of a hashed node in the unfolded trie, t's own included. */
  ghost function Occ(c: Codec, t: Trie): multiset<Hash>
    decreases t, 1
  {
    Sub(c, t) + Own(c, t)
  }

  /** The same, strictly below t. */
  ghost function Sub(c: Codec, t: Trie): multiset<Hash>
    decreases t, 0
  {
    match t
    case Nil => multiset{}
    case Leaf(_, _) => multiset{}
    case Ext(_, k) => Occ(c, k)
    case Branch(kids, _) => SubKids(c, kids)
  }

  ghost function SubKids(c: Codec, kids: seq<Trie>): multiset<Hash>
    decreases kids, 0
  {
    if kids == [] then multiset{} else Occ(c, kids[0]) + SubKids(c, kids[1..])
  }

  /** Focus on one child. */
  lemma {:induction false} SubKidsAt(c: Codec, kids: seq<Trie>, i: nat)
    requires c.Sound() && i < |kids|
    ensures SubKids(c, kids) == Occ(c, kids[i]) + SubKids(c, kids[i := Nil])
  {
    if i == 0 {
      assert kids[0 := Nil][1..] == kids[1..];
    } else {
      SubKidsAt(c, kids[1..], i - 1);
      assert kids[i := Nil][1..] == kids[1..][i - 1 := Nil];
      SumFirst(Occ(c, kids[0]), Occ(c, kids[i]), SubKids(c, kids[1..][i - 1 := Nil]));
    }
  }

  lemma SumFirst(a: multiset<Hash>, b: multiset<Hash>, rest: multiset<Hash>)
    ensures a + (b + rest) == b + (a + rest)
  {
  }

  lemma SubKidsUpdate(c: Codec, kids: seq<Trie>, i: nat, k: Trie)
    requires c.Sound() && i < |kids|
    ensures SubKids(c, kids[i := k]) == Occ(c, k) + SubKids(c, kids[i := Nil])
  {
    SubKidsAt(c, kids[i := k], i);
    assert kids[i := k][i := Nil] == kids[i := Nil];
  }

  /** Replace one child of a branch: its item changes, and only its references. */
  lemma BranchUpdate(c: Codec, kids: seq<Trie>, v: Value, i: nat, k: Trie, rest: multiset<Hash>)
    requires c.Sound() && i < |kids|
    ensures Enc(c, Branch(kids[i := k], v)) == RBranch(Enc(c, Branch(kids, v)).refs[i := RefOf(c, k)], v)
    ensures rest + Sub(c, Branch(kids[i := k], v)) == rest + SubKids(c, kids[i := Nil]) + Occ(c, k)
    ensures rest + Sub(c, Branch(kids, v)) == rest + SubKids(c, kids[i := Nil]) + Occ(c, kids[i])
  {
    EncUpdate(c, kids, v, i, k);
    BranchSum(c, kids, v, i, k, rest);
    BranchSum(c, kids, v, i, kids[i], rest);
    assert kids[i := kids[i]] == kids;
  }

  lemma BranchSum(c: Codec, kids: seq<Trie>, v: Value, i: nat, k: Trie, rest: multiset<Hash>)
    requires c.Sound() && i < |kids|
    ensures rest + Sub(c, Branch(kids[i := k], v)) == rest + SubKids(c, kids[i := Nil]) + Occ(c, k)
  {
    SubKidsUpdate(c, kids, i, k);
    assert Sub(c, Branch(kids[i := k], v)) == SubKids(c, kids[i := k]);
  }

  lemma EncUpdate(c: Codec, kids: seq<Trie>, v: Value, i: nat, k: Trie)
    requires i < |kids|
    ensures Enc(c, Branch(kids[i := k], v)) == RBranch(Enc(c, Branch(kids, v)).refs[i := RefOf(c, k)], v)
  {
    var a, b := Enc(c, Branch(kids[i := k], v)).refs, Enc(c, Branch(kids, v)).refs[i := RefOf(c, k)];
    forall j | 0 <= j < |kids| ensures a[j] == b[j] {}
    assert a == b;
  }

  function NoRefs(): (r: seq<Ref>)
    ensures |r| == 16 && forall i | 0 <= i < 16 :: r[i] == NoRef
  {
    seq(16, _ => NoRef)
  }

  lemma EmptyBranch(c: Codec, v: Value)
    requires c.Sound()
    ensures Enc(c, Branch(Nils(), v)) == RBranch(NoRefs(), v)
    ensures Sub(c, Branch(Nils(), v)) == multiset{}
  {
    var kids := Nils();
    var b := Branch(kids, v);
    var refs := Enc(c, b).refs;
    forall j | 0 <= j < 16 ensures refs[j] == NoRef { assert refs[j] == RefOf(c, kids[j]); }
    assert refs == NoRefs();
    SubKidsNils(c, kids);
    assert Sub(c, b) == SubKids(c, kids);
  }

  /** A branch with one child refers to what the child does. */
  lemma OneChild(c: Codec, i: nat, k: Trie)
    requires c.Sound() && i < 16
    ensures Enc(c, Branch(Nils()[i := k], [])) == RBranch(NoRefs()[i := RefOf(c, k)], [])
    ensures Sub(c, Branch(Nils()[i := k], [])) == Occ(c, k)
  {
    EmptyBranch(c, []);
    EncUpdate(c, Nils(), [], i, k);
    LoneChild(c, Nils()[i := k], i);
  }

  lemma LoneChild(c: Codec, kids: seq<Trie>, i: nat)
    requires c.Sound() && i < |kids| && forall j | 0 <= j < |kids| && j != i :: kids[j].Nil?
    ensures SubKids(c, kids) == Occ(c, kids[i])
  {
    SubKidsAt(c, kids, i);
    SubKidsNils(c, kids[i := Nil]);
  }

  lemma {:induction false} SubKidsNils(c: Codec, kids: seq<Trie>)
    requires c.Sound() && forall i | 0 <= i < |kids| :: kids[i].Nil?
    ensures SubKids(c, kids) == multiset{}
  {
    if kids != [] { SubKidsNils(c, kids[1..]); }
  }

  /** Every digest in the collection belongs to a normal-form trie. */
  ghost predicate NormalRefs(c: Codec, hs: multiset<Hash>) {
    forall h :: h in hs ==> exists t :: NormalHash(c, t, h)
  }

  ghost predicate NormalHash(c: Codec, t: Trie, h: Hash) {
    Wf(t) && Normal(t) && c.sha3(Enc(c, t)) == h
  }

  ghost predicate BelowNormal(t: Trie) {
    match t
    case Nil => true
    case Leaf(_, _) => true
    case Ext(_, k) => Normal(k)
    case Branch(kids, _) => forall i | 0 <= i < |kids| :: Normal(kids[i])
  }

  lemma {:induction false} OccNormal(c: Codec, t: Trie)
    requires Normal(t)
    ensures NormalRefs(c, Occ(c, t))
    decreases t, 1
  {
    SubNormal(c, t);
    NormalIsWf(t);
    assert NormalHash(c, t, c.sha3(Enc(c, t)));
  }

  lemma {:induction false} SubNormal(c: Codec, t: Trie)
    requires BelowNormal(t) || Normal(t)
    ensures NormalRefs(c, Sub(c, t))
    decreases t, 0
  {
    match t
    case Nil =>
    case Leaf(_, _) =>
    case Ext(_, k) => OccNormal(c, k);
    case Branch(kids, _) => SubKidsNormal(c, kids);
  }

  lemma {:induction false} SubKidsNormal(c: Codec, kids: seq<Trie>)
    requires forall i | 0 <= i < |kids| :: Normal(kids[i])
    ensures NormalRefs(c, SubKids(c, kids))
    decreases kids, 0
  {
    if kids != [] {
      OccNormal(c, kids[0]);
      SubKidsNormal(c, kids[1..]);
    }
  }

  /** A trie out of normal form has a digest no normal-form trie has. */
  lemma Phantom(c: Codec, t: Trie, hs: multiset<Hash>)
    requires c.Sound() && !Normal(t) && NormalRefs(c, hs)
    ensures c.sha3(Enc(c, t)) !in hs
  {
    if c.sha3(Enc(c, t)) in hs {
      var u :| NormalHash(c, u, c.sha3(Enc(c, t)));
      EncInjective(c, t, u);
      assert false;
    }
  }

  /** What a store must hold for the trie rooted at t: its nodes, and the root under its digest
      whatever its size. */
  ghost function RootRefs(c: Codec, t: Trie): multiset<Hash> {
    Sub(c, t) + multiset{c.sha3(Enc(c, t))}
  }

  lemma RootSum(c: Codec, t: Trie, others: multiset<Hash>)
    ensures others + Sub(c, t) + multiset{c.sha3(Enc(c, t))} == others + RootRefs(c, t)
  {
  }
}
