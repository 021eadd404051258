/** Normal form is unique: the map decides the trie. */
module TrieCanonical {
  import opened Nibbles
  import opened MerkleTrie
  import opened TrieDelete

  ghost predicate SameMap(a: Trie, b: Trie)
    requires Wf(a) && Wf(b)
  {
    forall k :: Lookup(a, k) == Lookup(b, k)
  }

  /** Two stored keys of a branch that part at once: neither is empty and begins like the other. */
  ghost predicate Part(a: Path, b: Path) {
    a != b && Shared(a, b) == 0
  }

  lemma Fork(t: Trie) returns (a: Path, b: Path)
    requires Wf(t) && Normal(t) && t.Branch?
    ensures Stored(t, a) && Stored(t, b) && Part(a, b)
  {
    var i, j :| 0 <= i < j < 17 && Used(t.kids, t.value, i) && Used(t.kids, t.value, j);
    a := SlotKey(t, i);
    b := SlotKey(t, j);
  }

  /** The branch point of a trie: its stored keys all begin with p, and two of them part right after. */
  ghost predicate ForksAt(t: Trie, p: Path)
    requires Wf(t)
  {
    && (forall k :: Stored(t, k) ==> p <= k)
    && (exists a, b :: Stored(t, a) && Stored(t, b) && a != b && Shared(a, b) == |p|)
  }

  function Stem(t: Trie): Path {
    if t.Ext? then t.path else []
  }

  lemma {:induction false} SharedAfter(p: Path, a: Path, b: Path)
    ensures Shared(p + a, p + b) == |p| + Shared(a, b)
  {
    if p == [] {
      assert p + a == a && p + b == b;
    } else {
      assert (p + a)[1..] == p[1..] + a && (p + b)[1..] == p[1..] + b;
      SharedAfter(p[1..], a, b);
    }
  }

  lemma ForksAtStem(t: Trie)
    requires Wf(t) && Normal(t) && (t.Ext? || t.Branch?)
    ensures ForksAt(t, Stem(t))
  {
    if t.Branch? {
      var a, b := Fork(t);
    } else {
      var a, b := Fork(t.child);
      var p := t.path;
      assert (p + a)[|p|..] == a && (p + b)[|p|..] == b;
      assert Stored(t, p + a) && Stored(t, p + b);
      SharedAfter(p, a, b);
    }
  }

  lemma ForkUnique(s: Trie, t: Trie, p: Path, q: Path)
    requires Wf(s) && Wf(t) && SameMap(s, t) && ForksAt(s, p) && ForksAt(t, q)
    ensures p == q
  {
    forall k ensures Stored(s, k) == Stored(t, k) { assert Lookup(s, k) == Lookup(t, k); }
    NotBeyond(s, t, p, q);
    NotBeyond(t, s, q, p);
    var a :| Stored(s, a);
    assert p == a[..|p|] && q == a[..|q|];
  }

  lemma NotBeyond(s: Trie, t: Trie, p: Path, q: Path)
    requires Wf(s) && Wf(t) && ForksAt(s, p) && ForksAt(t, q)
    requires forall k :: Stored(s, k) == Stored(t, k)
    ensures |q| <= |p|
  {
    var a, b :| Stored(s, a) && Stored(s, b) && a != b && Shared(a, b) == |p|;
    assert q <= a && q <= b;
    SharedSpec(a, b);
  }

  /** Two normal-form tries that answer every lookup alike are equal. */
  lemma {:induction false} Canonical(s: Trie, t: Trie)
    requires Wf(s) && Normal(s) && Wf(t) && Normal(t) && SameMap(s, t)
    ensures s == t
    decreases s
  {
    forall k ensures Stored(s, k) == Stored(t, k) { assert Lookup(s, k) == Lookup(t, k); }
    if s.Nil? || t.Nil? {
      if !s.Nil? { var k := SomeKey(s); }
      if !t.Nil? { var k := SomeKey(t); }
    } else if s.Leaf? || t.Leaf? {
      OneKey(s, t);
    } else {
      ForksAtStem(s);
      ForksAtStem(t);
      ForkUnique(s, t, Stem(s), Stem(t));
      if s.Ext? {
        var p := s.path;
        forall k ensures Lookup(s.child, k) == Lookup(t.child, k) {
          assert (p + k)[|p|..] == k;
          assert Lookup(s, p + k) == Lookup(t, p + k);
        }
        Canonical(s.child, t.child);
      } else {
        assert Lookup(s, []) == Lookup(t, []);
        forall i | 0 <= i < 16 ensures s.kids[i] == t.kids[i] {
          forall k: Path ensures Lookup(s.kids[i], k) == Lookup(t.kids[i], k) {
            var ik: Path := [i] + k;
            assert ik[1..] == k;
            assert Lookup(s, ik) == Lookup(t, ik);
          }
          Canonical(s.kids[i], t.kids[i]);
        }
      }
    }
  }

  lemma OneKey(s: Trie, t: Trie)
    requires Wf(s) && Normal(s) && Wf(t) && Normal(t) && !s.Nil? && !t.Nil? && (s.Leaf? || t.Leaf?)
    requires SameMap(s, t)
    ensures s == t
  {
    forall k ensures Stored(s, k) == Stored(t, k) { assert Lookup(s, k) == Lookup(t, k); }
    if s.Leaf? && t.Leaf? {
      assert Stored(t, s.path) && Lookup(s, s.path) == Lookup(t, s.path);
    } else {
      ForksAtStem(if s.Leaf? then t else s);
    }
  }
}
