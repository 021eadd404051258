/** Exactly which removals stay on the lines of `deleteAt` that are meant for them, told by the
    stored keys alone. */
module TrieSafety {
  import opened Nibbles
  import opened MerkleTrie
  import opened TrieDelete
  import opened TrieCanonical

  predicate ProperPrefix(a: Path, b: Path) {
    a <= b && a != b
  }

  /** A stored key that nothing extends is a proper prefix of k: the walk passes through a leaf. */
  ghost predicate DeadEnd(t: Trie, k: Path, s: Path)
    requires Wf(t)
  {
    Stored(t, s) && ProperPrefix(s, k) && forall x :: Stored(t, x) && s <= x ==> x == s
  }

  /** Two stored keys part exactly where the absent key k ends: the walk ends in a branch without
      value and reads past the key. */
  ghost predicate EndsAtFork(t: Trie, k: Path, a: Path, b: Path)
    requires Wf(t)
  {
    !Stored(t, k) && Stored(t, a) && Stored(t, b) && k <= a && k <= b && a != b && Shared(a, b) == |k|
  }

  /** k is stored, and is the only key that extends the stored key s: the branch at s would be left
      with its value alone. */
  ghost predicate LastUnder(t: Trie, k: Path, s: Path)
    requires Wf(t)
  {
    Stored(t, k) && Stored(t, s) && ProperPrefix(s, k) && forall x :: Stored(t, x) && s <= x ==> x == s || x == k
  }

  ghost predicate Derails(t: Trie, k: Path)
    requires Wf(t)
  {
    || (exists s :: DeadEnd(t, k, s))
    || (exists a, b :: EndsAtFork(t, k, a, b))
    || (exists s :: LastUnder(t, k, s))
  }

  /** c is what t holds under p. */
  ghost predicate Below(t: Trie, c: Trie, p: Path) {
    (t.Ext? && t.path == p && t.child == c) || (t.Branch? && |t.kids| == 16 && |p| == 1 && t.kids[p[0]] == c)
  }

  lemma StoredBelow(t: Trie, c: Trie, p: Path, x: Path)
    requires Wf(t) && Wf(c) && Below(t, c, p)
    ensures Stored(t, p + x) == Stored(c, x)
  {
    assert (p + x)[|p|..] == x;
  }

  /** The three ways to derail at c are those at t whose witness lies under p. */
  lemma DeadEndBelow(t: Trie, c: Trie, p: Path, k: Path, s: Path)
    requires Wf(t) && Wf(c) && Below(t, c, p)
    ensures DeadEnd(t, p + k, p + s) <==> DeadEnd(c, k, s)
  {
    PrefixBelow(p, s, k);
    StoredBelow(t, c, p, s);
    assert p + s == p + k <==> s == k by { Rest(p, s); Rest(p, k); }
    if DeadEnd(t, p + k, p + s) {
      forall x | Stored(c, x) && s <= x ensures x == s { ExtensionBelow(t, c, p, s, x); }
    }
    if DeadEnd(c, k, s) {
      forall x | Stored(t, x) && p + s <= x ensures x == p + s { ExtensionAbove(t, c, p, s, x); }
    }
  }

  lemma LastUnderBelow(t: Trie, c: Trie, p: Path, k: Path, s: Path)
    requires Wf(t) && Wf(c) && Below(t, c, p)
    ensures LastUnder(t, p + k, p + s) <==> LastUnder(c, k, s)
  {
    PrefixBelow(p, s, k);
    StoredBelow(t, c, p, s);
    StoredBelow(t, c, p, k);
    assert p + s == p + k <==> s == k by { Rest(p, s); Rest(p, k); }
    if LastUnder(t, p + k, p + s) {
      forall x | Stored(c, x) && s <= x ensures x == s || x == k {
        ExtensionBelow(t, c, p, s, x);
        Rest(p, k);
      }
    }
    if LastUnder(c, k, s) {
      forall x | Stored(t, x) && p + s <= x ensures x == p + s || x == p + k { ExtensionAbove(t, c, p, s, x); }
    }
  }

  lemma Rest(p: Path, x: Path)
    ensures (p + x)[|p|..] == x
  {
  }

  /** What extends s in c extends p + s in t. */
  lemma ExtensionBelow(t: Trie, c: Trie, p: Path, s: Path, x: Path)
    requires Wf(t) && Wf(c) && Below(t, c, p) && Stored(c, x) && s <= x
    ensures Stored(t, p + x) && p + s <= p + x && (p + x)[|p|..] == x && (p + s)[|p|..] == s
  {
    StoredBelow(t, c, p, x);
    PrefixBelow(p, s, x);
  }

  /** What extends p + s in t is p and what extends s in c. */
  lemma ExtensionAbove(t: Trie, c: Trie, p: Path, s: Path, x: Path)
    requires Wf(t) && Wf(c) && Below(t, c, p) && Stored(t, x) && p + s <= x
    ensures x == p + x[|p|..] && Stored(c, x[|p|..]) && s <= x[|p|..]
  {
    PrefixSplit(p, s, x);
    assert x == p + x[|p|..];
    StoredBelow(t, c, p, x[|p|..]);
  }

  lemma ForkBelow(t: Trie, c: Trie, p: Path, k: Path, a: Path, b: Path)
    requires Wf(t) && Wf(c) && Below(t, c, p)
    ensures EndsAtFork(t, p + k, p + a, p + b) <==> EndsAtFork(c, k, a, b)
  {
    StoredBelow(t, c, p, a);
    StoredBelow(t, c, p, b);
    StoredBelow(t, c, p, k);
    PrefixBelow(p, k, a);
    PrefixBelow(p, k, b);
    PrefixBelow(p, a, b);
    SharedAfter(p, a, b);
  }

  lemma {:induction false} DerailsAbove(t: Trie, c: Trie, p: Path, k: Path)
    requires Wf(t) && Wf(c) && Below(t, c, p) && Derails(c, k)
    ensures Derails(t, p + k)
  {
    if s :| DeadEnd(c, k, s) { DeadEndBelow(t, c, p, k, s); }
    else if s :| LastUnder(c, k, s) { LastUnderBelow(t, c, p, k, s); }
    else {
      var a, b :| EndsAtFork(c, k, a, b);
      ForkBelow(t, c, p, k, a, b);
    }
  }

  /** Derailing at t is derailing under p, but for a branch's own value. */
  lemma {:induction false} DerailsBelow(t: Trie, c: Trie, p: Path, k: Path)
    requires Wf(t) && Wf(c) && Below(t, c, p) && Derails(t, p + k)
    requires t.Branch? ==> !DeadEnd(t, p + k, []) && !LastUnder(t, p + k, [])
    ensures Derails(c, k)
  {
    if s :| DeadEnd(t, p + k, s) {
      StartsWith(t, c, p, k, s);
      DeadEndBelow(t, c, p, k, s[|p|..]);
    } else if s :| LastUnder(t, p + k, s) {
      StartsWith(t, c, p, k, s);
      LastUnderBelow(t, c, p, k, s[|p|..]);
    } else {
      var a, b :| EndsAtFork(t, p + k, a, b);
      ForkUnder(t, c, p, k, a, b);
    }
  }

  lemma ForkUnder(t: Trie, c: Trie, p: Path, k: Path, a: Path, b: Path)
    requires Wf(t) && Wf(c) && Below(t, c, p) && EndsAtFork(t, p + k, a, b)
    ensures EndsAtFork(c, k, a[|p|..], b[|p|..])
  {
    PrefixSplit(p, k, a);
    PrefixSplit(p, k, b);
    assert a == p + a[|p|..] && b == p + b[|p|..];
    ForkBelow(t, c, p, k, a[|p|..], b[|p|..]);
  }

  lemma StartsWith(t: Trie, c: Trie, p: Path, k: Path, s: Path)
    requires Wf(t) && Below(t, c, p) && Stored(t, s) && s <= p + k && (t.Branch? ==> s != [])
    ensures p <= s && s == p + s[|p|..]
  {
    if t.Branch? { assert s[0] == (p + k)[0] == p[0]; }
  }

  /** A removal is safe exactly when no stored keys derail it. */
  lemma {:induction false} SafeExactly(t: Trie, k: Path)
    requires Wf(t) && Normal(t)
    ensures Safe(t, k) <==> !Derails(t, k)
    decreases t
  {
    match t
    case Nil =>
    case Leaf(p, _) =>
      assert Stored(t, p);
      if p <= k && p != k { assert DeadEnd(t, k, p); }
    case Ext(p, c) =>
      if p <= k {
        var k' := k[|p|..];
        assert k == p + k';
        SafeExactly(c, k');
        if Derails(c, k') { DerailsAbove(t, c, p, k'); }
        if Derails(t, k) { DerailsBelow(t, c, p, k'); }
      } else {
        forall s | Stored(t, s) ensures p <= s && !(s <= k) {}
        forall a, b ensures !EndsAtFork(t, k, a, b) {
          if EndsAtFork(t, k, a, b) { AgreeUpTo(p, a, b); }
        }
      }
    case Branch(kids, v) =>
      if k == [] {
        var a, b := Fork(t);
        if v == [] { assert EndsAtFork(t, k, a, b); }
      } else {
        var c, k' := kids[k[0]], k[1..];
        assert k == [k[0]] + k';
        SafeExactly(c, k');
        NeverDeadEnd(t, k);
        ValueAlone(t, k);
        if Derails(c, k') { DerailsAbove(t, c, [k[0]], k'); }
        if Derails(t, k) && !LastUnder(t, k, []) { DerailsBelow(t, c, [k[0]], k'); }
      }
  }

  // ------------------------------------------------------------- one trie for each way

  /** Sixteen empty slots. */
  function NoKids(): (kids: seq<Trie>)
    ensures |kids| == 16 && forall j | 0 <= j < 16 :: kids[j] == Nil
  {
    seq(16, _ => Nil)
  }

  /** One key, and a longer one to remove. */
  lemma DeadEndHappens(v: Value)
    requires v != []
    ensures var t := Leaf([1], v);
      Wf(t) && Normal(t) && DeadEnd(t, [1, 2], [1]) && !Safe(t, [1, 2])
  {
    var t := Leaf([1], v);
    assert Stored(t, [1]);
    SafeExactly(t, [1, 2]);
  }

  /** Two keys that part at once, and the empty key to remove. */
  lemma EndsAtForkHappens(v: Value)
    requires v != []
    ensures var t := Branch(NoKids()[1 := Leaf([], v)][2 := Leaf([], v)], []);
      Wf(t) && Normal(t) && EndsAtFork(t, [], [1], [2]) && !Safe(t, [])
  {
    var t := Branch(NoKids()[1 := Leaf([], v)][2 := Leaf([], v)], []);
    assert Used(t.kids, t.value, 1) && Used(t.kids, t.value, 2);
    assert Stored(t, [1]) && Stored(t, [2]);
    SafeExactly(t, []);
  }

  /** A key, and the one key that extends it to remove. */
  lemma LastUnderHappens(v: Value)
    requires v != []
    ensures var t := Branch(NoKids()[1 := Leaf([], v)], v);
      Wf(t) && Normal(t) && LastUnder(t, [1], []) && !Safe(t, [1])
  {
    var t := Branch(NoKids()[1 := Leaf([], v)], v);
    assert Used(t.kids, t.value, 1) && Used(t.kids, t.value, 16);
    ValueAlone(t, [1]);
    SafeExactly(t, [1]);
  }

  lemma AgreeUpTo(p: Path, a: Path, b: Path)
    requires p <= a && p <= b
    ensures Shared(a, b) >= |p|
  {
    assert a == p + a[|p|..] && b == p + b[|p|..];
    SharedAfter(p, a[|p|..], b[|p|..]);
  }

  lemma NeverDeadEnd(t: Trie, k: Path)
    requires Wf(t) && Normal(t) && t.Branch?
    ensures !DeadEnd(t, k, [])
  {
    var a, b := Fork(t);
    assert [] <= a && [] <= b;
  }

  lemma SingleKey(t: Trie, k: Path)
    requires Wf(t) && Normal(t) && !t.Nil? && forall x :: Stored(t, x) ==> x == k
    ensures t.Leaf?
  {
    if !t.Leaf? { ForksAtStem(t); }
  }

  /** The last clause of Safe at a branch, by keys. */
  lemma ValueAlone(t: Trie, k: Path)
    requires Wf(t) && Normal(t) && t.Branch? && k != []
    ensures LastUnder(t, k, []) <==>
      (t.value != [] && t.kids[k[0]].Leaf? && t.kids[k[0]].path == k[1..]
       && forall j | 0 <= j < 16 :: j == k[0] || t.kids[j].Nil?)
  {
    var i, rest := k[0], k[1..];
    assert k == [i] + rest;
    if LastUnder(t, k, []) {
      forall j | 0 <= j < 16 && j != i ensures t.kids[j].Nil? {
        if !t.kids[j].Nil? {
          assert Used(t.kids, t.value, j);
          var x := SlotKey(t, j);
          assert false;
        }
      }
      assert Stored(t.kids[i], rest);
      forall x | Stored(t.kids[i], x) ensures x == rest {
        var y: Path := [i] + x;
        assert y[1..] == x;
        assert Stored(t, y) && [] <= y;
      }
      SingleKey(t.kids[i], rest);
    }
    if t.value != [] && t.kids[i].Leaf? && t.kids[i].path == rest
       && forall j | 0 <= j < 16 :: j == i || t.kids[j].Nil? {
      forall x | Stored(t, x) ensures x == [] || x == k {
        if x != [] {
          assert x == [x[0]] + x[1..];
          assert Stored(t.kids[x[0]], x[1..]);
          assert !t.kids[x[0]].Nil?;
        }
      }
      assert LastUnder(t, k, []);
    }
  }
}
