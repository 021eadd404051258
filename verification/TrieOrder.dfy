/** The entries of a trie in cursor order, and what seeking a key leaves of them. */
module TrieOrder {
  import opened Nibbles
  import opened MerkleTrie
  import opened TrieDelete
  import opened TrieCanonical

  /** A branch's value first, then its children from 0 to 15. */
  function Entries(t: Trie, key: Path): seq<Pair>
    requires Wf(t)
    decreases t, 17
  {
    match t
    case Nil => []
    case Leaf(p, v) => [Pair(key + p, v)]
    case Ext(p, c) => Entries(c, key + p)
    case Branch(_, v) => (if v != [] then [Pair(key, v)] else []) + EntriesFrom(t, key, 0)
  }

  /** The entries of a branch's children from slot i on. */
  function EntriesFrom(t: Trie, key: Path, i: nat): seq<Pair>
    requires Wf(t) && t.Branch? && i <= 16
    decreases t, 16 - i
  {
    if i == 16 then [] else Entries(t.kids[i], key + [i]) + EntriesFrom(t, key, i + 1)
  }

  /** The entries of t that a cursor entering it with k still to match will visit. */
  function Seek(t: Trie, key: Path, k: Path): seq<Pair>
    requires Wf(t)
    decreases t
  {
    if k == [] then Entries(t, key)
    else match t
      case Nil => []
      case Leaf(p, _) => if p == k || Less(k, p) then Entries(t, key) else []
      case Ext(p, c) =>
        if p <= k then Seek(c, key + p, k[|p|..])
        else if Less(k, p) then Entries(t, key)
        else []
      case Branch(kids, _) => Seek(kids[k[0]], key + [k[0]], k[1..]) + EntriesFrom(t, key, k[0] as nat + 1)
  }

  // ---------------------------------------------------------------- the order

  lemma {:induction false} LessPrefix(p: Path, a: Path, b: Path)
    ensures Less(p + a, p + b) == Less(a, b)
  {
    SharedAfter(p, a, b);
    var n := Shared(a, b);
    assert n < |a| ==> (p + a)[|p| + n] == a[n];
    assert n < |b| ==> (p + b)[|p| + n] == b[n];
  }

  /** All keys in es begin with p. */
  ghost predicate AllUnder(es: seq<Pair>, p: Path) {
    forall x | 0 <= x < |es| :: p <= es[x].key
  }

  ghost predicate Ascending(es: seq<Pair>) {
    forall x, y | 0 <= x < y < |es| :: Less(es[x].key, es[y].key)
  }

  lemma {:induction false} EntriesUnder(t: Trie, key: Path)
    requires Wf(t)
    ensures AllUnder(Entries(t, key), key)
    decreases t, 17
  {
    match t
    case Nil =>
    case Leaf(_, _) =>
    case Ext(p, c) => EntriesUnder(c, key + p);
    case Branch(_, _) => EntriesFromUnder(t, key, 0);
  }

  /** Keys in children from i on go on with a nibble of at least i. */
  lemma {:induction false} EntriesFromUnder(t: Trie, key: Path, i: nat)
    requires Wf(t) && t.Branch? && i <= 16
    ensures forall x | 0 <= x < |EntriesFrom(t, key, i)| ::
      var k := EntriesFrom(t, key, i)[x].key;
      key <= k && |k| > |key| && k[|key|] >= i
    decreases t, 16 - i
  {
    if i < 16 {
      EntriesUnder(t.kids[i], key + [i]);
      EntriesFromUnder(t, key, i + 1);
      var es := Entries(t.kids[i], key + [i]);
      forall x | 0 <= x < |es| ensures key <= es[x].key && |es[x].key| > |key| && es[x].key[|key|] == i {
        assert es[x].key[..|key + [i]|] == key + [i];
        assert es[x].key[|key|] == es[x].key[..|key| + 1][|key|];
        assert es[x].key[..|key|] == es[x].key[..|key| + 1][..|key|];
      }
    }
  }

  /** Keys that part at nibble |key|, the first lower, are in order. */
  lemma PartsLess(key: Path, a: Path, b: Path)
    requires key <= a && key <= b && |b| > |key| && (|a| == |key| || a[|key|] < b[|key|])
    ensures Less(a, b) && !Less(b, a)
  {
    var x, y := a[|key|..], b[|key|..];
    assert a == key + x && b == key + y;
    LessPrefix(key, x, y);
    LessPrefix(key, y, x);
  }

  /** The cursor meets every key once, in ascending order. */
  lemma {:induction false} EntriesAscend(t: Trie, key: Path)
    requires Wf(t)
    ensures Ascending(Entries(t, key))
    decreases t, 17
  {
    match t
    case Nil =>
    case Leaf(_, _) =>
    case Ext(p, c) => EntriesAscend(c, key + p);
    case Branch(_, v) =>
      EntriesFromAscend(t, key, 0);
      EntriesFromUnder(t, key, 0);
      var es := EntriesFrom(t, key, 0);
      forall x | 0 <= x < |es| ensures Less(key, es[x].key) { PartsLess(key, key, es[x].key); }
  }

  lemma {:induction false} EntriesFromAscend(t: Trie, key: Path, i: nat)
    requires Wf(t) && t.Branch? && i <= 16
    ensures Ascending(EntriesFrom(t, key, i))
    decreases t, 16 - i
  {
    if i < 16 {
      var here, after := Entries(t.kids[i], key + [i]), EntriesFrom(t, key, i + 1);
      EntriesAscend(t.kids[i], key + [i]);
      EntriesFromAscend(t, key, i + 1);
      EntriesUnder(t.kids[i], key + [i]);
      EntriesFromUnder(t, key, i + 1);
      forall x, y | 0 <= x < |here| && 0 <= y < |after| ensures Less(here[x].key, after[y].key) {
        Under1(key, i, here[x].key);
        PartsLess(key, here[x].key, after[y].key);
      }
    }
  }

  lemma Under1(key: Path, i: Nibble, k: Path)
    requires key + [i] <= k
    ensures key <= k && |k| > |key| && k[|key|] == i
  {
    assert k[..|key| + 1] == key + [i];
    assert k[|key|] == k[..|key| + 1][|key|];
    assert k[..|key|] == k[..|key| + 1][..|key|];
  }

  /** The entries are the stored pairs, no more and no fewer. */
  lemma {:induction false} EntriesExact(t: Trie, key: Path, k: Path)
    requires Wf(t) && Normal(t)
    ensures forall e :: e in Entries(t, key) ==> key <= e.key
    ensures Stored(t, k) <==> exists v :: Pair(key + k, v) in Entries(t, key)
    ensures forall v :: Pair(key + k, v) in Entries(t, key) ==> v == Lookup(t, k)
    decreases t, 17
  {
    EntriesUnder(t, key);
    match t
    case Nil =>
    case Leaf(p, v) =>
      assert key + p == key + k <==> p == k by { assert (key + p)[|key|..] == p && (key + k)[|key|..] == k; }
      assert k == p ==> Pair(key + k, v) in Entries(t, key);
    case Ext(p, c) =>
      EntriesUnder(c, key + p);
      if p <= k {
        EntriesExact(c, key + p, k[|p|..]);
        assert key + k == key + p + k[|p|..];
      } else {
        PrefixBelow(key, p, k);
        assert forall v :: Pair(key + k, v) in Entries(c, key + p) ==> key + p <= key + k;
      }
    case Branch(_, v) => BranchExact(t, key, k);
  }

  lemma BranchExact(t: Trie, key: Path, k: Path)
    requires Wf(t) && Normal(t) && t.Branch?
    ensures Stored(t, k) <==> exists v :: Pair(key + k, v) in Entries(t, key)
    ensures forall v :: Pair(key + k, v) in Entries(t, key) ==> v == Lookup(t, k)
    decreases t, 16
  {
    EntriesFromUnder(t, key, 0);
    var own := if t.value != [] then [Pair(key, t.value)] else [];
    assert Entries(t, key) == own + EntriesFrom(t, key, 0);
    if k == [] {
      assert key + k == key;
      assert t.value != [] ==> Pair(key, t.value) in own;
    } else {
      SlotExact(t, key, k, 0);
      assert key + k != key;
      assert forall v :: Pair(key + k, v) in Entries(t, key) <==> Pair(key + k, v) in EntriesFrom(t, key, 0);
    }
  }

  lemma {:induction false} SlotExact(t: Trie, key: Path, k: Path, i: nat)
    requires Wf(t) && Normal(t) && t.Branch? && k != [] && i <= k[0]
    ensures Stored(t, k) <==> exists v :: Pair(key + k, v) in EntriesFrom(t, key, i)
    ensures forall v :: Pair(key + k, v) in EntriesFrom(t, key, i) ==> v == Lookup(t, k)
    decreases t, 15 - i
  {
    EntriesFromUnder(t, key, i + 1);
    EntriesUnder(t.kids[i], key + [i]);
    var here, after := Entries(t.kids[i], key + [i]), EntriesFrom(t, key, i + 1);
    assert (key + k)[|key|] == k[0];
    if i < k[0] {
      SlotExact(t, key, k, i + 1);
      forall v ensures Pair(key + k, v) !in here {
        if Pair(key + k, v) in here { Under1(key, i, key + k); }
      }
    } else {
      EntriesExact(t.kids[i], key + [i], k[1..]);
      assert key + k == key + [i] + k[1..];
      forall v ensures Pair(key + k, v) !in after {}
    }
    assert forall v :: Pair(key + k, v) in EntriesFrom(t, key, i) <==>
      Pair(key + k, v) in here || Pair(key + k, v) in after;
  }

  // -------------------------------------------------------------- the lower bound

  /** Everything kept is a suffix of es that begins at the least key not below k. */
  ghost predicate LowerBound(es: seq<Pair>, kept: seq<Pair>, k: Path) {
    && |kept| <= |es| && es[|es| - |kept|..] == kept
    && (forall x | 0 <= x < |es| - |kept| :: Less(es[x].key, k))
    && (forall x | 0 <= x < |kept| :: !Less(kept[x].key, k))
  }

  lemma NoneBelow(es: seq<Pair>, p: Path, k: Path)
    requires AllUnder(es, p) && (p == k || Less(k, p))
    ensures LowerBound(es, es, k)
  {
    forall x | 0 <= x < |es| ensures !Less(es[x].key, k) {
      var rest := es[x].key[|p|..];
      assert es[x].key == p + rest;
      if p == k {
        assert k == p + [];
        LessPrefix(p, rest, []);
      } else {
        LessExtended(k, p, rest);
      }
    }
  }

  lemma AllBelow(es: seq<Pair>, p: Path, k: Path)
    requires AllUnder(es, p) && !(p <= k) && !Less(k, p)
    ensures LowerBound(es, [], k)
  {
    forall x | 0 <= x < |es| ensures Less(es[x].key, k) {
      var rest := es[x].key[|p|..];
      assert es[x].key == p + rest;
      LessExtended(k, p, rest);
    }
  }

  /** When neither of k and p is a prefix of the other, or k is the shorter, extending p changes nothing. */
  lemma LessExtended(k: Path, p: Path, rest: Path)
    requires !(p <= k)
    ensures Less(k, p) ==> !Less(p + rest, k)
    ensures !Less(k, p) ==> Less(p + rest, k)
  {
    SharedSpec(k, p);
    var n := Shared(k, p);
    assert k[..n] == p[..n];
    assert k == k[..n] + k[n..] && p == p[..n] + p[n..];
    assert p + rest == p[..n] + (p[n..] + rest);
    LessPrefix(p[..n], p[n..] + rest, k[n..]);
    assert n < |p|;
  }

  /** Seeking leaves exactly the entries not below the key, from the least one on. */
  lemma {:induction false} SeekIsLowerBound(t: Trie, key: Path, k: Path)
    requires Wf(t)
    ensures LowerBound(Entries(t, key), Seek(t, key, k), key + k)
    decreases t
  {
    EntriesUnder(t, key);
    if k == [] {
      assert key + k == key;
      NoneBelow(Entries(t, key), key, key);
    } else {
      match t
      case Nil =>
      case Leaf(p, _) => SeekTwoItem(t, key, k);
      case Ext(p, c) =>
        if p <= k {
          SeekIsLowerBound(c, key + p, k[|p|..]);
          assert key + k == key + p + k[|p|..];
        } else {
          EntriesUnder(c, key + p);
          SeekTwoItem(t, key, k);
        }
      case Branch(kids, v) => SeekBranch(t, key, k);
    }
  }

  lemma SeekTwoItem(t: Trie, key: Path, k: Path)
    requires Wf(t) && t.TwoItem() && k != [] && (t.Ext? ==> !(t.path <= k))
    requires AllUnder(Entries(t, key), key + t.path)
    ensures LowerBound(Entries(t, key), Seek(t, key, k), key + k)
  {
    var p := t.path;
    LessPrefix(key, k, p);
    LessPrefix(key, p, k);
    PrefixBelow(key, p, k);
    if p == k || Less(k, p) {
      NoneBelow(Entries(t, key), key + p, key + k);
    } else if !(p <= k) {
      AllBelow(Entries(t, key), key + p, key + k);
    } else {
      SharedSpec(p, k);
      assert k == p + k[|p|..] && p == p + [];
      LessPrefix(p, [], k[|p|..]);
    }
  }

  lemma {:induction false} SeekBranch(t: Trie, key: Path, k: Path)
    requires Wf(t) && t.Branch? && k != []
    ensures LowerBound(Entries(t, key), Seek(t, key, k), key + k)
    decreases t, 18
  {
    var own := if t.value != [] then [Pair(key, t.value)] else [];
    assert key + k == key + [k[0]] + k[1..];
    Under1(key, k[0], key + k);
    PartsLess(key, key, key + k);
    SeekIsLowerBound(t.kids[k[0]], key + [k[0]], k[1..]);
    SeekSlots(t, key, k, 0);
    OwnBelow(key, t.value, key + k);
    Append(own, [], EntriesFrom(t, key, 0), Seek(t, key, k), key + k);
  }

  lemma OwnBelow(key: Path, v: Value, k: Path)
    requires Less(key, k)
    ensures LowerBound(if v != [] then [Pair(key, v)] else [], [], k)
  {
  }

  lemma {:induction false} SeekSlots(t: Trie, key: Path, k: Path, i: nat)
    requires Wf(t) && t.Branch? && k != [] && i <= k[0]
    requires LowerBound(Entries(t.kids[k[0]], key + [k[0]]), Seek(t.kids[k[0]], key + [k[0]], k[1..]), key + k)
    ensures LowerBound(EntriesFrom(t, key, i), Seek(t, key, k), key + k)
    decreases 16 - i
  {
    Under1(key, k[0], key + k) by { assert key + k == key + [k[0]] + k[1..]; }
    var here := Entries(t.kids[i], key + [i]);
    if i < k[0] {
      SeekSlots(t, key, k, i + 1);
      EntriesUnder(t.kids[i], key + [i]);
      forall x | 0 <= x < |here| ensures Less(here[x].key, key + k) {
        Under1(key, i, here[x].key);
        PartsLess(key, here[x].key, key + k);
      }
      Append(here, [], EntriesFrom(t, key, i + 1), Seek(t, key, k), key + k);
    } else {
      var after := EntriesFrom(t, key, i + 1);
      EntriesFromUnder(t, key, i + 1);
      forall x | 0 <= x < |after| ensures !Less(after[x].key, key + k) {
        PartsLess(key, key + k, after[x].key);
      }
      var kept := Seek(t.kids[i], key + [i], k[1..]);
      Keep(here, kept, after, key + k);
    }
  }

  /** Entries that are all below the key can go in front. */
  lemma Append(low: seq<Pair>, none: seq<Pair>, es: seq<Pair>, kept: seq<Pair>, k: Path)
    requires LowerBound(low, none, k) && none == [] && LowerBound(es, kept, k)
    ensures LowerBound(low + es, kept, k)
  {
  }

  /** Entries that are all at or above the key can go behind. */
  lemma Keep(es: seq<Pair>, kept: seq<Pair>, high: seq<Pair>, k: Path)
    requires LowerBound(es, kept, k) && forall x | 0 <= x < |high| :: !Less(high[x].key, k)
    ensures LowerBound(es + high, kept + high, k)
  {
    var n := |es| - |kept|;
    assert (es + high)[n..] == es[n..] + high;
  }
}
