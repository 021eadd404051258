/** Removal from the trie, and the normal form it restores through merge and graft. */
module TrieDelete {
  import opened Basics
  import opened Nibbles
  import opened MerkleTrie

  /** The one used slot other than `except`, or 255: the scan of `uniqueInUse`. */
  function UniqueFrom(kids: seq<Trie>, v: Value, except: nat, i: nat, used: nat): nat
    requires |kids| == 16 && i <= 17
    decreases 17 - i
  {
    if i == 17 then used
    else if i != except && Used(kids, v, i) then
      if used == 255 then UniqueFrom(kids, v, except, i + 1, i) else 255
    else UniqueFrom(kids, v, except, i + 1, used)
  }

  function Unique(kids: seq<Trie>, v: Value, except: nat): nat
    requires |kids| == 16
  {
    UniqueFrom(kids, v, except, 0, 255)
  }

  ghost predicate OnlyUsed(kids: seq<Trie>, v: Value, except: nat, u: nat)
    requires |kids| == 16
  {
    u < 17 && u != except && Used(kids, v, u) && forall j | 0 <= j < 17 && j != except && j != u :: !Used(kids, v, j)
  }

  lemma {:induction false} UniqueFromSpec(kids: seq<Trie>, v: Value, except: nat, i: nat, used: nat)
    requires |kids| == 16 && i <= 17
    requires used == 255 ==> forall j | 0 <= j < i && j != except :: !Used(kids, v, j)
    requires used != 255 ==> used < i && used != except && Used(kids, v, used)
    requires used != 255 ==> forall j | 0 <= j < i && j != except && j != used :: !Used(kids, v, j)
    ensures var u := UniqueFrom(kids, v, except, i, used);
      u != 255 ==> OnlyUsed(kids, v, except, u)
    ensures var u := UniqueFrom(kids, v, except, i, used);
      u == 255 ==> forall w :: !OnlyUsed(kids, v, except, w)
    decreases 17 - i
  {
    if i == 17 {
    } else if i != except && Used(kids, v, i) {
      if used == 255 { UniqueFromSpec(kids, v, except, i + 1, i); }
    } else {
      UniqueFromSpec(kids, v, except, i + 1, used);
    }
  }

  /** `uniqueInUse` finds the only used slot exactly when there is one. */
  lemma UniqueSpec(kids: seq<Trie>, v: Value, except: nat)
    requires |kids| == 16
    ensures var u := Unique(kids, v, except); u != 255 ==> OnlyUsed(kids, v, except, u)
    ensures Unique(kids, v, except) == 255 ==> forall w :: !OnlyUsed(kids, v, except, w)
  {
    UniqueFromSpec(kids, v, except, 0, 255);
  }

  /** Join an extension with the two-item node under it. */
  function Graft(p: Path, c: Trie): Trie
    requires c.TwoItem()
  {
    WithPath(c, p + c.path)
  }

  /** A branch left with one used slot becomes a two-item node. */
  function Collapse(kids: seq<Trie>, v: Value, u: nat): Trie
    requires |kids| == 16 && u < 17
  {
    if u == 16 then Leaf([], v)
    else if kids[u].TwoItem() then Graft([u], kids[u])
    else Ext([u], kids[u])
  }

  /** A branch after removal: merged away when one slot is left. */
  function Trim(kids: seq<Trie>, v: Value): Trie
    requires |kids| == 16
  {
    UniqueSpec(kids, v, 255);
    var u := Unique(kids, v, 255);
    if u == 255 then Branch(kids, v) else Collapse(kids, v, u)
  }

  /** The walk of `deleteAt` stays off the lines where the code reads past the key or takes a
      value for a node reference: a leaf whose path is a proper prefix of the key, a branch
      without value at the end of the key, a branch left with its value alone. */
  ghost predicate Safe(t: Trie, k: Path)
    requires Wf(t)
  {
    match t
    case Nil => true
    case Leaf(p, _) => p <= k ==> p == k
    case Ext(p, c) => p <= k ==> Safe(c, k[|p|..])
    case Branch(kids, v) =>
      if k == [] then v != []
      else
        && Safe(kids[k[0]], k[1..])
        && (v != [] && kids[k[0]].Leaf? && kids[k[0]].path == k[1..] ==>
              exists j | 0 <= j < 16 :: j != k[0] && !kids[j].Nil?)
  }

  /** None: the key is absent and nothing changes. */
  function Deleted(t: Trie, k: Path): (r: Option<Trie>)
    requires Wf(t) && Normal(t) && Safe(t, k)
    ensures r.Some? && r.value.Nil? ==> t.Leaf? && t.path == k
    decreases t
  {
    match t
    case Nil => None
    case Leaf(p, _) => if p == k then Some(Nil) else None
    case Ext(p, c) =>
      if p <= k then
        match Deleted(c, k[|p|..])
        case None => None
        case Some(c') => Some(if c'.TwoItem() then Graft(p, c') else Ext(p, c'))
      else None
    case Branch(kids, v) =>
      if k == [] && v != [] then
        UniqueSpec(kids, v, 16);
        var u := Unique(kids, v, 16);
        Some(if u != 255 then Collapse(kids, v, u) else Branch(kids, []))
      else
        match Deleted(kids[k[0]], k[1..])
        case None => None
        case Some(c') =>
          Some(Trim(kids[k[0] := c'], v))
  }

  /** Leaving out slot 16 is the same as clearing it. */
  lemma WithoutValue(kids: seq<Trie>, v: Value, u: nat)
    requires |kids| == 16
    ensures OnlyUsed(kids, v, 16, u) <==> OnlyUsed(kids, [], 255, u)
    ensures u < 16 ==> Collapse(kids, v, u) == Collapse(kids, [], u)
  {
    assert forall j: nat | j < 16 :: Used(kids, v, j) == Used(kids, [], j);
    assert !Used(kids, [], 16);
  }

  lemma GraftLookup(p: Path, c: Trie, q: Path)
    requires Wf(c) && c.TwoItem() && p != []
    ensures Wf(Graft(p, c)) && Lookup(Graft(p, c), q) == Lookup(Ext(p, c), q)
  {
    if p <= q {
      assert q == p + q[|p|..];
      if c.Ext? && c.path <= q[|p|..] { PrefixSplit(p, c.path, q); }
    }
    if p + c.path <= q { PrefixSplit(p, c.path, q); }
  }

  /** Collapsing a branch with one used slot answers every lookup as the branch did. */
  lemma CollapseLookup(kids: seq<Trie>, v: Value, u: nat, q: Path)
    requires Wf(Branch(kids, v)) && OnlyUsed(kids, v, 255, u)
    ensures Wf(Collapse(kids, v, u)) && Lookup(Collapse(kids, v, u), q) == Lookup(Branch(kids, v), q)
  {
    if u == 16 {
      if q != [] { assert !Used(kids, v, q[0]); }
    } else {
      assert !Used(kids, v, 16);
      if q != [] { assert q[0] != u ==> !Used(kids, v, q[0]); }
      if kids[u].TwoItem() { GraftLookup([u], kids[u], q); }
    }
  }

  /** Delete refines map removal: it finds exactly the stored keys and removes only that key. */
  lemma {:induction false} DeleteLookup(t: Trie, k: Path, q: Path)
    requires Wf(t) && Normal(t) && Safe(t, k)
    ensures Deleted(t, k).Some? <==> Lookup(t, k) != []
    ensures Deleted(t, k).Some? ==> Wf(Deleted(t, k).value)
    ensures Deleted(t, k).Some? ==> Lookup(Deleted(t, k).value, q) == if q == k then [] else Lookup(t, q)
    decreases t
  {
    match t
    case Nil =>
    case Leaf(_, _) =>
    case Ext(p, c) =>
      if p <= k {
        var q' := if p <= q then q[|p|..] else [];
        DeleteLookup(c, k[|p|..], q');
        assert k == p + k[|p|..];
        if p <= q { assert q == p + q'; }
        var c' := Deleted(c, k[|p|..]);
        if c'.Some? && c'.value.TwoItem() { GraftLookup(p, c'.value, q); }
      }
    case Branch(kids, v) =>
      if k == [] && v != [] {
        UniqueSpec(kids, v, 16);
        var u := Unique(kids, v, 16);
        if u != 255 {
          WithoutValue(kids, v, u);
          CollapseLookup(kids, [], u, q);
        }
      } else {
        var q' := if q != [] && q[0] == k[0] then q[1..] else [];
        DeleteLookup(kids[k[0]], k[1..], q');
        assert k == [k[0]] + k[1..];
        if q != [] { assert q == [q[0]] + q[1..]; }
        var c' := Deleted(kids[k[0]], k[1..]);
        if c'.Some? {
          var kids' := kids[k[0] := c'.value];
          UniqueSpec(kids', v, 255);
          var u := Unique(kids', v, 255);
          if u != 255 { CollapseLookup(kids', v, u, q); }
        }
      }
  }

  lemma CollapseNormal(kids: seq<Trie>, v: Value, u: nat)
    requires |kids| == 16 && OnlyUsed(kids, v, 255, u) && Normal(if u < 16 then kids[u] else Nil)
    ensures Normal(Collapse(kids, v, u)) && !Collapse(kids, v, u).Nil?
  {
  }

  /** Delete restores the normal form through every merge and graft. */
  lemma {:induction false} DeleteNormal(t: Trie, k: Path)
    requires Wf(t) && Normal(t) && Safe(t, k)
    ensures Deleted(t, k).Some? ==> Normal(Deleted(t, k).value)
    decreases t
  {
    match t
    case Nil =>
    case Leaf(_, _) =>
    case Ext(p, c) =>
      if p <= k { DeleteNormal(c, k[|p|..]); }
    case Branch(kids, v) =>
      var i, j :| 0 <= i < j < 17 && Used(kids, v, i) && Used(kids, v, j);
      if k == [] && v != [] {
        UniqueSpec(kids, v, 16);
        var u := Unique(kids, v, 16);
        if u != 255 {
          WithoutValue(kids, v, u);
          CollapseNormal(kids, [], u);
        } else {
          forall w ensures !OnlyUsed(kids, [], 255, w) { WithoutValue(kids, v, w); }
          NoUnique(kids, [], i);
        }
      } else {
        DeleteNormal(kids[k[0]], k[1..]);
        var c' := Deleted(kids[k[0]], k[1..]);
        if c'.Some? {
          var kids' := kids[k[0] := c'.value];
          UniqueSpec(kids', v, 255);
          var u := Unique(kids', v, 255);
          if u != 255 { CollapseNormal(kids', v, u); }
          else { NoUnique(kids', v, if i != k[0] then i else j); }
        }
      }
  }

  /** With one used slot and no unique one, two are used. */
  lemma NoUnique(kids: seq<Trie>, v: Value, i: nat)
    requires |kids| == 16 && i < 17 && Used(kids, v, i)
    requires forall w :: !OnlyUsed(kids, v, 255, w)
    ensures TwoUsed(kids, v)
  {
    assert !OnlyUsed(kids, v, 255, i);
    var j :| 0 <= j < 17 && j != i && Used(kids, v, j);
    assert Used(kids, v, if i < j then i else j) && Used(kids, v, if i < j then j else i);
  }

  // ------------------------------------------------------ when removal is safe

  predicate Stored(t: Trie, k: Path)
    requires Wf(t)
  {
    Lookup(t, k) != []
  }

  /** No stored key is a proper prefix of k, and k is a proper prefix of none. */
  ghost predicate PrefixFree(t: Trie, k: Path)
    requires Wf(t)
  {
    && (forall a, b :: Stored(t, a) && Stored(t, b) && a <= b ==> a == b)
    && (forall a :: Stored(t, a) && (a <= k || k <= a) ==> a == k)
  }

  /** Every non-empty normal-form trie stores something; a branch stores two keys that part at once. */
  lemma {:induction false} SomeKey(t: Trie) returns (k: Path)
    requires Wf(t) && Normal(t) && !t.Nil?
    ensures Stored(t, k)
  {
    match t
    case Leaf(p, _) => k := p;
    case Ext(p, c) =>
      var k' := SomeKey(c);
      k := p + k';
      assert k[|p|..] == k';
    case Branch(kids, v) =>
      var i, j :| 0 <= i < j < 17 && Used(kids, v, i) && Used(kids, v, j);
      k := SlotKey(t, i);
  }

  lemma SlotKey(t: Trie, i: nat) returns (k: Path)
    requires Wf(t) && Normal(t) && t.Branch? && i < 17 && Used(t.kids, t.value, i)
    ensures Stored(t, k) && if i == 16 then k == [] else k != [] && k[0] == i
    decreases t, 0
  {
    if i == 16 { k := []; }
    else {
      var k' := SomeKey(t.kids[i]);
      k := [i] + k';
      assert k[1..] == k';
    }
  }

  /** Prefix-free keys (fixed-width ones, or RLP-coded indices) keep removal on safe lines. */
  lemma {:induction false} PrefixFreeIsSafe(t: Trie, k: Path)
    requires Wf(t) && Normal(t) && PrefixFree(t, k)
    ensures Safe(t, k)
    decreases t
  {
    match t
    case Nil =>
    case Leaf(p, _) => assert Stored(t, p);
    case Ext(p, c) =>
      if p <= k {
        PrefixFreeBelow(t, c, p, k);
        PrefixFreeIsSafe(c, k[|p|..]);
      }
    case Branch(kids, v) =>
      if k == [] {
        var s := SomeKey(t);
        assert [] <= s;
      } else {
        assert [] <= k && (Stored(t, []) <==> v != []);
        PrefixFreeBelow(t, kids[k[0]], [k[0]], k);
        PrefixFreeIsSafe(kids[k[0]], k[1..]);
      }
  }

  lemma PrefixFreeBelow(t: Trie, c: Trie, p: Path, k: Path)
    requires Wf(t) && Wf(c) && PrefixFree(t, k) && p <= k
    requires (t.Ext? && t.path == p && t.child == c) || (t.Branch? && |p| == 1 && t.kids[p[0]] == c)
    ensures PrefixFree(c, k[|p|..])
  {
    var r := k[|p|..];
    assert k == p + r;
    forall a: Path, b: Path | Stored(c, a) && Stored(c, b) && a <= b ensures a == b {
      StoredUnder(t, c, p, a);
      StoredUnder(t, c, p, b);
      PrefixBelow(p, a, b);
    }
    forall a: Path | Stored(c, a) && (a <= r || r <= a) ensures a == r {
      StoredUnder(t, c, p, a);
      PrefixBelow(p, a, r);
      PrefixBelow(p, r, a);
    }
  }

  lemma StoredUnder(t: Trie, c: Trie, p: Path, a: Path)
    requires Wf(t) && Wf(c)
    requires (t.Ext? && t.path == p && t.child == c) || (t.Branch? && |p| == 1 && t.kids[p[0]] == c)
    ensures Stored(c, a) == Stored(t, p + a) && (p + a)[|p|..] == a
  {
    assert (p + a)[|p|..] == a;
  }
}
