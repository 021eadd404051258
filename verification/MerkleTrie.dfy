/** The modified Merkle Patricia trie as an unfolded tree, with the code's insert, lookup and
    delete as pure functions on it. */
module MerkleTrie {
  import opened Basics
  import opened Nibbles

  /** A stored value. The empty string is how the code says "no value". */
  type Value = seq<Byte>

  datatype Pair = Pair(key: Path, value: Value)

  datatype Trie =
    | Nil
    | Leaf(path: Path, value: Value)
    | Ext(path: Path, child: Trie)
    | Branch(kids: seq<Trie>, value: Value)
  {
    predicate TwoItem() {
      Leaf? || Ext?
    }
  }

  /** Shape only: what `insert` builds on the way, between normal forms. */
  ghost predicate Wf(t: Trie) {
    match t
    case Nil => true
    case Leaf(_, _) => true
    case Ext(p, c) => p != [] && !c.Nil? && Wf(c)
    case Branch(kids, _) => |kids| == 16 && forall i | 0 <= i < 16 :: Wf(kids[i])
  }

  /** Slot i of a branch holds something; slot 16 is the value. */
  predicate Used(kids: seq<Trie>, value: Value, i: nat)
    requires |kids| == 16 && i < 17
  {
    if i < 16 then !kids[i].Nil? else value != []
  }

  ghost predicate TwoUsed(kids: seq<Trie>, value: Value)
    requires |kids| == 16
  {
    exists i, j :: 0 <= i < j < 17 && Used(kids, value, i) && Used(kids, value, j)
  }

  /** Normal form: what the trie keeps between operations. */
  ghost predicate Normal(t: Trie) {
    match t
    case Nil => true
    case Leaf(_, v) => v != []
    case Ext(p, c) => p != [] && c.Branch? && Normal(c)
    case Branch(kids, v) => |kids| == 16 && TwoUsed(kids, v) && forall i | 0 <= i < 16 :: Normal(kids[i])
  }

  lemma {:induction false} NormalIsWf(t: Trie)
    requires Normal(t)
    ensures Wf(t)
  {
    match t
    case Nil =>
    case Leaf(_, _) =>
    case Ext(_, c) => NormalIsWf(c);
    case Branch(kids, _) => forall i | 0 <= i < 16 ensures Wf(kids[i]) { NormalIsWf(kids[i]); }
  }

  function Lookup(t: Trie, k: Path): Value
    requires Wf(t)
  {
    match t
    case Nil => []
    case Leaf(p, v) => if k == p then v else []
    case Ext(p, c) => if p <= k then Lookup(c, k[|p|..]) else []
    case Branch(kids, v) => if k == [] then v else Lookup(kids[k[0]], k[1..])
  }

  // ---------------------------------------------------------------- insert

  function Nils(): (r: seq<Trie>)
    ensures |r| == 16 && forall i | 0 <= i < 16 :: r[i] == Nil
  {
    seq(16, _ => Nil)
  }

  /** The same two-item node with another path. */
  function WithPath(t: Trie, p: Path): Trie
    requires t.TwoItem()
  {
    if t.Leaf? then Leaf(p, t.value) else Ext(p, t.child)
  }

  /** Split a two-item node after s nibbles. */
  function Cleve(t: Trie, s: nat): Trie
    requires t.TwoItem() && s <= |t.path|
  {
    Ext(t.path[..s], WithPath(t, t.path[s..]))
  }

  /** Turn a two-item node into a branch that holds only it. */
  function BranchOut(t: Trie): Trie
    requires t.TwoItem() && (t.Ext? ==> t.path != [])
  {
    if t.path == [] then Branch(Nils(), t.value)
    else
      var kid := if t.Leaf? || |t.path| > 1 then WithPath(t, t.path[1..]) else t.child;
      Branch(Nils()[t.path[0] := kid], [])
  }

  /** k goes on below the two-item node t. */
  predicate Descends(t: Trie, k: Path) {
    t.Ext? && t.path <= k
  }

  function Inserted(t: Trie, k: Path, v: Value): (r: Trie)
    requires Wf(t)
    ensures Wf(r) && !r.Nil?
    decreases |k|, if t.TwoItem() && !Descends(t, k) then 1 else 0
  {
    if t.Nil? then Leaf(k, v)
    else if t.Branch? then
      if k == [] then Branch(t.kids, v)
      else Branch(t.kids[k[0] := Inserted(t.kids[k[0]], k[1..], v)], t.value)
    else if t.Leaf? && t.path == k then Leaf(k, v)
    else if Descends(t, k) then Ext(t.path, Inserted(t.child, k[|t.path|..], v))
    else
      SharedSpec(k, t.path);
      var s := Shared(k, t.path);
      if s > 0 then Inserted(Cleve(t, s), k, v) else Inserted(BranchOut(t), k, v)
  }

  lemma CleveLookup(t: Trie, s: nat, q: Path)
    requires Wf(t) && t.TwoItem() && 0 < s <= |t.path| && (t.Ext? ==> s < |t.path|)
    ensures Wf(Cleve(t, s)) && Lookup(Cleve(t, s), q) == Lookup(t, q)
  {
    var top, bottom := t.path[..s], t.path[s..];
    assert top + bottom == t.path;
    if top <= q {
      assert q == top + q[s..];
      if t.Ext? && bottom <= q[s..] { PrefixSplit(top, bottom, q); }
      if t.Ext? && t.path <= q { PrefixSplit(top, bottom, q); }
    }
  }

  lemma BranchOutLookup(t: Trie, q: Path)
    requires Wf(t) && t.TwoItem()
    ensures Wf(BranchOut(t)) && Lookup(BranchOut(t), q) == Lookup(t, q)
  {
    if t.path != [] {
      var head, rest := t.path[..1], t.path[1..];
      assert t.path == head + rest;
      if q != [] && q[0] == t.path[0] {
        assert q == head + q[1..];
        if t.Ext? && rest <= q[1..] { PrefixSplit(head, rest, q); }
        if t.Ext? && t.path <= q { PrefixSplit(head, rest, q); }
      }
    }
  }

  /** Insert refines the map update: k gets v, every other key keeps its answer. */
  lemma {:induction false} InsertLookup(t: Trie, k: Path, v: Value, q: Path)
    requires Wf(t)
    ensures Lookup(Inserted(t, k, v), q) == if q == k then v else Lookup(t, q)
    decreases |k|, if t.TwoItem() && !Descends(t, k) then 1 else 0
  {
    if t.Nil? || (t.Leaf? && t.path == k) {
    } else if t.Branch? {
      if k != [] && q != [] && q[0] == k[0] {
        InsertLookup(t.kids[k[0]], k[1..], v, q[1..]);
        assert q == k <==> q[1..] == k[1..] by { assert q == [q[0]] + q[1..] && k == [k[0]] + k[1..]; }
      }
    } else if Descends(t, k) {
      if t.path <= q {
        InsertLookup(t.child, k[|t.path|..], v, q[|t.path|..]);
        assert q == t.path + q[|t.path|..] && k == t.path + k[|t.path|..];
      }
    } else {
      SharedSpec(k, t.path);
      var s := Shared(k, t.path);
      if s > 0 {
        CleveLookup(t, s, q);
        InsertLookup(Cleve(t, s), k, v, q);
      } else {
        BranchOutLookup(t, q);
        InsertLookup(BranchOut(t), k, v, q);
      }
    }
  }

  /** Insert keeps the normal form through every cleve and branch. */
  lemma {:induction false} InsertNormal(t: Trie, k: Path, v: Value)
    requires Normal(t) && Wf(t) && v != []
    ensures Normal(Inserted(t, k, v))
    ensures t.Branch? ==> Inserted(t, k, v).Branch?
    ensures t.TwoItem() && t.path != k && Shared(k, t.path) == 0 ==> Inserted(t, k, v).Branch?
    decreases |k|, if t.TwoItem() && !Descends(t, k) then 1 else 0
  {
    if t.Nil? || (t.Leaf? && t.path == k) {
    } else if t.Branch? {
      var kids, w := t.kids, t.value;
      var i, j :| 0 <= i < j < 17 && Used(kids, w, i) && Used(kids, w, j);
      if k == [] {
        assert Used(kids, v, i) && Used(kids, v, j);
      } else {
        InsertNormal(kids[k[0]], k[1..], v);
        var kids' := kids[k[0] := Inserted(kids[k[0]], k[1..], v)];
        assert Used(kids', w, i) && Used(kids', w, j);
      }
    } else if Descends(t, k) {
      InsertNormal(t.child, k[|t.path|..], v);
    } else {
      var s := Shared(k, t.path);
      if s > 0 { InsertCleved(t, k, v, s); } else { InsertBranched(t, k, v); }
    }
  }

  lemma {:induction false} InsertCleved(t: Trie, k: Path, v: Value, s: nat)
    requires Normal(t) && Wf(t) && v != [] && t.TwoItem() && !Descends(t, k) && !(t.Leaf? && t.path == k)
    requires s == Shared(k, t.path) > 0
    ensures Normal(Inserted(t, k, v))
    decreases |k|, 0, 1
  {
    SharedSpec(k, t.path);
    CleveLookup(t, s, []);
    var top, bottom := t.path[..s], WithPath(t, t.path[s..]);
    assert top <= k;
    var rest := k[s..];
    assert Inserted(t, k, v) == Inserted(Cleve(t, s), k, v) == Ext(top, Inserted(bottom, rest, v));
    assert rest != bottom.path by { assert k == top + rest && t.path == top + bottom.path; }
    assert Shared(rest, bottom.path) == 0;
    InsertNormal(bottom, rest, v);
  }

  lemma InsertBranched(t: Trie, k: Path, v: Value)
    requires Normal(t) && Wf(t) && v != [] && t.TwoItem() && !Descends(t, k) && t.path != k
    requires Shared(k, t.path) == 0
    ensures Normal(Inserted(t, k, v)) && Inserted(t, k, v).Branch?
    decreases |k|, 0, 1
  {
    BranchOutLookup(t, []);
    var b := BranchOut(t);
    assert Inserted(t, k, v) == Inserted(b, k, v);
    var i := if t.path == [] then 16 else t.path[0];
    assert Used(b.kids, b.value, i);
    var r := Inserted(b, k, v);
    if k == [] {
      assert Used(r.kids, r.value, 16) && Used(r.kids, r.value, i);
    } else {
      assert b.kids[k[0]].Nil?;
      assert r == Branch(b.kids[k[0] := Leaf(k[1..], v)], b.value);
      assert Used(r.kids, r.value, k[0]) && Used(r.kids, r.value, i);
    }
  }
}
