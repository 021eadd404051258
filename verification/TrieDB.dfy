/** The trie over the node store: every insert and remove builds the encoding that the pure trie
    has, and keeps the reference counts exact. */
module TrieDB {
  import opened Basics
  import opened Nibbles
  import opened MerkleTrie
  import opened TrieDelete
  import opened TrieCodec
  import opened OverlayDB

  /** What `appendRaw` of an encoded node leaves in the parent. */
  function Embed(b: Rlp): Ref {
    if b.RNull? then NoRef else Inline(b)
  }

  class GenericTrieDB {
    const db: Overlay
    const c: Codec
    var root: Hash
    ghost var trie: Trie
    /** References held by other tries that share the store. */
    ghost var others: multiset<Hash>

    constructor (db: Overlay, c: Codec)
      ensures this.db == db && this.c == c
      ensures others == multiset{} && trie == Nil && root == c.sha3(RNull)
    {
      this.db := db;
      this.c := c;
      root := c.sha3(RNull);
      trie := Nil;
      others := multiset{};
    }

    ghost predicate Ready(want: multiset<Hash>)
      reads db
    {
      c.Sound() && db.Valid(c) && db.Tracks(want)
    }

    /** The root names the encoding of a normal-form trie, and every count away from the disk is
        the number of times its node occurs in the tries, the hashed root included. */
    ghost predicate Valid()
      reads this, db
    {
      && Wf(trie) && Normal(trie)
      && root == c.sha3(Enc(c, trie))
      && NormalRefs(c, others)
      && Ready(others + RootRefs(c, trie))
    }

    // ------------------------------------------------------------ store access

    method ForceInsertNode(b: Rlp, ghost t: Trie, ghost rest: multiset<Hash>) returns (h: Hash)
      requires b == Enc(c, t) && Ready(rest)
      modifies db`main
      ensures h == c.sha3(b) && Ready(rest + multiset{h})
    {
      h := c.sha3(b);
      db.Insert(h, b);
    }

    method ForceKillNode(h: Hash, ghost rest: multiset<Hash>)
      requires Ready(rest + multiset{h})
      modifies db`main
      ensures Ready(rest)
    {
      assert !db.OnDisk(h) ==> db.Refs(h) == rest[h] + 1;
      db.Kill(h);
      forall g | !db.OnDisk(g) ensures db.Refs(g) == rest[g] {
        assert (rest + multiset{h})[g] == rest[g] + if g == h then 1 else 0;
      }
    }

    /** Kill a node that the trie refers to, if it is large enough to be stored. */
    method KillNode(n: Rlp, ghost t: Trie, ghost rest: multiset<Hash>)
      requires n == Enc(c, t) && Ready(rest + Own(c, t))
      modifies db`main
      ensures Ready(rest)
    {
      if c.size(n) >= 32 {
        ForceKillNode(c.sha3(n), rest);
      } else {
        assert rest + Own(c, t) == rest;
      }
    }

    /** Kill a node that was never stored: it is out of normal form, so its digest has no count. */
    method KillPhantom(n: Rlp, ghost t: Trie, ghost rest: multiset<Hash>)
      requires n == Enc(c, t) && Ready(rest)
      requires c.size(n) < 32 || (!Normal(t) && NormalRefs(c, rest))
      modifies db`main
      ensures Ready(rest)
    {
      if c.size(n) >= 32 {
        Phantom(c, t, rest);
        db.Kill(c.sha3(n));
      }
    }

    method StreamNode(b: Rlp, ghost t: Trie, ghost rest: multiset<Hash>) returns (r: Ref)
      requires b == Enc(c, t) && Ready(rest + Sub(c, t))
      modifies db`main
      ensures r == RefOf(c, t) && Ready(rest + Occ(c, t))
    {
      if c.size(b) < 32 {
        r := Embed(b);
        assert rest + Occ(c, t) == rest + Sub(c, t);
      } else {
        var h := ForceInsertNode(b, t, rest + Sub(c, t));
        r := Hashed(h);
        assert rest + Occ(c, t) == rest + Sub(c, t) + multiset{h};
      }
    }

    /** Each of these digests can be looked up, and gives the node it stands for. */
    ghost predicate Held(hs: multiset<Hash>)
      reads db
    {
      forall n :: c.sha3(n) in hs ==> db.Lookup(c.sha3(n)) == Some(n)
    }

    lemma ReadyHolds(want: multiset<Hash>, hs: multiset<Hash>)
      requires Ready(want) && hs <= want
      ensures Held(hs)
    {
      forall n | c.sha3(n) in hs ensures db.Lookup(c.sha3(n)) == Some(n) { db.Readable(c, n, want); }
    }

    method Deref(r: Ref, ghost t: Trie) returns (n: Rlp)
      requires r == RefOf(c, t) && Held(Own(c, t))
      ensures n == Enc(c, t)
    {
      match r
      case NoRef => n := RNull;
      case Inline(b) => n := b;
      case Hashed(h) =>
        assert c.sha3(Enc(c, t)) in Own(c, t);
        n := db.Lookup(h).value;
    }

    // ------------------------------------------------------------------ insert

    method MergeAtAux(orig: Ref, k: Path, v: Value, ghost t: Trie, ghost rest: multiset<Hash>) returns (r: Ref)
      requires Wf(t) && Normal(t) && v != [] && orig == RefOf(c, t)
      requires NormalRefs(c, rest) && Ready(rest + Occ(c, t))
      modifies db`main
      ensures r == RefOf(c, Inserted(t, k, v)) && Ready(rest + Occ(c, Inserted(t, k, v)))
      decreases |k|, 2, 0
    {
      ReadyHolds(rest + Occ(c, t), Own(c, t));
      var n := Deref(orig, t);
      var removable := orig.Hashed?;
      if !removable { assert rest + Occ(c, t) == rest + Sub(c, t); }
      var b := MergeAt(n, k, v, !removable, t, rest);
      r := StreamNode(b, Inserted(t, k, v), rest);
    }

    /** `inl` says that orig is not stored on its own: it is inlined in its parent, or was made by
        cleve or branch a moment ago. */
    method MergeAt(orig: Rlp, k: Path, v: Value, inl: bool, ghost t: Trie, ghost rest: multiset<Hash>)
      returns (b: Rlp)
      requires Wf(t) && v != [] && orig == Enc(c, t) && BelowNormal(t)
      requires if inl then c.size(orig) < 32 || (t.Branch? && !Normal(t)) || Descends(t, k) else Normal(t)
      requires Normal(t) || t.Branch? || Descends(t, k)
      requires NormalRefs(c, rest) && Ready(rest + if inl then Sub(c, t) else Occ(c, t))
      modifies db`main
      ensures b == Enc(c, Inserted(t, k, v)) && Ready(rest + Sub(c, Inserted(t, k, v)))
      decreases |k|, if t.TwoItem() && !Descends(t, k) then 1 else 0, 3
    {
      if orig.RNull? || (orig.RBranch? && k == []) || (orig.RLeaf? && orig.path == k) {
        b := Place(orig, k, v, inl, t, rest);
      } else if orig.RBranch? || (orig.RExt? && orig.path <= k) {
        if !inl {
          assert rest + Occ(c, t) == rest + Sub(c, t) + Own(c, t);
          KillNode(orig, t, rest + Sub(c, t));
        }
        b := Delve(orig, k, v, t, rest);
      } else {
        if inl { assert rest + Occ(c, t) == rest + Sub(c, t); }
        var s := Shared(k, orig.path);
        if s > 0 {
          var cleved := Split(orig, s, t, rest);
          CleveShape(t, k, s);
          b := MergeAt(cleved, k, v, true, Cleve(t, s), rest);
        } else {
          var branched := Spread(orig, t, rest);
          BranchOutShape(t);
          b := MergeAt(branched, k, v, true, BranchOut(t), rest);
        }
      }
    }

    /** Move down to the child the key selects. */
    method Delve(orig: Rlp, k: Path, v: Value, ghost t: Trie, ghost rest: multiset<Hash>) returns (b: Rlp)
      requires Wf(t) && v != [] && orig == Enc(c, t) && BelowNormal(t)
      requires (t.Branch? && k != []) || Descends(t, k)
      requires NormalRefs(c, rest) && Ready(rest + Sub(c, t))
      modifies db`main
      ensures b == Enc(c, Inserted(t, k, v)) && Ready(rest + Sub(c, Inserted(t, k, v)))
      decreases |k|, 0, 2
    {
      if orig.RExt? {
        var r := MergeAtAux(orig.ref, k[|orig.path|..], v, t.child, rest);
        b := RExt(orig.path, r);
      } else {
        var n := k[0];
        ghost var kid := t.kids[n];
        ghost var siblings := SubKids(c, t.kids[n := Nil]);
        SubKidsNormal(c, t.kids[n := Nil]);
        BranchUpdate(c, t.kids, t.value, n, Inserted(kid, k[1..], v), rest);
        var r := MergeAtAux(orig.refs[n], k[1..], v, kid, rest + siblings);
        b := RBranch(orig.refs[n := r], orig.value);
      }
    }

    method Place(orig: Rlp, k: Path, v: Value, inl: bool, ghost t: Trie, ghost rest: multiset<Hash>) returns (b: Rlp)
      requires Wf(t) && orig == Enc(c, t) && BelowNormal(t)
      requires t.Nil? || (t.Branch? && k == []) || (t.Leaf? && t.path == k)
      requires inl ==> c.size(orig) < 32 || !Normal(t)
      requires NormalRefs(c, rest) && Ready(rest + if inl then Sub(c, t) else Occ(c, t))
      modifies db`main
      ensures b == Enc(c, Inserted(t, k, v)) && Ready(rest + Sub(c, Inserted(t, k, v)))
    {
      if inl {
        SubNormal(c, t);
        KillPhantom(orig, t, rest + Sub(c, t));
      } else {
        assert rest + Occ(c, t) == rest + Sub(c, t) + Own(c, t);
        KillNode(orig, t, rest + Sub(c, t));
      }
      match orig
      case RNull => b := RLeaf(k, v);
      case RLeaf(p, _) => b := RLeaf(p, v);
      case RBranch(refs, _) => b := RBranch(refs, v);
    }

    /** `cleve`: split a two-item node after s nibbles. */
    method Split(orig: Rlp, s: nat, ghost t: Trie, ghost rest: multiset<Hash>) returns (b: Rlp)
      requires t.TwoItem() && s <= |t.path| && orig == Enc(c, t) && Ready(rest + Occ(c, t))
      modifies db`main
      ensures b == Enc(c, Cleve(t, s)) && Ready(rest + Sub(c, Cleve(t, s)))
    {
      assert rest + Occ(c, t) == rest + Sub(c, t) + Own(c, t);
      KillNode(orig, t, rest + Sub(c, t));
      var p := orig.path[s..];
      var bottom := if orig.RLeaf? then RLeaf(p, orig.value) else RExt(p, orig.ref);
      var r := StreamNode(bottom, WithPath(t, p), rest);
      b := RExt(orig.path[..s], r);
    }

    /** `branch`: turn a two-item node into a branch. */
    method Spread(orig: Rlp, ghost t: Trie, ghost rest: multiset<Hash>) returns (b: Rlp)
      requires Wf(t) && t.TwoItem() && orig == Enc(c, t) && Ready(rest + Occ(c, t))
      modifies db`main
      ensures b == Enc(c, BranchOut(t)) && Ready(rest + Sub(c, BranchOut(t)))
    {
      assert rest + Occ(c, t) == rest + Sub(c, t) + Own(c, t);
      KillNode(orig, t, rest + Sub(c, t));
      var refs := NoRefs();
      if orig.path == [] {
        EmptyBranch(c, orig.value);
        b := RBranch(refs, orig.value);
      } else {
        var i, p := orig.path[0], orig.path[1..];
        if orig.RLeaf? || p != [] {
          var n := if orig.RLeaf? then RLeaf(p, orig.value) else RExt(p, orig.ref);
          OneChild(c, i, WithPath(t, p));
          var r := StreamNode(n, WithPath(t, p), rest);
          b := RBranch(refs[i := r], []);
        } else {
          OneChild(c, i, t.child);
          b := RBranch(refs[i := orig.ref], []);
        }
      }
    }

    /** Exchange the root for the node b, which was just built and not yet stored. A root smaller
        than 32 bytes is still there, since only large nodes are killed on the way. */
    method SwapRoot(small: bool, b: Rlp, ghost t: Trie, ghost kept: multiset<Hash>)
      requires Wf(t) && Normal(t) && b == Enc(c, t) && NormalRefs(c, others)
      requires kept == others + Sub(c, t)
      requires if small then Ready(kept + multiset{root}) else Ready(kept)
      modifies this`root, this`trie, db`main
      ensures Valid() && trie == t
    {
      if small {
        ForceKillNode(root, kept);
      }
      root := ForceInsertNode(b, t, kept);
      trie := t;
      RootSum(c, t, others);
    }

    /** The root is always stored under its digest, even when it is small. */
    lemma RootFrame(rest: multiset<Hash>)
      requires Valid()
      requires rest == if c.size(Enc(c, trie)) < 32 then others + multiset{root} else others
      ensures NormalRefs(c, rest)
      ensures rest + Occ(c, trie) == others + RootRefs(c, trie)
      ensures db.Lookup(root) == Some(Enc(c, trie))
    {
      db.Readable(c, Enc(c, trie), others + RootRefs(c, trie));
      assert NormalHash(c, trie, root);
    }

    /** Insert a non-empty value under a key. */
    method Insert(k: Path, v: Value)
      requires Valid() && v != []
      modifies this`root, this`trie, db`main
      ensures Valid() && trie == Inserted(old(trie), k, v)
    {
      var rv := db.Lookup(root).value;
      var small := c.size(rv) < 32;
      ghost var rest := if small then others + multiset{root} else others;
      RootFrame(rest);
      InsertNormal(trie, k, v);
      var b := MergeAt(rv, k, v, false, trie, rest);
      ghost var t' := Inserted(trie, k, v);
      ghost var kept := others + Sub(c, t');
      assert rest + Sub(c, t') == if small then kept + multiset{root} else kept;
      SwapRoot(small, b, t', kept);
    }

    // ------------------------------------------------------------------ remove

    method DeleteAtAux(orig: Ref, k: Path, ghost t: Trie, ghost rest: multiset<Hash>) returns (r: Option<Ref>)
      requires Wf(t) && Normal(t) && Safe(t, k) && orig == RefOf(c, t) && Ready(rest + Occ(c, t))
      modifies db`main
      ensures Deleted(t, k).None? ==> r.None? && db.main == old(db.main)
      ensures Deleted(t, k).Some? ==>
        r == Some(RefOf(c, Deleted(t, k).value)) && Ready(rest + Occ(c, Deleted(t, k).value))
      decreases t, 2
    {
      if orig.NoRef? { return None; }
      ReadyHolds(rest + Occ(c, t), Own(c, t));
      var n := Deref(orig, t);
      var b := DeleteAt(n, k, t, rest);
      if b.None? { return None; }
      var s := StreamNode(b.value, Deleted(t, k).value, rest);
      r := Some(s);
    }

    /** None: the key did not turn up and the store is untouched. */
    method DeleteAt(orig: Rlp, k: Path, ghost t: Trie, ghost rest: multiset<Hash>) returns (b: Option<Rlp>)
      requires Wf(t) && Normal(t) && Safe(t, k) && orig == Enc(c, t) && Ready(rest + Occ(c, t))
      modifies db`main
      ensures Deleted(t, k).None? ==> b.None? && db.main == old(db.main)
      ensures Deleted(t, k).Some? ==>
        b == Some(Enc(c, Deleted(t, k).value)) && Ready(rest + Sub(c, Deleted(t, k).value))
      decreases t, 1
    {
      match orig
      case RNull => b := None;
      case RLeaf(p, _) =>
        if p != k { return None; }
        assert rest + Occ(c, t) == rest + Own(c, t);
        KillNode(orig, t, rest);
        b := Some(RNull);
      case RExt(p, ref) =>
        if !(p <= k) { return None; }
        assert rest + Occ(c, t) == rest + Own(c, t) + Occ(c, t.child);
        var r := DeleteAtAux(ref, k[|p|..], t.child, rest + Own(c, t));
        if r.None? { return None; }
        ghost var x := Deleted(t.child, k[|p|..]).value;
        assert rest + Own(c, t) + Occ(c, x) == rest + Occ(c, x) + Own(c, t);
        KillNode(orig, t, rest + Occ(c, x));
        var n := JoinUp(p, r.value, x, rest);
        b := Some(n);
      case RBranch(refs, v) =>
        if k == [] && v != [] {
          b := DeleteValue(orig, t, rest);
        } else {
          b := DeleteBelow(orig, k, t, rest);
        }
    }

    /** Put an extension over a child: two two-item nodes in a row are grafted into one. */
    method JoinUp(p: Path, r: Ref, ghost x: Trie, ghost rest: multiset<Hash>) returns (b: Rlp)
      requires !x.Nil? && r == RefOf(c, x) && Ready(rest + Occ(c, x))
      modifies db`main
      ensures var y := if x.TwoItem() then Graft(p, x) else Ext(p, x);
        b == Enc(c, y) && Ready(rest + Sub(c, y))
    {
      ReadyHolds(rest + Occ(c, x), Own(c, x));
      var n := Deref(r, x);
      if n.TwoItem() {
        if r.Hashed? {
          assert rest + Occ(c, x) == rest + Sub(c, x) + multiset{r.hash};
          ForceKillNode(r.hash, rest + Sub(c, x));
        } else {
          assert rest + Occ(c, x) == rest + Sub(c, x);
        }
        b := if n.RLeaf? then RLeaf(p + n.path, n.value) else RExt(p + n.path, n.ref);
      } else {
        b := RExt(p, r);
      }
    }

    method UniqueInUse(orig: Rlp, except: nat, ghost t: Trie) returns (used: nat)
      requires t.Branch? && |t.kids| == 16 && orig == Enc(c, t)
      ensures used == Unique(t.kids, t.value, except)
    {
      used := 255;
      var i := 0;
      while i < 17
        invariant i <= 17
        invariant Unique(t.kids, t.value, except) == UniqueFrom(t.kids, t.value, except, i, used)
      {
        var inUse := if i < 16 then !orig.refs[i].NoRef? else orig.value != [];
        assert inUse == Used(t.kids, t.value, i);
        if i != except && inUse {
          if used != 255 { return 255; }
          used := i;
        }
        i := i + 1;
      }
    }

    /** Remove the value held by a branch itself. */
    method DeleteValue(orig: Rlp, ghost t: Trie, ghost rest: multiset<Hash>) returns (b: Option<Rlp>)
      requires Wf(t) && Normal(t) && t.Branch? && t.value != [] && orig == Enc(c, t)
      requires Ready(rest + Occ(c, t))
      modifies db`main
      ensures b == Some(Enc(c, Deleted(t, []).value)) && Ready(rest + Sub(c, Deleted(t, []).value))
    {
      assert rest + Occ(c, t) == rest + Sub(c, t) + Own(c, t);
      KillNode(orig, t, rest + Sub(c, t));
      var used := UniqueInUse(orig, 16, t);
      UniqueSpec(t.kids, t.value, 16);
      if used != 255 {
        OneSlot(c, t, used, 16);
        var n := JoinUp([used], orig.refs[used], t.kids[used], rest);
        b := Some(n);
      } else {
        b := Some(RBranch(orig.refs, []));
      }
    }

    /** Remove a key below a branch, and merge the branch away when one slot is left. */
    method DeleteBelow(orig: Rlp, k: Path, ghost t: Trie, ghost rest: multiset<Hash>) returns (b: Option<Rlp>)
      requires Wf(t) && Normal(t) && Safe(t, k) && t.Branch? && k != [] && orig == Enc(c, t)
      requires Ready(rest + Occ(c, t))
      modifies db`main
      ensures Deleted(t, k).None? ==> b.None? && db.main == old(db.main)
      ensures Deleted(t, k).Some? ==>
        b == Some(Enc(c, Deleted(t, k).value)) && Ready(rest + Sub(c, Deleted(t, k).value))
      decreases t, 0
    {
      var i := k[0];
      ghost var kid, siblings := t.kids[i], SubKids(c, t.kids[i := Nil]);
      ghost var above := rest + siblings + Own(c, t);
      Focus(c, t, i, rest);
      var r := DeleteAtAux(orig.refs[i], k[1..], kid, above);
      if r.None? { return None; }
      ghost var x := Deleted(kid, k[1..]).value;
      ghost var t' := Branch(t.kids[i := x], t.value);
      BranchUpdate(c, t.kids, t.value, i, x, rest);
      assert above + Occ(c, x) == rest + Sub(c, t') + Own(c, t);
      KillNode(orig, t, rest + Sub(c, t'));
      NotTheValue(t, k, x);
      var n := MergeAway(RBranch(orig.refs[i := r.value], orig.value), t', rest);
      b := Some(n);
    }

    /** Check whether removal left a branch with one slot; if so, merge it away. */
    method MergeAway(orig: Rlp, ghost t: Trie, ghost rest: multiset<Hash>) returns (b: Rlp)
      requires t.Branch? && |t.kids| == 16 && orig == Enc(c, t)
      requires !OnlyUsed(t.kids, t.value, 255, 16)
      requires Ready(rest + Sub(c, t))
      modifies db`main
      ensures b == Enc(c, Trim(t.kids, t.value)) && Ready(rest + Sub(c, Trim(t.kids, t.value)))
    {
      var used := UniqueInUse(orig, 255, t);
      UniqueSpec(t.kids, t.value, 255);
      if used == 255 {
        b := orig;
      } else {
        OneSlot(c, t, used, 255);
        b := JoinUp([used], orig.refs[used], t.kids[used], rest);
      }
    }

    /** Remove a key. An absent key changes neither the root nor the store. */
    method Remove(k: Path)
      requires Valid() && Safe(trie, k)
      modifies this`root, this`trie, db`main
      ensures Valid()
      ensures Stored(old(trie), k) ==> Deleted(old(trie), k) == Some(trie)
      ensures !Stored(old(trie), k) ==> trie == old(trie) && root == old(root) && db.main == old(db.main)
    {
      var rv := db.Lookup(root).value;
      var small := c.size(rv) < 32;
      ghost var rest := if small then others + multiset{root} else others;
      RootFrame(rest);
      DeleteLookup(trie, k, k);
      DeleteNormal(trie, k);
      var b := DeleteAt(rv, k, trie, rest);
      if b.Some? {
        ghost var t' := Deleted(trie, k).value;
        ghost var kept := others + Sub(c, t');
        assert rest + Sub(c, t') == if small then kept + multiset{root} else kept;
        SwapRoot(small, b.value, t', kept);
      }
    }

    // ------------------------------------------------------------------ lookup

    method AtAux(here: Rlp, k: Path, ghost t: Trie) returns (v: Value)
      requires Wf(t) && here == Enc(c, t) && Held(Sub(c, t))
      ensures v == Lookup(t, k)
      decreases t
    {
      match here
      case RNull => v := [];
      case RLeaf(p, w) => v := if k == p then w else [];
      case RExt(p, ref) =>
        if !(p <= k) { return []; }
        assert Own(c, t.child) <= Sub(c, t) && Sub(c, t.child) <= Sub(c, t);
        var n := Deref(ref, t.child);
        v := AtAux(n, k[|p|..], t.child);
      case RBranch(refs, w) =>
        if k == [] { return w; }
        var i := k[0];
        if refs[i].NoRef? { return []; }
        SubKidsAt'(t.kids, i);
        var n := Deref(refs[i], t.kids[i]);
        v := AtAux(n, k[1..], t.kids[i]);
    }

    lemma {:induction false} SubKidsAt'(kids: seq<Trie>, i: nat)
      requires i < |kids|
      ensures Occ(c, kids[i]) <= SubKids(c, kids)
    {
      if i > 0 { SubKidsAt'(kids[1..], i - 1); }
    }

    /** Look a key up under any root whose nodes the store holds, the current one or an earlier one. */
    method At(h: Hash, k: Path, ghost t: Trie) returns (v: Value)
      requires Wf(t) && h == c.sha3(Enc(c, t)) && Held(RootRefs(c, t))
      ensures v == Lookup(t, k)
    {
      assert c.sha3(Enc(c, t)) in RootRefs(c, t);
      v := AtAux(db.Lookup(h).value, k, t);
    }

    // --------------------------------------------------- roots, commit and rollback

    method Init()
      requires Ready(others) && NormalRefs(c, others)
      modifies this`root, this`trie, db`main
      ensures Valid() && trie == Nil && others == old(others)
    {
      root := ForceInsertNode(RNull, Nil, others);
      trie := Nil;
      RootSum(c, Nil, others);
      assert others + Sub(c, Nil) == others;
    }

    /** Every node of t, its root included, is on disk. */
    ghost predicate Durable(t: Trie)
      reads db
    {
      forall h :: h in RootRefs(c, t) ==> db.OnDisk(h)
    }

    /** The store has t under its root: on disk, in memory by references that this trie takes over, or not at all
        when t is the empty trie. */
    ghost predicate Opens(h: Hash, t: Trie)
      reads this, db
    {
      && Wf(t) && Normal(t) && h == c.sha3(Enc(c, t))
      && (Durable(t) || RootRefs(c, t) <= others || (t.Nil? && !db.Exists(h)))
    }

    /** Open a root; not ok, as RootNotFound, exactly for a root that is neither known nor the empty one. */
    method SetRoot(h: Hash, ghost t: Trie) returns (ok: bool)
      requires Ready(others) && NormalRefs(c, others)
      requires h == c.sha3(RNull) || db.Lookup(h).Some? ==> Opens(h, t)
      modifies this`root, this`trie, this`others, db`main
      ensures root == h && ok == (h == c.sha3(RNull) || old(db.Lookup(h)).Some?)
      ensures ok ==> Valid() && trie == t && db.Lookup(root) == Some(Enc(c, t))
      ensures ok ==>
        others == if old(Durable(t)) || old(!db.Exists(h)) then old(others) else old(others) - RootRefs(c, t)
      ensures !ok ==> db.main == old(db.main) && others == old(others)
    {
      root := h;
      if h == c.sha3(RNull) && !db.Exists(h) {
        EncInjective(c, t, Nil);
        Init();
      } else {
        if db.Lookup(h).None? {
          return false;
        }
        Adopt(t);
      }
      ok := true;
      assert c.sha3(Enc(c, t)) in others + RootRefs(c, t);
      db.Readable(c, Enc(c, t), others + RootRefs(c, t));
    }

    /** The references that the trie makes become its own. */
    ghost method Adopt(t: Trie)
      requires Ready(others) && NormalRefs(c, others) && Opens(root, t) && (Durable(t) || RootRefs(c, t) <= others)
      modifies this`trie, this`others
      ensures Valid() && trie == t
      ensures others == if Durable(t) then old(others) else old(others) - RootRefs(c, t)
    {
      if Durable(t) {
        DurableAdds(t);
      } else {
        FewerRefs(c, others, RootRefs(c, t));
        others := others - RootRefs(c, t);
      }
      trie := t;
    }

    /** Nodes on disk are not counted. */
    lemma DurableAdds(t: Trie)
      requires Ready(others) && Durable(t)
      ensures Ready(others + RootRefs(c, t))
    {
      forall h | !db.OnDisk(h) ensures db.Refs(h) == (others + RootRefs(c, t))[h] {
        assert h !in RootRefs(c, t);
      }
    }

    /** A durable root stays readable whatever happens in memory. */
    lemma DurableIsHeld(t: Trie)
      requires c.Sound() && db.Valid(c) && Durable(t)
      ensures Held(RootRefs(c, t))
    {
      forall n | c.sha3(n) in RootRefs(c, t) ensures db.Lookup(c.sha3(n)) == Some(n) {
        assert db.OnDisk(c.sha3(n));
        assert db.Lookup(c.sha3(n)).Some? && c.sha3(db.Lookup(c.sha3(n)).value) == c.sha3(n);
        assert c.preimage(c.sha3(db.Lookup(c.sha3(n)).value)) == n;
      }
    }

    /** Commit keeps the trie valid, makes it durable, and keeps every durable root durable. */
    method CommitState()
      requires Valid() && db.disk.Some?
      modifies db
      ensures Valid() && Durable(trie) && db.disk.Some?
      ensures forall t :: old(Durable(t)) ==> Durable(t)
      ensures forall t :: Durable(t) ==> Held(RootRefs(c, t))
    {
      ghost var want := others + RootRefs(c, trie);
      db.Commit(c, want);
      assert forall h :: h in RootRefs(c, trie) ==> h in want;
      forall t | Durable(t) ensures Held(RootRefs(c, t)) { DurableIsHeld(t); }
    }

    method RollbackTo(h: Hash, ghost t: Trie)
      requires c.Sound() && db.Valid(c) && NormalRefs(c, others)
      requires Wf(t) && Normal(t) && h == c.sha3(Enc(c, t)) && Durable(t)
      modifies this`root, this`trie, this`others, db`main
      ensures Valid() && trie == t && root == h
      ensures others == if forall x :: x in old(others) ==> db.OnDisk(x) then old(others) else multiset{}
      ensures forall u :: old(Durable(u)) ==> Durable(u) && Held(RootRefs(c, u))
    {
      DropMemory();
      ReopenDurable(h, t);
      DurablesAreHeld();
    }

    method ReopenDurable(h: Hash, ghost t: Trie)
      requires Ready(others) && NormalRefs(c, others)
      requires Wf(t) && Normal(t) && h == c.sha3(Enc(c, t)) && Durable(t)
      modifies this`root, this`trie, this`others, db`main
      ensures Valid() && trie == t && root == h && others == old(others)
    {
      assert c.sha3(Enc(c, t)) in RootRefs(c, t);
      var ok := SetRoot(h, t);
    }

    method DropMemory()
      requires c.Sound() && db.Valid(c) && NormalRefs(c, others)
      modifies this`others, db`main
      ensures Ready(others) && NormalRefs(c, others)
      ensures others == if forall x :: x in old(others) ==> db.OnDisk(x) then old(others) else multiset{}
      ensures forall u :: old(Durable(u)) <==> Durable(u)
    {
      db.Rollback();
      if exists x :: x in others && !db.OnDisk(x) {
        others := multiset{};
      }
    }

    lemma DurablesAreHeld()
      requires c.Sound() && db.Valid(c)
      ensures forall t :: Durable(t) ==> Held(RootRefs(c, t))
    {
      forall t | Durable(t) ensures Held(RootRefs(c, t)) { DurableIsHeld(t); }
    }

    // ------------------------------------------------------------------- check

    method DescendKey(h: Hash, mask: set<Hash>, wasExt: bool, ghost t: Trie) returns (ok: bool, left: set<Hash>)
      requires Wf(t) && Normal(t) && h == c.sha3(Enc(c, t)) && Held(RootRefs(c, t))
      requires c.Sound() && (t.Nil? ==> h == root) && (wasExt ==> t.Branch?)
      ensures ok && Missed(left, mask, RootRefs(c, t))
      decreases t, 1
    {
      left := mask - {h};
      ok := true;
      if h == root && h == c.sha3(RNull) {
        EncInjective(c, t, Nil);
      } else {
        assert c.sha3(Enc(c, t)) in RootRefs(c, t);
        ok, left := DescendList(db.Lookup(h).value, left, wasExt, t);
      }
    }

    method DescendEntry(r: Ref, mask: set<Hash>, wasExt: bool, ghost t: Trie) returns (ok: bool, left: set<Hash>)
      requires Wf(t) && Normal(t) && !t.Nil? && r == RefOf(c, t) && Held(Occ(c, t))
      requires c.Sound() && (wasExt ==> t.Branch?)
      ensures ok && Missed(left, mask, Occ(c, t))
      decreases t, 2
    {
      match r
      case Hashed(h) => ok, left := DescendKey(h, mask, wasExt, t);
      case Inline(n) => ok, left := DescendList(n, mask, wasExt, t);
    }

    method DescendList(n: Rlp, mask: set<Hash>, wasExt: bool, ghost t: Trie) returns (ok: bool, left: set<Hash>)
      requires Wf(t) && Normal(t) && !t.Nil? && n == Enc(c, t) && Held(Sub(c, t))
      requires c.Sound() && (wasExt ==> t.Branch?)
      ensures ok && Missed(left, mask, Sub(c, t))
      decreases t, 0, 2
    {
      ok, left := true, mask;
      if n.TwoItem() && !wasExt {
        if n.RExt? {
          ok, left := DescendEntry(n.ref, mask, true, t.child);
        }
      } else if n.RBranch? {
        ok, left := DescendKids(n, mask, t);
      } else {
        ok := false;
      }
    }

    method DescendKids(n: Rlp, mask: set<Hash>, ghost t: Trie) returns (ok: bool, left: set<Hash>)
      requires Wf(t) && Normal(t) && t.Branch? && n == Enc(c, t) && Held(SubKids(c, t.kids)) && c.Sound()
      ensures ok && Missed(left, mask, SubKids(c, t.kids))
      decreases t, 0, 1
    {
      ok, left := true, mask;
      var i := 0;
      while i < 16
        invariant i <= 16 && ok
        invariant Missed(left, mask, SubKids(c, t.kids[..i]))
      {
        ghost var seen := left;
        ok, left := DescendSlot(n.refs[i], left, t, i);
        MissedKid(c, left, seen, mask, t.kids, i);
        i := i + 1;
      }
      assert t.kids[..16] == t.kids;
    }

    method DescendSlot(r: Ref, mask: set<Hash>, ghost t: Trie, ghost i: nat) returns (ok: bool, left: set<Hash>)
      requires Wf(t) && Normal(t) && t.Branch? && i < 16 && r == RefOf(c, t.kids[i]) && c.Sound()
      requires Held(SubKids(c, t.kids))
      ensures ok && Missed(left, mask, Occ(c, t.kids[i]))
      decreases t, 0, 0
    {
      ok, left := true, mask;
      if !r.NoRef? {
        SubKidsAt'(t.kids, i);
        ok, left := DescendEntry(r, mask, false, t.kids[i]);
      }
    }

    /** Live digests that the walk from the root does not meet. */
    method LeftOvers() returns (ok: bool, left: set<Hash>)
      requires Valid()
      ensures ok && left == set h | h in db.main && db.Refs(h) > 0 && h !in RootRefs(c, trie)
    {
      var keys := db.Keys();
      ReadyHolds(others + RootRefs(c, trie), RootRefs(c, trie));
      ok, left := DescendKey(root, keys, false, trie);
    }

    /** The scan of a valid trie finds fault only with live nodes that the trie does not hold. In a memory store with
        one trie there are none: nothing reachable is lost and nothing else is left. */
    method Check(requireNoLeftOvers: bool) returns (r: bool)
      requires Valid()
      ensures r <==> !requireNoLeftOvers || forall h :: db.Refs(h) > 0 ==> h in RootRefs(c, trie)
      ensures db.disk.None? && others == multiset{} ==> r
    {
      var ok, left := LeftOvers();
      r := ok && (left == {} || !requireNoLeftOvers);
      if forall h :: db.Refs(h) > 0 ==> h in RootRefs(c, trie) {
        assert left == {};
      } else {
        ghost var h :| db.Refs(h) > 0 && h !in RootRefs(c, trie);
        assert h in left;
      }
      if db.disk.None? && others == multiset{} {
        forall h | db.Refs(h) > 0 ensures h in RootRefs(c, trie) {
          assert db.Refs(h) == (others + RootRefs(c, trie))[h];
        }
      }
    }
  }

  lemma FewerRefs(c: Codec, refs: multiset<Hash>, some: multiset<Hash>)
    requires NormalRefs(c, refs) && some <= refs
    ensures NormalRefs(c, refs - some) && refs - some + some == refs
  {
    forall h | h in refs - some ensures exists t :: NormalHash(c, t, h) { assert h in refs; }
  }

  lemma {:induction false} SubKidsSnoc(c: Codec, kids: seq<Trie>, i: nat)
    requires c.Sound() && i < |kids|
    ensures SubKids(c, kids[..i + 1]) == SubKids(c, kids[..i]) + Occ(c, kids[i])
  {
    if i == 0 {
      assert kids[..1][1..] == [];
    } else {
      assert kids[..i + 1][1..] == kids[1..][..i] && kids[..i][1..] == kids[1..][..i - 1];
      SubKidsSnoc(c, kids[1..], i - 1);
    }
  }

  /** What a walk that meets hs leaves of a mask. */
  ghost predicate Missed(left: set<Hash>, mask: set<Hash>, hs: multiset<Hash>) {
    forall g :: g in left <==> g in mask && g !in hs
  }

  lemma MissedKid(c: Codec, left: set<Hash>, seen: set<Hash>, mask: set<Hash>, kids: seq<Trie>, i: nat)
    requires c.Sound() && i < |kids|
    requires Missed(seen, mask, SubKids(c, kids[..i])) && Missed(left, seen, Occ(c, kids[i]))
    ensures Missed(left, mask, SubKids(c, kids[..i + 1]))
  {
    SubKidsSnoc(c, kids, i);
  }

  // ------------------------------------------------------------- shapes on the way

  /** What cleve makes is not in normal form, but goes on below for the key that made it. */
  lemma CleveShape(t: Trie, k: Path, s: nat)
    requires Wf(t) && Normal(t) && t.TwoItem() && !Descends(t, k)
    requires s == Shared(k, t.path) > 0
    ensures Wf(Cleve(t, s)) && BelowNormal(Cleve(t, s)) && Descends(Cleve(t, s), k)
  {
    SharedSpec(k, t.path);
    CleveLookup(t, s, []);
  }

  /** What branch makes has one used slot. */
  lemma BranchOutShape(t: Trie)
    requires Wf(t) && Normal(t) && t.TwoItem()
    ensures Wf(BranchOut(t)) && BelowNormal(BranchOut(t)) && !Normal(BranchOut(t))
  {
    BranchOutLookup(t, []);
  }

  lemma {:induction false} Focus(c: Codec, t: Trie, i: nat, rest: multiset<Hash>)
    requires c.Sound() && t.Branch? && i < |t.kids|
    ensures rest + Occ(c, t) == rest + SubKids(c, t.kids[i := Nil]) + Own(c, t) + Occ(c, t.kids[i])
  {
    SubKidsAt(c, t.kids, i);
    assert Occ(c, t) == SubKids(c, t.kids) + Own(c, t);
  }

  /** With one slot left, the references below are that child's. */
  lemma OneSlot(c: Codec, t: Trie, u: nat, except: nat)
    requires c.Sound() && t.Branch? && |t.kids| == 16 && u < 16 && except >= 16 && OnlyUsed(t.kids, t.value, except, u)
    ensures Sub(c, t) == Occ(c, t.kids[u])
  {
    forall j: nat | j < 16 && j != u ensures t.kids[j].Nil? { assert !Used(t.kids, t.value, j); }
    LoneChild(c, t.kids, u);
  }

  /** On a safe walk the slot left over is never the branch's value. */
  lemma NotTheValue(t: Trie, k: Path, x: Trie)
    requires Wf(t) && Normal(t) && Safe(t, k) && t.Branch? && k != []
    requires Deleted(t.kids[k[0]], k[1..]) == Some(x)
    ensures !OnlyUsed(t.kids[k[0] := x], t.value, 255, 16)
  {
    var kids' := t.kids[k[0] := x];
    if OnlyUsed(kids', t.value, 255, 16) {
      assert !Used(kids', t.value, k[0]);
      var j :| 0 <= j < 16 && j != k[0] && !t.kids[j].Nil?;
      assert Used(kids', t.value, j);
      assert false;
    }
  }
}
