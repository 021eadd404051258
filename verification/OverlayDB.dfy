/** The reference-counted node store, in memory and over a disk. With no disk behind it the
    overlay is the plain memory store. */
module OverlayDB {
  import opened TrieCodec
  import opened Basics

  datatype Entry = Entry(node: Rlp, count: nat)

  class Overlay {
    var main: map<Hash, Entry>
    var disk: Option<map<Hash, Rlp>>
    var enforceRefs: bool

    constructor (disk: Option<map<Hash, Rlp>>)
      ensures this.disk == disk && main == map[] && !enforceRefs
    {
      this.disk := disk;
      main := map[];
      enforceRefs := false;
    }

    /** Every digest names the node it is the digest of. */
    ghost predicate Valid(c: Codec)
      reads this
    {
      && (forall h :: h in main ==> c.sha3(main[h].node) == h)
      && (disk.Some? ==> forall h :: h in disk.value ==> c.sha3(disk.value[h]) == h)
    }

    function Refs(h: Hash): nat
      reads this
    {
      if h in main then main[h].count else 0
    }

    predicate OnDisk(h: Hash)
      reads this
    {
      disk.Some? && h in disk.value
    }

    /** Away from the disk, the counts are exactly these. */
    ghost predicate Tracks(want: multiset<Hash>)
      reads this
    {
      forall h :: !OnDisk(h) ==> Refs(h) == want[h]
    }

    function MemoryLookup(h: Hash): Option<Rlp>
      reads this
    {
      if h in main && (!enforceRefs || main[h].count > 0) then Some(main[h].node) else None
    }

    function Lookup(h: Hash): Option<Rlp>
      reads this
    {
      if MemoryLookup(h).Some? then MemoryLookup(h)
      else if OnDisk(h) then Some(disk.value[h])
      else None
    }

    predicate Exists(h: Hash): (b: bool)
      reads this
      ensures b <==> Lookup(h).Some?
    {
      (h in main && (!enforceRefs || main[h].count > 0)) || OnDisk(h)
    }

    /** A tracked digest can always be looked up, and gives the one node with that digest. */
    lemma Readable(c: Codec, n: Rlp, want: multiset<Hash>)
      requires c.Sound() && Valid(c) && Tracks(want)
      requires c.sha3(n) in want || OnDisk(c.sha3(n))
      ensures Lookup(c.sha3(n)) == Some(n)
    {
      var h := c.sha3(n);
      assert !OnDisk(h) ==> Refs(h) == want[h] > 0;
    }

    method Insert(h: Hash, v: Rlp)
      modifies this`main
      ensures main == old(main)[h := Entry(v, old(Refs(h)) + 1)]
    {
      if h in main {
        main := main[h := Entry(v, main[h].count + 1)];
      } else {
        main := main[h := Entry(v, 1)];
      }
    }

    method Kill(h: Hash)
      modifies this`main
      ensures main == if old(Refs(h)) > 0 then old(main)[h := Entry(old(main)[h].node, old(Refs(h)) - 1)] else old(main)
    {
      if h in main {
        if main[h].count > 0 {
          main := main[h := Entry(main[h].node, main[h].count - 1)];
        }
      }
    }

    /** Digests with a live count. */
    method Keys() returns (r: set<Hash>)
      ensures r == set h | h in main && main[h].count > 0
    {
      r := {};
      var todo := main.Keys;
      while todo != {}
        invariant todo <= main.Keys
        invariant r == set h | h in main && h !in todo && main[h].count > 0
      {
        var h :| h in todo;
        if main[h].count > 0 { r := r + {h}; }
        todo := todo - {h};
      }
    }

    method Purge()
      modifies this`main
      ensures main == map h | h in old(main) && old(main)[h].count > 0 :: old(main)[h]
    {
      var todo := main.Keys;
      while todo != {}
        invariant todo <= main.Keys && main.Keys <= old(main).Keys
        invariant forall h :: h in main <==> h in old(main) && (h in todo || old(main)[h].count > 0)
        invariant forall h :: h in main ==> main[h] == old(main)[h]
      {
        var h :| h in todo;
        if main[h].count == 0 { main := main - {h}; }
        todo := todo - {h};
      }
    }

    /** Write every live node to disk and forget the memory layer. Nothing that was referenced or
        on disk is lost: lookups of such nodes do not change. */
    method Commit(ghost c: Codec, ghost want: multiset<Hash>)
      requires c.Sound() && Valid(c) && Tracks(want)
      modifies this`main, this`disk
      ensures Valid(c) && Tracks(want)
      ensures disk.None? ==> disk == old(disk) && main == old(main)
      ensures disk.Some? == old(disk.Some?)
      ensures disk.Some? ==> main == map[] && forall h :: OnDisk(h) <==> old(OnDisk(h)) || old(Refs(h)) > 0
      ensures disk.Some? ==> forall h :: h in want ==> OnDisk(h)
      ensures forall h :: h in want || old(OnDisk(h)) ==> Lookup(h) == old(Lookup(h))
    {
      if disk.Some? {
        assert forall h :: h in want && !OnDisk(h) ==> Refs(h) == want[h] > 0;
        WriteOut(c);
      }
    }

    /** The live nodes go to disk, and keep their lookups. */
    method WriteOut(ghost c: Codec)
      requires c.Sound() && Valid(c) && disk.Some?
      modifies this`main, this`disk
      ensures Valid(c) && disk.Some? && main == map[]
      ensures forall h :: OnDisk(h) <==> old(OnDisk(h)) || old(Refs(h)) > 0
      ensures forall h :: OnDisk(h) ==> Lookup(h) == old(Lookup(h))
    {
      var batch := Batch();
      ghost var was := Lookups(disk.value.Keys + batch.Keys);
      disk := Some(disk.value + batch);
      main := map[];
      forall h | h in was ensures Lookup(h) == was[h] {
        assert c.sha3(was[h].value) == h == c.sha3(Lookup(h).value);
        assert c.preimage(h) == was[h].value == Lookup(h).value;
      }
    }

    /** The live nodes. */
    method Batch() returns (batch: map<Hash, Rlp>)
      ensures forall h :: h in batch <==> h in main && main[h].count > 0
      ensures forall h :: h in batch ==> batch[h] == main[h].node
    {
      batch := map[];
      var todo := main.Keys;
      while todo != {}
        invariant todo <= main.Keys
        invariant forall h :: h in batch <==> h in main && h !in todo && main[h].count > 0
        invariant forall h :: h in batch ==> batch[h] == main[h].node
      {
        var h :| h in todo;
        if main[h].count > 0 { batch := batch[h := main[h].node]; }
        todo := todo - {h};
      }
    }

    ghost function Lookups(hs: set<Hash>): map<Hash, Option<Rlp>>
      reads this
    {
      map h | h in hs :: Lookup(h)
    }

    method Rollback()
      modifies this`main
      ensures main == map[]
      ensures forall h :: Lookup(h) == if OnDisk(h) then Some(disk.value[h]) else None
    {
      main := map[];
    }
  }
}
