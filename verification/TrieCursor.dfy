/** The cursor over a stored trie: a trail of nodes from the root to the current entry. */
module TrieCursor {
  import opened Basics
  import opened Nibbles
  import opened MerkleTrie
  import opened TrieDelete
  import opened TrieCodec
  import opened TrieOrder
  import opened TrieDB

  const ENTERING := 255
  const AT_NODE := 16
  const EXITING := 17

  /** A node on the trail, the key that leads to it, and the child the cursor is at. */
  datatype TrailNode = TrailNode(node: Rlp, key: Path, child: nat)

  function NextChild(child: nat): nat {
    if child == AT_NODE then 0 else if child == 15 then EXITING else child + 1
  }

  /** "Are we strictly before this prefix?", nibble by nibble. */
  method IsEarlierThan(k: Path, p: Path) returns (r: bool)
    ensures r == Less(k, p)
  {
    SharedSpec(k, p);
    var i := 0;
    while i < |p| && i < |k|
      invariant i <= Shared(k, p)
    {
      if k[i] != p[i] { Agrees(k, p, i); }
      if k[i] < p[i] { return true; }
      if k[i] > p[i] { return false; }
      Agrees(k, p, i);
      i := i + 1;
    }
    r := i < |p|;
  }

  lemma Agrees(a: Path, b: Path, i: nat)
    requires i <= Shared(a, b) && i < |a| && i < |b|
    ensures a[i] == b[i] <==> i < Shared(a, b)
  {
    SharedSpec(a, b);
    if i < Shared(a, b) { assert a[..Shared(a, b)][i] == b[..Shared(a, b)][i]; }
  }

  // ------------------------------------------------ what is still to be visited

  /** Entries of a branch when slot `child` is the next to look at. */
  function From(t: Trie, key: Path, child: nat): seq<Pair>
    requires Wf(t) && t.Branch?
  {
    if child == AT_NODE then (if t.value != [] then [Pair(key, t.value)] else []) + EntriesFrom(t, key, 0)
    else if child < 16 then EntriesFrom(t, key, child)
    else []
  }

  function Pending(n: TrailNode, t: Trie): seq<Pair>
    requires Wf(t)
  {
    if n.child == ENTERING then Entries(t, n.key)
    else if t.Branch? then From(t, n.key, NextChild(n.child))
    else []
  }

  ghost predicate AllWf(us: seq<Trie>) {
    forall i | 0 <= i < |us| :: Wf(us[i])
  }

  /** Top of the trail first, down to the root. */
  function Rest(ts: seq<TrailNode>, us: seq<Trie>): seq<Pair>
    requires |ts| == |us| && AllWf(us)
    decreases |ts|
  {
    if ts == [] then [] else
      var n := |ts| - 1;
      Pending(ts[n], us[n]) + Rest(ts[..n], us[..n])
  }

  lemma RestPush(ts: seq<TrailNode>, us: seq<Trie>, n: TrailNode, t: Trie)
    requires |ts| == |us| && AllWf(us) && Wf(t)
    ensures Rest(ts + [n], us + [t]) == Pending(n, t) + Rest(ts, us)
    ensures Work(ts + [n], us + [t]) == NodeWork(n, t) + Work(ts, us)
  {
    assert (ts + [n])[..|ts|] == ts && (us + [t])[..|us|] == us;
  }

  // ---------------------------------------------------------------- termination

  function Effort(t: Trie): nat
    requires Wf(t)
    decreases t, 17
  {
    match t
    case Nil => 1
    case Leaf(_, _) => 1
    case Ext(_, c) => 1 + Effort(c)
    case Branch(_, _) => 3 + SlotEffort(t, 0)
  }

  function SlotEffort(t: Trie, i: nat): nat
    requires Wf(t) && t.Branch? && i <= 16
    decreases t, 16 - i
  {
    if i == 16 then 0 else 1 + Effort(t.kids[i]) + SlotEffort(t, i + 1)
  }

  function FromEffort(t: Trie, child: nat): nat
    requires Wf(t) && t.Branch?
  {
    if child == AT_NODE then 1 + SlotEffort(t, 0) else if child < 16 then SlotEffort(t, child) else 0
  }

  function NodeWork(n: TrailNode, t: Trie): nat
    requires Wf(t)
  {
    if n.child == ENTERING then Effort(t)
    else if t.Branch? then 1 + FromEffort(t, NextChild(n.child))
    else 1
  }

  function Work(ts: seq<TrailNode>, us: seq<Trie>): nat
    requires |ts| == |us| && AllWf(us)
    decreases |ts|
  {
    if ts == [] then 0 else
      var n := |ts| - 1;
      NodeWork(ts[n], us[n]) + Work(ts[..n], us[..n])
  }

  /** What is to come while k of the sought key is still to match at the top of the trail. */
  function Coming(ts: seq<TrailNode>, us: seq<Trie>, k: Path): seq<Pair>
    requires |ts| == |us| && AllWf(us)
  {
    if ts != [] && ts[|ts| - 1].child == ENTERING then
      Seek(us[|us| - 1], ts[|ts| - 1].key, k) + Rest(ts[..|ts| - 1], us[..|us| - 1])
    else Rest(ts, us)
  }

  lemma ComingPush(ts: seq<TrailNode>, us: seq<Trie>, n: TrailNode, t: Trie, k: Path)
    requires |ts| == |us| && AllWf(us) && Wf(t)
    ensures Coming(ts + [n], us + [t], k) == (if n.child == ENTERING then Seek(t, n.key, k) else Pending(n, t)) +
      Rest(ts, us)
    ensures Work(ts + [n], us + [t]) == NodeWork(n, t) + Work(ts, us)
  {
    RestPush(ts, us, n, t);
    assert (ts + [n])[..|ts|] == ts && (us + [t])[..|us|] == us;
  }

  /** A key is left to match only while a node is being entered. */
  predicate Settled(ts: seq<TrailNode>, k: Path) {
    k != [] ==> ts != [] && ts[|ts| - 1].child == ENTERING
  }

  /** One round changes nothing of what is to come, and is a round nearer the end. */
  ghost predicate Onward(ts: seq<TrailNode>, us: seq<Trie>, k: Path, es: seq<Pair>, work: nat) {
    |ts| == |us| && AllWf(us) && Settled(ts, k) && Coming(ts, us, k) == es && Work(ts, us) < work
  }

  /** After a node is left, nothing is to match and the rest is to come. */
  lemma Popped(ts: seq<TrailNode>, us: seq<Trie>, work: nat)
    requires |ts| == |us| && AllWf(us) && Work(ts, us) < work
    ensures Onward(ts, us, [], Rest(ts, us), work)
  {
  }

  lemma Entered(ts: seq<TrailNode>, us: seq<Trie>, n: TrailNode, t: Trie, k: Path, work: nat)
    requires |ts| == |us| && AllWf(us) && Wf(t) && n.child == ENTERING
    requires Effort(t) + Work(ts, us) < work
    ensures Onward(ts + [n], us + [t], k, Seek(t, n.key, k) + Rest(ts, us), work)
  {
    ComingPush(ts, us, n, t, k);
  }

  /** Entering slot `child` of a branch. */
  lemma SlotEntered(ts: seq<TrailNode>, us: seq<Trie>, n: TrailNode, t: Trie, child: nat, k: Path, node: Rlp)
    requires |ts| == |us| && AllWf(us) && Wf(t) && t.Branch? && child < 16
    ensures var m, e := n.(child := child), TrailNode(node, n.key + [child], ENTERING);
      Onward(ts + [m] + [e], us + [t] + [t.kids[child]], k,
        SeekFrom(t, n.key, child, k) + Rest(ts, us), 1 + FromEffort(t, child) + Work(ts, us))
  {
    var m, e, kid := n.(child := child), TrailNode(node, n.key + [child], ENTERING), t.kids[child];
    RestPush(ts, us, m, t);
    Entered(ts + [m], us + [t], e, kid, k, 1 + FromEffort(t, child) + Work(ts, us));
    SlotAfter(t, n.key, child);
    Concat(Seek(kid, e.key, k), EntriesFrom(t, n.key, child + 1), Rest(ts, us));
  }

  /** At a branch with a value, that value comes first and the slots after it. */
  lemma AtValue(ts: seq<TrailNode>, us: seq<Trie>, m: TrailNode, t: Trie)
    requires |ts| == |us| && AllWf(us) && Wf(t) && t.Branch? && t.value != [] && m.child == AT_NODE
    ensures var es := SeekFrom(t, m.key, AT_NODE, []) + Rest(ts, us);
      es != [] && es[0] == Pair(m.key, t.value) && es[1..] == Rest(ts + [m], us + [t])
  {
    RestPush(ts, us, m, t);
    HeadFirst(Pair(m.key, t.value), EntriesFrom(t, m.key, 0), Rest(ts, us));
  }

  lemma HeadFirst(e: Pair, b: seq<Pair>, c: seq<Pair>)
    ensures var es := [e] + b + c; es[0] == e && es[1..] == b + c
  {
  }

  lemma Concat(a: seq<Pair>, b: seq<Pair>, c: seq<Pair>)
    ensures a + (b + c) == a + b + c
  {
  }

  lemma SlotAfter(t: Trie, key: Path, child: nat)
    requires Wf(t) && t.Branch? && child < 16
    ensures From(t, key, NextChild(child)) == EntriesFrom(t, key, child + 1)
    ensures FromEffort(t, NextChild(child)) == SlotEffort(t, child + 1)
    ensures FromEffort(t, child) == 1 + Effort(t.kids[child]) + SlotEffort(t, child + 1)
  {
  }

  /** What entering or leaving a branch makes of its slots. */
  lemma BranchSlots(n: TrailNode, t: Trie, k: Path)
    requires Wf(t) && t.Branch? && (n.child == ENTERING || (n.child <= AT_NODE && k == []))
    ensures n.child == ENTERING && k != [] ==>
      Seek(t, n.key, k) == SeekFrom(t, n.key, k[0], k[1..]) && 1 + FromEffort(t, k[0]) < Effort(t)
    ensures n.child == ENTERING && k == [] ==>
      Seek(t, n.key, k) == SeekFrom(t, n.key, AT_NODE, []) && 1 + FromEffort(t, AT_NODE) < Effort(t)
    ensures n.child != ENTERING ==>
      Pending(n, t) == SeekFrom(t, n.key, NextChild(n.child), []) &&
        1 + FromEffort(t, NextChild(n.child)) == NodeWork(n, t)
  {
    if k != [] { SlotEffortDown(t, 0, k[0]); }
  }

  lemma {:induction false} SlotEffortDown(t: Trie, i: nat, j: nat)
    requires Wf(t) && t.Branch? && i <= j <= 16
    ensures SlotEffort(t, j) <= SlotEffort(t, i)
    decreases j - i
  {
    if i < j { SlotEffortDown(t, i + 1, j); }
  }

  lemma SeekPath(t: Trie, key: Path, k: Path)
    requires Wf(t) && t.TwoItem()
    ensures (if t.path <= k then t.Leaf? && k != t.path else !Less(k, t.path)) ==> Seek(t, key, k) == []
    ensures t.Leaf? && (t.path == k || (!(t.path <= k) && Less(k, t.path))) ==> Seek(t, key, k) == Entries(t, key)
    ensures t.Ext? && t.path <= k ==> Seek(t, key, k) == Seek(t.child, key + t.path, k[|t.path|..])
    ensures t.Ext? && !(t.path <= k) && Less(k, t.path) ==> Seek(t, key, k) == Seek(t.child, key + t.path, [])
  {
    if t.path <= k && k != t.path {
      SharedSpec(k, t.path);
      assert k == t.path + k[|t.path|..] && t.path == t.path + [];
      LessPrefix(t.path, k[|t.path|..], []);
    }
  }

  // --------------------------------------------------------------------- cursor

  class Iterator {
    const that: GenericTrieDB
    var trail: seq<TrailNode>
    ghost var tries: seq<Trie>

    ghost predicate NodeOk(n: TrailNode, t: Trie)
      reads that.db
    {
      && Wf(t) && n.node == Enc(that.c, t) && that.Held(Sub(that.c, t))
      && (n.child == ENTERING || (t.Branch? && n.child <= AT_NODE) || (t.Leaf? && n.child == 0))
    }

    ghost predicate Valid()
      reads this, that.db
    {
      |trail| == |tries| && AllWf(tries) && forall i | 0 <= i < |trail| :: NodeOk(trail[i], tries[i])
    }

    /** Entries that come after the current one. */
    ghost function Ahead(): seq<Pair>
      requires Valid()
      reads this, that.db
    {
      Rest(trail, tries)
    }

    /** The cursor stands on e. */
    ghost predicate StandsOn(e: Pair)
      requires Valid()
      reads this, that.db
    {
      && trail != []
      && var n, t := trail[|trail| - 1], tries[|tries| - 1];
      n.key == e.key &&
        ((t.Leaf? && n.child == 0 && t.value == e.value) || (t.Branch? && n.child == AT_NODE && t.value == e.value))
    }

    /** The outcome of a move when `es` was to come: the first of them, or the end. */
    ghost predicate Moved(es: seq<Pair>)
      reads this, that.db
    {
      Valid() && if es == [] then trail == [] else StandsOn(es[0]) && Ahead() == es[1..]
    }

    /** The node on top is n, for t, over the trail ts. */
    ghost predicate Top(n: TrailNode, t: Trie, ts: seq<TrailNode>, us: seq<Trie>)
      reads this, that.db
    {
      Valid() && trail == ts + [n] && tries == us + [t] && |ts| == |us| && AllWf(us) && NodeOk(n, t)
    }

    method SetTop(n: TrailNode, ghost t: Trie, ghost m: TrailNode, ghost u: Trie, ghost ts: seq<TrailNode>,
      ghost us: seq<Trie>)
      requires Top(m, u, ts, us) && NodeOk(n, t)
      modifies this`trail, this`tries
      ensures Top(n, t, ts, us)
    {
      assert trail[..|trail| - 1] == ts && tries[..|tries| - 1] == us;
      trail := trail[..|trail| - 1] + [n];
      tries := tries[..|tries| - 1] + [t];
    }

    lemma HeldBelow(t: Trie, c: Trie, i: nat)
      requires that.Held(Sub(that.c, t))
      requires (t.Ext? && c == t.child) || (t.Branch? && i < |t.kids| && c == t.kids[i])
      ensures that.Held(Own(that.c, c)) && that.Held(Sub(that.c, c))
    {
      if t.Branch? { that.SubKidsAt'(t.kids, i); }
      assert Occ(that.c, c) <= Sub(that.c, t);
    }

    // ---------------------------------------------------------------- moving on

    /** The first used slot from `start` on; an empty slot ends the match. */
    method FindSlot(n: TrailNode, ghost t: Trie, start: nat, k: Path) returns (child: nat, k': Path)
      requires Wf(t) && t.Branch? && n.node == Enc(that.c, t)
      requires start <= EXITING && (k != [] ==> start < 16)
      ensures child <= EXITING && (k' != [] ==> child < 16)
      ensures child < 16 ==> !t.kids[child].Nil?
      ensures child == AT_NODE ==> t.value != []
      ensures SeekFrom(t, n.key, child, k') == SeekFrom(t, n.key, start, k)
      ensures FromEffort(t, child) <= FromEffort(t, start)
    {
      child, k' := start, k;
      while child != EXITING && (if child == AT_NODE then n.node.value == [] else n.node.refs[child].NoRef?)
        invariant child <= EXITING && (k' != [] ==> child < 16)
        invariant SeekFrom(t, n.key, child, k') == SeekFrom(t, n.key, start, k)
        invariant FromEffort(t, child) <= FromEffort(t, start)
        decreases if child == AT_NODE then 99 else 17 - child
      {
        if child < 16 { assert n.node.refs[child] == RefOf(that.c, t.kids[child]); }
        SkipEmpty(t, n.key, child, k');
        k' := [];
        child := NextChild(child);
      }
      if child < 16 { assert n.node.refs[child] == RefOf(that.c, t.kids[child]); }
    }

    /** Look at the slots of the branch on top from `start` on: stop at its value, enter the first
        used child, or leave the branch. */
    method ScanSlots(start: nat, k: Path, ghost n0: TrailNode, ghost t: Trie, ghost ts: seq<TrailNode>,
      ghost us: seq<Trie>)
      returns (found: bool, k': Path)
      requires Top(n0, t, ts, us) && t.Branch? && start <= EXITING && (k != [] ==> start < 16)
      modifies this`trail, this`tries
      ensures var es := SeekFrom(t, n0.key, start, k) + Rest(ts, us);
        if found then Moved(es)
        else Valid() && Onward(trail, tries, k', es, 1 + FromEffort(t, start) + Work(ts, us))
    {
      var n := trail[|trail| - 1];
      var child;
      child, k' := FindSlot(n, t, start, k);
      found := child == AT_NODE;
      if child == EXITING {
        k' := [];
        Leave(n, t, ts, us, 1 + FromEffort(t, start) + Work(ts, us));
      } else if child == AT_NODE {
        StopAtValue(n, t, ts, us);
      } else {
        EnterSlot(n, t, child, k', ts, us);
      }
    }

    method Leave(n: TrailNode, ghost t: Trie, ghost ts: seq<TrailNode>, ghost us: seq<Trie>, ghost work: nat)
      requires Top(n, t, ts, us) && Work(ts, us) < work
      modifies this`trail, this`tries
      ensures Valid() && Onward(trail, tries, [], Rest(ts, us), work)
    {
      Popped(ts, us, work);
      assert trail[..|trail| - 1] == ts && tries[..|tries| - 1] == us;
      trail := trail[..|trail| - 1];
      tries := tries[..|tries| - 1];
    }

    method StopAtValue(n: TrailNode, ghost t: Trie, ghost ts: seq<TrailNode>, ghost us: seq<Trie>)
      requires Top(n, t, ts, us) && t.Branch? && t.value != []
      modifies this`trail, this`tries
      ensures Moved(SeekFrom(t, n.key, AT_NODE, []) + Rest(ts, us))
    {
      var m := n.(child := AT_NODE);
      AtValue(ts, us, m, t);
      SetTop(m, t, n, t, ts, us);
    }

    method EnterSlot(n: TrailNode, ghost t: Trie, child: nat, ghost k: Path, ghost ts: seq<TrailNode>,
      ghost us: seq<Trie>)
      requires Top(n, t, ts, us) && t.Branch? && child < 16
      modifies this`trail, this`tries
      ensures Valid()
      ensures Onward(trail, tries, k, SeekFrom(t, n.key, child, k) + Rest(ts, us), 1 + FromEffort(t, child) +
        Work(ts, us))
    {
      ghost var kid := t.kids[child];
      assert n.node.refs[child] == RefOf(that.c, kid);
      HeldBelow(t, kid, child);
      var u := that.Deref(n.node.refs[child], kid);
      var m, e := n.(child := child), TrailNode(u, n.key + [child], ENTERING);
      SlotEntered(ts, us, n, t, child, k, u);
      SetTop(m, t, n, t, ts, us);
      Push(e, kid);
    }

    method Push(e: TrailNode, ghost t: Trie)
      requires Valid() && NodeOk(e, t)
      modifies this`trail, this`tries
      ensures Valid() && trail == old(trail) + [e] && tries == old(tries) + [t]
    {
      trail := trail + [e];
      tries := tries + [t];
    }

    /** Compare the path of a two-item node with what is left to match: skip the node, or go on
        with what is left after it. */
    method MatchPath(p: Path, leaf: bool, k: Path) returns (skip: bool, k': Path)
      ensures skip <==> (if p <= k then leaf && k != p else !Less(k, p))
      ensures !skip ==> k' == if p <= k then k[|p|..] else []
    {
      k', skip := k, false;
      if !(p <= k) {
        var earlier := IsEarlierThan(k, p);
        if !earlier { return true, []; }
        k' := [];
      }
      k' := k'[if |k'| < |p| then |k'| else |p|..];
      skip := leaf && k' != [];
    }

    /** Entering a two-item node with k to match: go on below, stop at its leaf, or skip it. */
    method EnterTwoItem(k: Path, n: TrailNode, ghost t: Trie, ghost ts: seq<TrailNode>, ghost us: seq<Trie>)
      returns (stop: bool, k': Path)
      requires Top(n, t, ts, us) && t.TwoItem() && n.child == ENTERING
      modifies this`trail, this`tries
      ensures var es := Seek(t, n.key, k) + Rest(ts, us);
        if stop then Moved(es) else Valid() && Onward(trail, tries, k', es, Effort(t) + Work(ts, us))
    {
      var skip;
      skip, k' := MatchPath(n.node.path, n.node.RLeaf?, k);
      SeekPath(t, n.key, k);
      stop := !skip && n.node.RLeaf?;
      if skip {
        k' := [];
        Leave(n, t, ts, us, Effort(t) + Work(ts, us));
      } else if n.node.RLeaf? {
        StopAtLeaf(n, t, ts, us);
      } else {
        EnterExt(n, t, k', ts, us);
      }
    }

    method EnterExt(n: TrailNode, ghost t: Trie, ghost k: Path, ghost ts: seq<TrailNode>, ghost us: seq<Trie>)
      requires Top(n, t, ts, us) && t.Ext?
      modifies this`trail, this`tries
      ensures Valid()
      ensures Onward(trail, tries, k, Seek(t.child, n.key + t.path, k) + Rest(ts, us), Effort(t) + Work(ts, us))
    {
      HeldBelow(t, t.child, 0);
      var u := that.Deref(n.node.ref, t.child);
      var e := TrailNode(u, n.key + n.node.path, ENTERING);
      Entered(ts, us, e, t.child, k, Effort(t) + Work(ts, us));
      SetTop(e, t.child, n, t, ts, us);
    }

    method StopAtLeaf(n: TrailNode, ghost t: Trie, ghost ts: seq<TrailNode>, ghost us: seq<Trie>)
      requires Top(n, t, ts, us) && t.Leaf?
      modifies this`trail, this`tries
      ensures Moved(Entries(t, n.key) + Rest(ts, us))
    {
      var m := TrailNode(n.node, n.key + n.node.path, 0);
      RestPush(ts, us, m, t);
      SetTop(m, t, n, t, ts, us);
    }

    /** A branch on top: entered, or come back to from a child or from its value. */
    method StepBranch(k: Path, n: TrailNode, ghost t: Trie, ghost ts: seq<TrailNode>, ghost us: seq<Trie>)
      returns (stop: bool, k': Path)
      requires Top(n, t, ts, us) && t.Branch? && (k != [] ==> n.child == ENTERING)
      modifies this`trail, this`tries
      ensures var es := (if n.child == ENTERING then Seek(t, n.key, k) else Pending(n, t)) + Rest(ts, us);
        if stop then Moved(es) else Valid() && Onward(trail, tries, k', es, NodeWork(n, t) + Work(ts, us))
    {
      BranchSlots(n, t, k);
      if n.child == ENTERING && k != [] {
        stop, k' := ScanSlots(k[0], k[1..], n, t, ts, us);
      } else {
        stop, k' := ScanSlots(if n.child == ENTERING then AT_NODE else NextChild(n.child), [], n, t, ts, us);
      }
    }

    /** One round of the cursor's loop. */
    method Step(k: Path) returns (stop: bool, k': Path)
      requires Valid() && trail != [] && Settled(trail, k)
      modifies this`trail, this`tries
      ensures var es := old(Coming(trail, tries, k));
        if stop then Moved(es) else Valid() && Onward(trail, tries, k', es, old(Work(trail, tries)))
    {
      var n := trail[|trail| - 1];
      ghost var t, ts, us := tries[|tries| - 1], trail[..|trail| - 1], tries[..|tries| - 1];
      TopIs(n, t, ts, us, k);
      stop, k' := StepNode(k, n, t, ts, us);
    }

    lemma TopIs(n: TrailNode, t: Trie, ts: seq<TrailNode>, us: seq<Trie>, k: Path)
      requires Valid() && trail != [] && n == trail[|trail| - 1] && t == tries[|tries| - 1]
      requires ts == trail[..|trail| - 1] && us == tries[..|tries| - 1]
      ensures Top(n, t, ts, us)
      ensures Coming(trail, tries, k) == (if n.child == ENTERING then Seek(t, n.key, k) else Pending(n, t)) +
        Rest(ts, us)
      ensures Work(trail, tries) == NodeWork(n, t) + Work(ts, us)
    {
      assert trail == ts + [n] && tries == us + [t];
      assert NodeOk(n, t);
      ComingPush(ts, us, n, t, k);
    }

    method StepNode(k: Path, n: TrailNode, ghost t: Trie, ghost ts: seq<TrailNode>, ghost us: seq<Trie>)
      returns (stop: bool, k': Path)
      requires Top(n, t, ts, us) && (k != [] ==> n.child == ENTERING)
      modifies this`trail, this`tries
      ensures var es := (if n.child == ENTERING then Seek(t, n.key, k) else Pending(n, t)) + Rest(ts, us);
        if stop then Moved(es) else Valid() && Onward(trail, tries, k', es, NodeWork(n, t) + Work(ts, us))
    {
      if n.node.RBranch? {
        stop, k' := StepBranch(k, n, t, ts, us);
      } else if n.child == ENTERING && n.node.TwoItem() {
        stop, k' := EnterTwoItem(k, n, t, ts, us);
      } else {
        Leave(n, t, ts, us, NodeWork(n, t) + Work(ts, us));
        stop, k' := false, [];
      }
    }

    /** `next()`: on to the next entry, or to the end. */
    method Next()
      requires Valid()
      modifies this`trail, this`tries
      ensures Moved(old(Ahead()))
    {
      NextFrom([]);
    }

    /** `next(key)`: from the root, to the first entry not below the key. */
    method NextFrom(key: Path)
      requires Valid() && Settled(trail, key)
      modifies this`trail, this`tries
      ensures Moved(old(Coming(trail, tries, key)))
    {
      var k := key;
      while trail != []
        invariant Valid() && Settled(trail, k) && Coming(trail, tries, k) == old(Coming(trail, tries, key))
        decreases Work(trail, tries)
      {
        var stop;
        stop, k := Step(k);
        if stop { return; }
      }
    }

    /** `begin()`: the least stored key. */
    constructor Begin(that: GenericTrieDB)
      requires that.Valid()
      ensures this.that == that && Moved(Entries(that.trie, []))
    {
      this.that := that;
      var n := that.db.Lookup(that.root);
      trail := [TrailNode(if n.Some? then n.value else RNull, [], ENTERING)];
      tries := [that.trie];
      new;
      RootOk();
      Next();
    }

    /** `lower_bound(key)`: the least stored key not below this one. */
    constructor LowerBound(that: GenericTrieDB, key: Path)
      requires that.Valid()
      ensures this.that == that && Moved(Seek(that.trie, [], key))
    {
      this.that := that;
      var n := that.db.Lookup(that.root);
      trail := [TrailNode(if n.Some? then n.value else RNull, [], ENTERING)];
      tries := [that.trie];
      new;
      RootOk();
      NextFrom(key);
    }

    lemma RootOk()
      requires that.Valid() && tries == [that.trie]
      requires trail ==
        [TrailNode(if that.db.Lookup(that.root).Some? then that.db.Lookup(that.root).value else RNull, [], ENTERING)]
      ensures Valid() && Ahead() == Entries(that.trie, [])
      ensures forall k :: Coming(trail, tries, k) == Seek(that.trie, [], k)
    {
      that.ReadyHolds(that.others + RootRefs(that.c, that.trie), RootRefs(that.c, that.trie));
      assert that.c.sha3(Enc(that.c, that.trie)) in RootRefs(that.c, that.trie);
      RestPush([], [], trail[0], that.trie);
      assert [] + trail == trail && [] + tries == tries;
    }

    /** The entry the cursor stands on. */
    method At(ghost e: Pair) returns (k: Path, v: Value)
      requires Valid() && StandsOn(e)
      ensures k == e.key && v == e.value
    {
      var n := trail[|trail| - 1];
      assert NodeOk(n, tries[|tries| - 1]);
      k := n.key;
      v := n.node.value;
    }
  }

  /** From `begin()` on, `++` lists the entries of the trie and comes to the end. */
  method Walk(that: GenericTrieDB) returns (ps: seq<Pair>)
    requires that.Valid()
    ensures ps == Entries(that.trie, [])
  {
    var it := new Iterator.Begin(that);
    ghost var all := Entries(that.trie, []);
    ghost var es := all;
    ps := [];
    while it.trail != []
      invariant it.that == that && it.Moved(es) && all == ps + es
      decreases |es|
    {
      var k, v := it.At(es[0]);
      OneOn(ps, es);
      ps := ps + [Pair(k, v)];
      es := es[1..];
      it.Next();
    }
  }

  /** The walk's pairs: ascending, and exactly the map. */
  lemma WalkIsTheMap(t: Trie)
    requires Wf(t) && Normal(t)
    ensures Ascending(Entries(t, []))
    ensures forall k :: Stored(t, k) <==> exists v :: Pair(k, v) in Entries(t, [])
    ensures forall p :: p in Entries(t, []) ==> p.value == Lookup(t, p.key)
  {
    EntriesAscend(t, []);
    forall k ensures Stored(t, k) <==> exists v :: Pair(k, v) in Entries(t, []) { WalkExact(t, k); }
    forall p | p in Entries(t, []) ensures p.value == Lookup(t, p.key) {
      WalkExact(t, p.key);
      assert Pair(p.key, p.value) == p;
    }
  }

  /** `lower_bound(key)` and what stands there: the least stored pair not below the key, or nothing when all are
      below. */
  method FirstFrom(that: GenericTrieDB, key: Path) returns (r: Option<Pair>)
    requires that.Valid()
    ensures r.None? ==> forall x :: Stored(that.trie, x) ==> Less(x, key)
    ensures r.Some? ==> Least(that.trie, key, r.value)
  {
    SeekIsLeast(that.trie, key);
    ghost var es := Seek(that.trie, [], key);
    var it := new Iterator.LowerBound(that, key);
    if it.trail == [] {
      r := None;
    } else {
      var k, v := it.At(es[0]);
      r := Some(Pair(k, v));
    }
  }

  /** p is stored, is not below the key, and is below every other such pair. */
  ghost predicate Least(t: Trie, key: Path, p: Pair)
    requires Wf(t)
  {
    && Stored(t, p.key) && p.value == Lookup(t, p.key) && !Less(p.key, key)
    && forall x :: Stored(t, x) && !Less(x, key) ==> x == p.key || Less(p.key, x)
  }

  lemma SeekIsLeast(t: Trie, key: Path)
    requires Wf(t) && Normal(t)
    ensures Seek(t, [], key) == [] ==> forall x :: Stored(t, x) ==> Less(x, key)
    ensures Seek(t, [], key) != [] ==> Least(t, key, Seek(t, [], key)[0])
  {
    forall x | Stored(t, x) ensures Less(x, key) || FirstIsBelow(Seek(t, [], key), x) { StoredIsKept(t, key, x); }
    if Seek(t, [], key) != [] {
      var p := Seek(t, [], key)[0];
      KeptIsStored(t, key);
      forall x | Stored(t, x) && !Less(x, key) ensures x == p.key || Less(p.key, x) { StoredIsKept(t, key, x); }
    }
  }

  predicate FirstIsBelow(es: seq<Pair>, x: Path) {
    es != [] && (x == es[0].key || Less(es[0].key, x))
  }

  lemma StoredIsKept(t: Trie, key: Path, x: Path)
    requires Wf(t) && Normal(t) && Stored(t, x)
    ensures Less(x, key) || FirstIsBelow(Seek(t, [], key), x)
  {
    SeekKeeps(t, key);
    WalkExact(t, x);
    var v :| Pair(x, v) in Entries(t, []);
    assert Pair(x, v).key == x;
  }

  lemma KeptIsStored(t: Trie, key: Path)
    requires Wf(t) && Normal(t) && Seek(t, [], key) != []
    ensures var p := Seek(t, [], key)[0]; Stored(t, p.key) && p.value == Lookup(t, p.key) && !Less(p.key, key)
  {
    SeekKeeps(t, key);
    var p := Seek(t, [], key)[0];
    WalkExact(t, p.key);
    assert Pair(p.key, p.value) == p;
  }

  lemma SeekKeeps(t: Trie, key: Path)
    requires Wf(t)
    ensures forall p | p in Entries(t, []) :: Less(p.key, key) || FirstIsBelow(Seek(t, [], key), p.key)
    ensures Seek(t, [], key) != [] ==> Seek(t, [], key)[0] in Entries(t, []) && !Less(Seek(t, [], key)[0].key, key)
  {
    SeekFromTop(t, key);
    EntriesAscend(t, []);
    FirstKept(Entries(t, []), Seek(t, [], key), key);
  }

  lemma {:induction false} SeekFromTop(t: Trie, key: Path)
    requires Wf(t)
    ensures LowerBound(Entries(t, []), Seek(t, [], key), key)
  {
    SeekIsLowerBound(t, [], key);
    SameBound(Entries(t, []), Seek(t, [], key), [] + key, key);
  }

  lemma SameBound(es: seq<Pair>, kept: seq<Pair>, a: Path, b: Path)
    requires LowerBound(es, kept, a) && a == b
    ensures LowerBound(es, kept, b)
  {
  }

  /** The first pair kept is the least that is not below the key. */
  lemma FirstKept(all: seq<Pair>, es: seq<Pair>, key: Path)
    requires LowerBound(all, es, key) && Ascending(all)
    ensures forall p | p in all :: Less(p.key, key) || FirstIsBelow(es, p.key)
    ensures es != [] ==> es[0] in all && !Less(es[0].key, key)
  {
    var skipped := |all| - |es|;
    if es != [] {
      assert all[skipped..][0] == all[skipped] == es[0];
    }
  }

  lemma OneOn(ps: seq<Pair>, es: seq<Pair>)
    requires es != []
    ensures ps + es == ps + [es[0]] + es[1..] && Pair(es[0].key, es[0].value) == es[0]
  {
  }

  lemma WalkExact(t: Trie, k: Path)
    requires Wf(t) && Normal(t)
    ensures Stored(t, k) <==> exists v :: Pair(k, v) in Entries(t, [])
    ensures forall v :: Pair(k, v) in Entries(t, []) ==> v == Lookup(t, k)
  {
    EntriesExact(t, [], k);
    assert [] + k == k;
  }

  /** Entries of a branch from slot `child` on, with k still to match in that slot. */
  function SeekFrom(t: Trie, key: Path, child: nat, k: Path): seq<Pair>
    requires Wf(t) && t.Branch?
  {
    if child < 16 then Seek(t.kids[child], key + [child], k) + EntriesFrom(t, key, child + 1)
    else From(t, key, child)
  }

  lemma SkipEmpty(t: Trie, key: Path, child: nat, k: Path)
    requires Wf(t) && t.Branch? && child < EXITING && (k != [] ==> child < 16)
    requires if child == AT_NODE then t.value == [] else t.kids[child].Nil?
    ensures SeekFrom(t, key, NextChild(child), []) == SeekFrom(t, key, child, k)
    ensures FromEffort(t, NextChild(child)) <= FromEffort(t, child)
  {
  }
}
