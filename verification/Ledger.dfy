/** Balances and nonces with an undo log: the part of the shared state that an executive moves ether in. */
module Ledger {
  import opened Basics

  const ADDRESSES: nat := 0x1_0000000000000000_0000000000000000_00000000

  type Address = a: int | 0 <= a < ADDRESSES

  /** A balance and a nonce for every address; `lost` counts how often a balance left 256 bits. */
  datatype World = World(balances: seq<nat>, nonces: seq<nat>, lost: nat)

  ghost predicate Sound(w: World) {
    && |w.balances| == |w.nonces| == ADDRESSES
    && forall a: Address :: w.balances[a] < WORD && w.nonces[a] < WORD
  }

  function Total(b: seq<nat>): nat {
    if b == [] then 0 else Total(b[..|b| - 1]) + b[|b| - 1]
  }

  /** All the ether there is, counting what wrapping additions dropped. */
  function Worth(w: World): nat {
    Total(w.balances) + WORD * w.lost
  }

  lemma {:induction false} TotalUpdate(b: seq<nat>, a: nat, v: nat)
    requires a < |b|
    ensures Total(b[a := v]) + b[a] == Total(b) + v
  {
    var n := |b| - 1;
    if a == n {
      assert b[a := v][..n] == b[..n];
    } else {
      TotalUpdate(b[..n], a, v);
      assert b[a := v][..n] == b[..n][a := v];
    }
  }

  // ------------------------------------------------------------- what each change does

  function Added(w: World, a: Address, v: nat): World
    requires |w.balances| == ADDRESSES
  {
    var sum := w.balances[a] + v;
    if sum < WORD then w.(balances := w.balances[a := sum])
    else w.(balances := w.balances[a := sum % WORD], lost := w.lost + sum / WORD)
  }

  function Subtracted(w: World, a: Address, v: nat): World
    requires |w.balances| == ADDRESSES && v <= w.balances[a]
  {
    w.(balances := w.balances[a := w.balances[a] - v])
  }

  function NonceUp(w: World, a: Address): World
    requires |w.nonces| == ADDRESSES
  {
    w.(nonces := w.nonces[a := (w.nonces[a] + 1) % WORD])
  }

  function Killed(w: World, a: Address): World
    requires |w.balances| == |w.nonces| == ADDRESSES
  {
    w.(balances := w.balances[a := 0], nonces := w.nonces[a := 0])
  }

  lemma AddedWorth(w: World, a: Address, v: nat)
    requires Sound(w) && v < WORD
    ensures Sound(Added(w, a, v)) && Worth(Added(w, a, v)) == Worth(w) + v
  {
    var sum := w.balances[a] + v;
    TotalUpdate(w.balances, a, if sum < WORD then sum else sum - WORD);
    if sum >= WORD {
      assert sum % WORD == sum - WORD && sum / WORD == 1;
    }
  }

  lemma SubtractedWorth(w: World, a: Address, v: nat)
    requires Sound(w) && v <= w.balances[a]
    ensures Sound(Subtracted(w, a, v)) && Worth(Subtracted(w, a, v)) + v == Worth(w)
  {
    TotalUpdate(w.balances, a, w.balances[a] - v);
  }

  lemma KilledWorth(w: World, a: Address)
    requires Sound(w)
    ensures Sound(Killed(w, a)) && Worth(Killed(w, a)) + w.balances[a] == Worth(w)
  {
    TotalUpdate(w.balances, a, 0);
  }

  class State {
    var world: World
    /** What each change found, oldest first. */
    var log: seq<World>

    ghost predicate Valid()
      reads this
    {
      Sound(world) && forall k | 0 <= k < |log| :: Sound(log[k])
    }

    /** The worlds there have been and not been undone; savepoint n stands for the n-th. */
    ghost function Trail(): (t: seq<World>)
      reads this
      ensures |t| == |log| + 1 && t[|log|] == world
    {
      log + [world]
    }

    function Savepoint(): nat
      reads this
    {
      |log|
    }

    /** Undo every change made since the savepoint. */
    method Rollback(sp: nat)
      requires Valid() && sp <= |log|
      modifies this
      ensures Valid() && Trail() == old(Trail())[..sp + 1]
    {
      while |log| > sp
        invariant sp <= |log| <= |old(log)| && Valid() && Trail() == old(Trail())[..|log| + 1]
      {
        world, log := log[|log| - 1], log[..|log| - 1];
      }
    }

    method Change(w: World)
      requires Valid() && Sound(w)
      modifies this
      ensures Valid() && world == w
      ensures old(Trail()) <= Trail()
    {
      world, log := w, log + [world];
    }

    method AddBalance(a: Address, v: nat)
      requires Valid() && v < WORD
      modifies this
      ensures Valid() && world == Added(old(world), a, v) && Worth(world) == old(Worth(world)) + v
      ensures old(Trail()) <= Trail()
    {
      AddedWorth(world, a, v);
      Change(Added(world, a, v));
    }

    method SubBalance(a: Address, v: nat) returns (ok: bool)
      requires Valid()
      modifies this
      ensures Valid() && ok == (v <= old(world.balances[a]))
      ensures if ok then world == Subtracted(old(world), a, v) && Worth(world) + v == old(Worth(world))
        else world == old(world)
      ensures old(Trail()) <= Trail()
    {
      ok := v <= world.balances[a];
      if ok {
        SubtractedWorth(world, a, v);
        Change(Subtracted(world, a, v));
      }
    }

    /** Whatever the two addresses are, a transfer neither makes nor loses ether. */
    method Transfer(from: Address, to: Address, v: nat) returns (ok: bool)
      requires Valid()
      modifies this
      ensures Valid() && Worth(world) == old(Worth(world)) && ok == (v <= old(world.balances[from]))
      ensures if ok then world == Added(Subtracted(old(world), from, v), to, v) else world == old(world)
      ensures old(Trail()) <= Trail()
    {
      ok := SubBalance(from, v);
      if ok {
        AddBalance(to, v);
      }
    }

    method IncNonce(a: Address)
      requires Valid()
      modifies this
      ensures Valid() && world == NonceUp(old(world), a) && Worth(world) == old(Worth(world))
      ensures old(Trail()) <= Trail()
    {
      Change(NonceUp(world, a));
    }

    method Kill(a: Address)
      requires Valid()
      modifies this
      ensures Valid() && world == Killed(old(world), a) && Worth(world) + old(world.balances[a]) == old(Worth(world))
      ensures old(Trail()) <= Trail()
    {
      KilledWorth(world, a);
      Change(Killed(world, a));
    }
  }
}
