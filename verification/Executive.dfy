/** Paying for, running, undoing and settling one transaction, and the calls it makes. */
module Executive {
  import opened Basics
  import opened Ledger
  import opened Runs

  datatype Env = Env(author: Address, gasUsed: nat, gasLimit: nat, homestead: bool, metropolis: bool, eip150: bool,
                     eip158: bool, createDataGas: nat, maxCodeSize: nat, exceptionalFailedCodeDeposit: bool,
                     suicideRefundGas: nat, callStipend: nat, callValueTransferGas: nat)

  /** `to` is None for a creation, whose new account is `created`; `base` is what the transaction costs before it
      runs. */
  datatype Tx = Tx(sender: Address, to: Option<Address>, created: Address, value: nat, gas: nat, gasPrice: nat,
                   nonce: nat, zeroSignature: bool, lowS: bool, recoverable: bool, base: nat)

  /** Quantities are 256 bits wide, and without a signature the sender is the top address. */
  ghost predicate Decoded(t: Tx) {
    && t.value < WORD && t.gas < WORD && t.gasPrice < WORD
    && (t.zeroSignature ==> t.sender == MAX_ADDRESS && t.recoverable)
  }

  datatype Fault = Fine | InvalidSignature | InvalidZeroSignature | BlockGasLimitReached | OutOfGasBase | InvalidNonce
                 | NotEnoughCash | OutOfGas | RevertInstruction | VMFault

  datatype Ext = Ext(me: Address, run: Run, refunds: nat, suicides: seq<Address>)

  /** Money in one call or creation, from the ledger's side. */
  class Executive {
    const s: State
    const env: Env
    const depth: nat
    var tx: Option<Tx>
    var base: nat
    var gas: nat
    var refunded: nat
    var gasCost: nat
    var ext: Option<Ext>
    var excepted: Fault
    var savepoint: nat
    var isCreation: bool

    constructor (s: State, env: Env, depth: nat)
      ensures this.s == s && this.env == env && this.depth == depth && tx == None && ext == None
      ensures gas == refunded == gasCost == 0 && excepted == Fine && !isCreation
    {
      this.s, this.env, this.depth := s, env, depth;
      tx, ext, base, gas, refunded, gasCost, excepted, savepoint, isCreation := None, None, 0, 0, 0, 0, Fine, 0, false;
    }

    /** What undoing would bring back is worth as much as what there is. */
    ghost predicate Ready()
      reads this, s
    {
      s.Valid() && savepoint <= |s.log| && Worth(Saved()) == Worth(s.world)
    }

    /** The world an undo goes back to. */
    ghost function Saved(): World
      requires savepoint <= |s.log|
      reads this, s
    {
      s.Trail()[savepoint]
    }

    /** The world there is and everything before the savepoint: what a call inside must leave alone. */
    ghost function Floor(): seq<World>
      requires savepoint <= |s.log|
      reads this, s
    {
      s.Trail()[..savepoint + 1]
    }

    // ------------------------------------------------------------------ checking

    /** Nothing of the ledger changes; a refusal names its reason. */
    method Initialize(t: Tx) returns (ok: bool)
      requires s.Valid() && Decoded(t)
      modifies this
      ensures savepoint == old(savepoint) && tx == Some(t) && ext == old(ext) && gas == old(gas) &&
        isCreation == old(isCreation)
      ensures ok <==> excepted == old(excepted) && Accepts(env, s.world, t)
      ensures !ok ==> Blames(env, s.world, t, excepted)
      ensures ok ==> base == t.base && gasCost == (if t.zeroSignature then old(gasCost) else t.gas * t.gasPrice)
    {
      tx := Some(t);
      ok := false;
      if !env.metropolis && t.zeroSignature && t.to.None? {
        excepted := InvalidSignature;
        return;
      }
      if env.metropolis && t.zeroSignature && (t.value != 0 || t.gasPrice != 0 || t.nonce != 0) {
        excepted := InvalidZeroSignature;
        return;
      }
      if env.homestead && !t.lowS {
        excepted := InvalidSignature;
        return;
      }
      if env.gasUsed + t.gas > env.gasLimit {
        excepted := BlockGasLimitReached;
        return;
      }
      base := t.base;
      if base > t.gas {
        excepted := OutOfGasBase;
        return;
      }
      ok := t.zeroSignature;
      if !ok {
        ok := CheckSender(t);
      }
    }

    /** The part of the checks that a signature calls for. */
    method CheckSender(t: Tx) returns (ok: bool)
      requires s.Valid()
      modifies this`excepted, this`gasCost
      ensures ok <==>
        t.recoverable && t.nonce == s.world.nonces[t.sender] &&
          t.value + t.gas * t.gasPrice <= s.world.balances[t.sender]
      ensures if ok then excepted == old(excepted) && gasCost == t.gas * t.gasPrice else gasCost == old(gasCost)
      ensures !ok ==>
        || (excepted == InvalidSignature && !t.recoverable)
        || (excepted == InvalidNonce && t.nonce != s.world.nonces[t.sender])
        || (excepted == NotEnoughCash && s.world.balances[t.sender] < t.value + t.gas * t.gasPrice)
    {
      ok := false;
      if !t.recoverable {
        excepted := InvalidSignature;
        return;
      }
      if t.nonce != s.world.nonces[t.sender] {
        excepted := InvalidNonce;
        return;
      }
      var cost := t.gas * t.gasPrice;
      var totalCost := t.value + cost;
      if s.world.balances[t.sender] < totalCost {
        excepted := NotEnoughCash;
        return;
      }
      gasCost := cost % WORD;
      ok := true;
    }

    // ------------------------------------------------------------------- running

    /** Pay for the gas and start: `done` when there is no code to run, `thrown` when the money is not there. */
    method Execute(callee: Callee) returns (thrown: bool, done: bool)
      requires s.Valid() && tx.Some? && base <= tx.value.gas && ext.None? && gas == 0
      requires tx.value.to.None? ==> !callee.Precompiled?
      modifies this, s
      ensures tx == old(tx) && base == old(base) && gasCost == old(gasCost) && gas <= tx.value.gas - base
      ensures s.Valid()
      ensures thrown <==> Short(old(s.world), tx.value, callee, tx.value.gas - base, gasCost)
      ensures !thrown ==> Ready() && Worth(s.world) + gasCost == old(Worth(s.world))
      ensures !thrown ==> Saved() == Charged(old(s.world), tx.value.sender, gasCost)
      ensures thrown ==> s.world == if gasCost > old(s.world.balances[tx.value.sender]) then old(s.world)
        else Charged(old(s.world), tx.value.sender, gasCost)
      ensures !thrown ==> s.world == Started(Saved(), tx.value, callee, tx.value.gas - base, env.eip158)
      ensures !thrown ==> done == ext.None? == !callee.Code?
      ensures callee.Code? && !thrown ==>
        ext == Some(Ext(Target(tx.value), callee.run, 0, [])) && excepted == old(excepted)
      ensures !callee.Code? && !thrown ==> excepted == Refused(callee, tx.value.gas - base, old(excepted))
      ensures gas == if gasCost > old(s.world.balances[tx.value.sender]) then 0
        else if callee.Precompiled? then PrecompiledLeft(callee, tx.value.gas - base, 0) else tx.value.gas - base
    {
      var t := tx.value;
      var paid := s.SubBalance(t.sender, gasCost);
      if !paid {
        return true, false;
      }
      if t.to.None? {
        var init := if callee.Code? then Some(callee.run) else None;
        thrown, done := Create(t.sender, t.created, t.value, t.gas - base, init);
      } else {
        thrown, done := Call(t.to.value, t.sender, t.to.value, t.value, t.gas - base, callee);
      }
    }

    method Call(codeAddress: Address, from: Address, receive: Address, value: nat, given: nat, callee: Callee)
      returns (thrown: bool, done: bool)
      requires s.Valid() && ext.None? && gas <= given
      modifies this, s
      ensures tx == old(tx) && base == old(base) && gasCost == old(gasCost) && gas <= given &&
        isCreation == old(isCreation)
      ensures Ready() && Worth(s.world) == old(Worth(s.world)) && old(s.Trail()) <= Floor()
      ensures Saved() == if tx.Some? && from != MAX_ADDRESS then NonceUp(old(s.world), from) else old(s.world)
      ensures thrown <==> !Unpaid(callee, given) && value > old(s.world.balances[from])
      ensures s.world == if Unpaid(callee, given) || thrown then Saved() else Moved(Saved(), from, receive, value)
      ensures !thrown ==> done == ext.None? == !callee.Code?
      ensures callee.Code? ==> ext == Some(Ext(receive, callee.run, 0, [])) && excepted == old(excepted)
      ensures !callee.Code? ==> excepted == Refused(callee, given, old(excepted))
      ensures gas == if callee.Precompiled? then PrecompiledLeft(callee, given, old(gas)) else given
    {
      if tx.Some? && from != MAX_ADDRESS {
        s.IncNonce(from);
      }
      savepoint := s.Savepoint();
      var stop := Set(codeAddress, receive, given, callee);
      if stop {
        return false, true;
      }
      var moved := s.Transfer(from, receive, value);
      thrown, done := !moved, ext.None?;
    }

    /** The gas and the code of the call; `stop` when a precompiled contract cannot be paid for. */
    method Set(codeAddress: Address, receive: Address, given: nat, callee: Callee) returns (stop: bool)
      requires s.Valid() && ext.None? && gas <= given
      modifies this`gas, this`ext, this`excepted, s
      ensures s.Valid() && s.world == old(s.world) && old(s.Trail()) <= s.Trail() && stop == Unpaid(callee, given)
      ensures ext == if callee.Code? then Some(Ext(receive, callee.run, 0, [])) else None
      ensures excepted == if callee.Code? then old(excepted) else Refused(callee, given, old(excepted))
      ensures gas == (if callee.Precompiled? then PrecompiledLeft(callee, given, old(gas)) else given) <= given
    {
      stop := false;
      match callee {
        case Precompiled(cost, ok) =>
          if given < cost {
            excepted := OutOfGasBase;
            if env.eip158 {
              s.AddBalance(codeAddress, 0);
            }
            return true;
          }
          gas := given - cost;
          if !ok {
            gas := 0;
            excepted := OutOfGas;
          }
        case NoCode =>
          gas := given;
        case Code(run) =>
          gas := given;
          ext := Some(Ext(receive, run, 0, []));
      }
    }

    method Create(from: Address, at: Address, endowment: nat, given: nat, init: Option<Run>)
      returns (thrown: bool, done: bool)
      requires s.Valid() && ext.None?
      modifies this, s
      ensures tx == old(tx) && base == old(base) && gasCost == old(gasCost) && gas == given && isCreation
      ensures Ready() && Worth(s.world) == old(Worth(s.world)) && old(s.Trail()) <= Floor()
      ensures Saved() == if from != MAX_ADDRESS then NonceUp(old(s.world), from) else old(s.world)
      ensures thrown <==> endowment > old(s.world.balances[from])
      ensures s.world == if thrown then Saved() else Founded(Saved(), from, at, endowment, env.eip158)
      ensures !thrown ==> done == ext.None? == init.None?
      ensures !thrown && init.Some? ==> ext == Some(Ext(at, init.value, 0, []))
      ensures excepted == old(excepted)
    {
      if from != MAX_ADDRESS {
        s.IncNonce(from);
      }
      savepoint := s.Savepoint();
      isCreation := true;
      gas := given;
      var moved := s.Transfer(from, at, endowment);
      if !moved {
        return true, false;
      }
      if env.eip158 {
        s.IncNonce(at);
      }
      if init.Some? {
        ext := Some(Ext(at, init.value, 0, []));
      }
      thrown, done := false, ext.None?;
    }

    /** The VM is running, or is not needed. */
    ghost predicate Running()
      reads this, s
    {
      Ready() && ext.Some? && excepted == Fine && Distinct(ext.value.suicides) && ext.value.refunds < WORD
    }

    /** The run goes on: nothing it may go back to has changed, ether is what it was, and no gas came from nowhere. */
    twostate predicate Kept()
      requires old(Running())
      reads this, s
    {
      && Running() && Floor() == old(Floor()) && Worth(s.world) == old(Worth(s.world))
      && Same() && gas <= old(gas) && ext.value.run == old(ext.value.run) && ext.value.me == old(ext.value.me)
    }

    twostate predicate Same()
      reads this
    {
      && tx == old(tx) && base == old(base) && gasCost == old(gasCost) && savepoint == old(savepoint)
      && isCreation == old(isCreation)
    }

    /** Run the code, if there is any. Whatever it calls, however deep, the ether stays what it was and no gas comes
        from nowhere; if it fails, the world is the one before the call; if not, the ledger has exactly the entries that
        belong to the run. */
    method Go(ghost w: World, ghost had: seq<Entry>) returns (ghost es: seq<Entry>)
      requires Ready() && (ext.Some? ==> Running()) && Covered(env) && Flows(w, s.world, had)
      modifies this, s
      ensures Ready() && Floor() == old(Floor()) && Worth(s.world) == old(Worth(s.world))
      ensures Same() && gas <= old(gas)
      ensures ext.Some? == old(ext.Some?) && (ext.Some? ==> Distinct(ext.value.suicides) && ext.value.refunds < WORD)
      ensures old(ext.None?) ==> s.world == old(s.world) && gas == old(gas) && excepted == old(excepted)
      ensures ext.Some? && excepted != Fine ==>
        s.world == Saved() && ext.value.refunds == 0 && ext.value.suicides == []
      ensures ext.Some? && excepted !in {Fine, RevertInstruction} ==> gas == 0
      ensures ext.Some? && excepted == Fine ==>
        Flows(w, s.world, had + es) &&
        RanBooks(w, env.eip158, depth, had, old(ext.value.me), old(ext.value.run), es)
      ensures old(ext.Some?) && excepted == Fine && Lone(old(ext.value.run)) ==>
        LoneEnd(old(ext.value), ext.value, |old(ext.value.run.events)|)
      ensures old(ext.Some?) && !isCreation && AssuredRun(env, w, depth, had, old(ext.value), old(gas)) ==>
        excepted == Fine && Done(env, old(ext.value), old(gas), es, |old(ext.value.run.events)|, ext.value, gas)
      decreases if ext.Some? then ext.value.run else Run([], Faulted), 2
    {
      es := [];
      if ext.Some? {
        gas := gas % U64;
        var ok;
        ok, es := RunEvents(w, had);
        End(ok);
      }
    }

    method End(ok: bool)
      requires Running()
      modifies this, s
      ensures Ready() && Floor() == old(Floor()) && Worth(s.world) == old(Worth(s.world)) && Same() && gas <= old(gas)
      ensures ext.Some? && Distinct(ext.value.suicides) && ext.value.refunds < WORD
      ensures excepted == Fine ==>
        ok && old(ext.value.run.end.Halted?) && s.world == old(s.world) && ext == old(ext)
      ensures excepted != Fine ==> s.world == Saved() && ext.value.refunds == 0 && ext.value.suicides == []
      ensures excepted !in {Fine, RevertInstruction} ==> gas == 0
      ensures ok && !isCreation && old(ext.value.run.end.Halted?) ==> excepted == Fine && gas == old(gas)
    {
      if ok {
        Finish(ext.value.run.end);
      } else {
        Fail(OutOfGas);
      }
    }

    /** `go` when `start` has been entered since the savepoint: what the run enters comes on top, or what an undo leaves
        is left. */
    method GoAfter(ghost start: seq<Entry>, ghost undone: seq<Entry>, ghost w: World, ghost had: seq<Entry>)
      returns (ghost es: seq<Entry>)
      requires Running() && Covered(env) && Flows(w, s.world, had + start) && Flows(w, Saved(), had + undone)
      modifies this, s
      ensures Ready() && Floor() == old(Floor()) && Worth(s.world) == old(Worth(s.world)) && Same() && gas <= old(gas)
      ensures ext.Some? && Distinct(ext.value.suicides) && ext.value.refunds < WORD
      ensures excepted != Fine ==> s.world == Saved() && ext.value.refunds == 0 && ext.value.suicides == []
      ensures excepted !in {Fine, RevertInstruction} ==> gas == 0
      ensures Flows(w, s.world, had + es)
      ensures excepted != Fine ==> es == undone
      ensures excepted == Fine ==> start <= es
      ensures excepted == Fine ==>
        RanBooks(w, env.eip158, depth, had + start, old(ext.value.me), old(ext.value.run), es[|start|..])
      ensures !isCreation && AssuredRun(env, w, depth, had + start, old(ext.value), old(gas)) ==>
        excepted == Fine && Done(env, old(ext.value), old(gas), es[|start|..], |old(ext.value.run.events)|,
          ext.value, gas)
      decreases ext.value.run, 3
    {
      ghost var more := Go(w, had + start);
      es := if excepted == Fine then start + more else undone;
      assert had + (start + more) == had + start + more;
      assert (start + more)[|start|..] == more;
    }

    method RunEvents(ghost w: World, ghost had: seq<Entry>) returns (ok: bool, ghost es: seq<Entry>)
      requires Running() && Covered(env) && Flows(w, s.world, had)
      modifies this, s
      ensures Kept()
      ensures ok ==>
        && Flows(w, s.world, had + es)
        && RunBooks(w, env.eip158, depth, had, ext.value.me, ext.value.run, |ext.value.run.events|, es)
      ensures ok && Lone(ext.value.run) ==> LoneEnd(old(ext.value), ext.value, |ext.value.run.events|)
      ensures AssuredRun(env, w, depth, had, old(ext.value), old(gas)) ==>
        ok && Done(env, old(ext.value), old(gas), es, |ext.value.run.events|, ext.value, gas)
      decreases ext.value.run, 1
    {
      ghost var was := ext.value;
      var run := ext.value.run;
      var k := 0;
      ok, es := true, [];
      Begins(was);
      assert had + [] == had;
      while ok && k < |run.events|
        invariant k <= |run.events| && Kept() && ext.value.run == run
        invariant ok ==> Flows(w, s.world, had + es) && RunBooks(w, env.eip158, depth, had, was.me, run, k, es)
        invariant ok && Lone(run) ==> LoneEnd(was, ext.value, k)
        invariant AssuredRun(env, w, depth, had, was, old(gas)) ==>
          ok && Done(env, was, old(gas), es, k, ext.value, gas)
        decreases |run.events| - k
      {
        ok, es := NextEvent(k, was, old(gas), w, had, es);
        k := k + 1;
      }
    }

    /** The event after the first k, which entered `so`. */
    method NextEvent(k: nat, ghost was: Ext, ghost hadGas: nat, ghost w: World, ghost had: seq<Entry>,
                     ghost so: seq<Entry>)
      returns (ok: bool, ghost es: seq<Entry>)
      requires Running() && Covered(env) && k < |ext.value.run.events|
      requires was.me == ext.value.me && was.run == ext.value.run && gas <= hadGas
      requires Flows(w, s.world, had + so) && RunBooks(w, env.eip158, depth, had, was.me, was.run, k, so)
      requires Lone(was.run) ==> LoneEnd(was, ext.value, k)
      modifies this, s
      ensures Kept()
      ensures ok ==>
        Flows(w, s.world, had + es) && RunBooks(w, env.eip158, depth, had, was.me, was.run, k + 1, es)
      ensures ok && Lone(was.run) ==> LoneEnd(was, ext.value, k + 1)
      ensures AssuredRun(env, w, depth, had, was, hadGas) && Done(env, was, hadGas, so, k, old(ext.value), old(gas)) ==>
        ok && Done(env, was, hadGas, es, k + 1, ext.value, gas)
      decreases ext.value.run, 0, |ext.value.run.events| - k
    {
      ghost var now, nowGas, more := ext.value, gas, [];
      if AssuredRun(env, w, depth, had, was, hadGas) {
        FundedNext(Rates(env), w, depth, had, was.me, was.run, |was.run.events|, k);
      }
      ok, more := Perform(ext.value.run.events[k], w, had + so);
      es := so + more;
      if ok {
        MoreBooks(w, env.eip158, depth, had, was.me, was.run, k, so, more);
        assert had + (so + more) == had + so + more;
        LoneNext(was, now, ext.value, k);
        DoneNext(env, was, hadGas, so, k, now, nowGas, more, ext.value, gas);
      }
    }

    /** One thing the code does; not ok when the gas does not reach. */
    method Perform(e: Event, ghost w: World, ghost had: seq<Entry>) returns (ok: bool, ghost es: seq<Entry>)
      requires Running() && Covered(env) && Flows(w, s.world, had)
      modifies this, s
      ensures Kept()
      ensures ok ==> Flows(w, s.world, had + es) && EventBooks(w, env.eip158, depth, had, ext.value.me, e, es)
      ensures ok && !Nested(e) ==> LoneStep(old(ext.value), ext.value, e)
      ensures FundedEvent(Rates(env), w, depth, had, ext.value.me, e) && EventNeeds(Rates(env), e) <= old(gas) <= MAX63
        ==> ok && Stepped(env, old(ext.value), old(gas), es, e, ext.value, gas)
      decreases e, 2
    {
      var me := ext.value.me;
      ok, es := true, [];
      assert had + [] == had;
      match e {
        case Spend(amount) =>
          ok := Charge(amount);
        case Refund(amount) =>
          ext := Some(ext.value.(refunds := (ext.value.refunds + amount) % WORD));
        case Suicide(heir) =>
          es := Die(heir, w, had);
        case CallOut(receive, value, asked, callee) =>
          CallEvent(env, w, depth, had, me, e);
          ok, es := CallOutside(receive, value, asked, callee, w, had);
        case CreateOut(at, endowment, init) =>
          es := CreateOutside(at, endowment, init, w, had);
      }
    }

    method Die(heir: Address, ghost w: World, ghost had: seq<Entry>) returns (ghost es: seq<Entry>)
      requires Running() && Flows(w, s.world, had)
      modifies this`ext, s
      ensures Kept() && Flows(w, s.world, had + es) && es == [Pay(ext.value.me, heir, Balance(w, had, ext.value.me))]
      ensures LoneStep(old(ext.value), ext.value, Suicide(heir))
    {
      var me := ext.value.me;
      ext := Some(ext.value.(suicides := Merged(ext.value.suicides, [me])));
      es := [Pay(me, heir, s.world.balances[me])];
      Transfers(w, had, s.world, me, heir, s.world.balances[me]);
      var moved := s.Transfer(me, heir, s.world.balances[me]);
    }

    method Charge(amount: nat) returns (ok: bool)
      modifies this`gas
      ensures ok == (amount <= old(gas)) && gas == old(gas) - if ok then amount else 0
    {
      ok := gas >= amount;
      if ok {
        gas := gas - amount;
      }
    }

    /** Pay for moving value and set aside the gas of the call: what was asked for, at most 63 64ths from EIP 150 on. */
    method SetAside(value: nat, asked: nat) returns (ok: bool, give: nat)
      modifies this`gas
      ensures gas <= old(gas)
      ensures ok ==> gas + give + Price(env, value) == old(gas)
      ensures ok && env.eip150 ==> gas >= (gas + give) / 64 && (give < asked ==> gas == (gas + give) / 64)
      ensures give <= asked && (ok && !env.eip150 ==> give == asked)
      ensures ok <==> Price(env, value) <= old(gas) && give <= MAX63 && Price(env, value) + give <= old(gas)
    {
      give := asked;
      ok := Charge(Price(env, value));
      if ok {
        if env.eip150 {
          give := Min(asked, gas - gas / 64);
        }
        if give > MAX63 {
          return false, give;
        }
        ok := Charge(give);
      }
    }

    /** A call from the code. What comes back is no more than went in, the stipend included, and the price of moving
        value covers the stipend: so the caller has no more gas after the call than before it. */
    method CallOutside(receive: Address, value: nat, asked: nat, callee: Callee, ghost w: World, ghost had: seq<Entry>)
      returns (ok: bool, ghost es: seq<Entry>)
      requires Running() && Covered(env) && Flows(w, s.world, had)
      modifies this, s
      ensures Kept()
      ensures ok ==> Flows(w, s.world, had + es)
      ensures ok ==> CallBooks(w, env.eip158, depth, had, ext.value.me, receive, value, callee, es)
      ensures !callee.Code? ==> ext == old(ext)
      ensures AssuredOutside(w, had, receive, value, asked, callee, old(gas)) ==>
        && ok && es == [Pay(ext.value.me, receive, value)] + CalleeSends(receive, callee)
        && gas == old(gas) - Price(env, value) + Stipend(env, value) - CalleeUses(Rates(env), callee)
        && ext.value.refunds == (old(ext.value.refunds) + CalleeRefunds(callee)) % WORD
      decreases callee, 4
    {
      var give;
      es := [];
      ok, give := SetAside(value, asked);
      if ok {
        var left;
        left, es := CallInner(receive, value, give + Stipend(env, value), callee, w, had);
        gas := gas + left;
      }
    }

    ghost predicate AssuredOutside(w: World, had: seq<Entry>, receive: Address, value: nat, asked: nat, callee: Callee,
                                   hadGas: nat)
      requires ext.Some? && |w.balances| == ADDRESSES
      reads this
    {
      && FundedCall(Rates(env), w, depth, had, ext.value.me, receive, value, callee)
      && CalleeNeeds(Rates(env), callee) <= asked && Price(env, value) + 2 * asked <= hadGas <= MAX63
    }

    /** A call between two accounts: refused for want of money or depth, or an executive of its own on the same state,
        undone or not before this one goes on. */
    method CallInner(receive: Address, value: nat, given: nat, callee: Callee, ghost w: World, ghost had: seq<Entry>)
      returns (left: nat, ghost es: seq<Entry>)
      requires Running() && Covered(env) && Flows(w, s.world, had)
      modifies this, s
      ensures Kept() && gas == old(gas) && left <= given
      ensures Flows(w, s.world, had + es)
      ensures CallBooks(w, env.eip158, depth, had, ext.value.me, receive, value, callee, es)
      ensures !callee.Code? ==>
        ext == old(ext) && left == if Allowed(old(s.world), value) then LeftOf(callee, given) else given
      ensures AssuredCall(env, w, depth, had, ext.value.me, receive, value, callee, given) ==>
        && PaidCall(env, ext.value.me, receive, value, callee, given, left, es)
        && ext.value.refunds == (old(ext.value.refunds) + CalleeRefunds(callee)) % WORD
      decreases callee, 3
    {
      left, es := given, [];
      assert had + [] == had && Flowed(w, s.world, had, ext.value.me);
      if Allowed(s.world, value) {
        left, es := CallBelow(receive, value, given, callee, w, had);
      }
    }

    method CallBelow(receive: Address, value: nat, given: nat, callee: Callee, ghost w: World, ghost had: seq<Entry>)
      returns (left: nat, ghost es: seq<Entry>)
      requires Running() && Covered(env) && Flows(w, s.world, had) && Allowed(s.world, value)
      modifies this, s
      ensures Kept() && gas == old(gas) && left <= given
      ensures Flows(w, s.world, had + es)
      ensures CallBooks(w, env.eip158, depth, had, ext.value.me, receive, value, callee, es)
      ensures !callee.Code? ==> ext == old(ext) && left == LeftOf(callee, given)
      ensures AssuredCall(env, w, depth, had, ext.value.me, receive, value, callee, given) ==>
        && PaidCall(env, ext.value.me, receive, value, callee, given, left, es)
        && ext.value.refunds == (old(ext.value.refunds) + CalleeRefunds(callee)) % WORD
      decreases callee, 2, 1
    {
      var sub;
      left, sub, es := CallOnce(receive, value, given, callee, w, had);
      if sub.Some? {
        AddOn(CalleeRefunds(callee), ext.value.refunds);
        Accrue(sub.value);
      }
    }

    /** The call itself; `sub` is what it is accountable for. */
    method CallOnce(receive: Address, value: nat, given: nat, callee: Callee, ghost w: World, ghost had: seq<Entry>)
      returns (left: nat, sub: Option<Ext>, ghost es: seq<Entry>)
      requires Running() && Covered(env) && Flows(w, s.world, had) && Allowed(s.world, value)
      modifies s
      ensures Kept() && left <= given && sub.Some? == callee.Code?
      ensures sub.Some? ==> Distinct(sub.value.suicides) && sub.value.refunds < WORD
      ensures Flows(w, s.world, had + es)
      ensures CallBooks(w, env.eip158, depth, had, ext.value.me, receive, value, callee, es)
      ensures !callee.Code? ==> left == LeftOf(callee, given)
      ensures AssuredCall(env, w, depth, had, ext.value.me, receive, value, callee, given) ==>
        && PaidCall(env, ext.value.me, receive, value, callee, given, left, es)
        && (sub.Some? ==> sub.value.refunds == CalleeRefunds(callee) % WORD)
      decreases callee, 2, 0
    {
      var inner := new Executive(s, env, depth + 1);
      es := inner.CallAndGo(receive, ext.value.me, value, given, callee, w, had);
      KeepsFloor(inner, old(s.Trail()));
      left, sub := inner.gas, inner.ext;
    }

    predicate Allowed(w: World, value: nat)
      requires ext.Some? && |w.balances| == ADDRESSES
      reads this
    {
      w.balances[ext.value.me] >= value && depth < 1024
    }

    /** `call`, and `go` when there is code to run, for an executive that is made for one call. */
    method CallAndGo(receive: Address, from: Address, value: nat, given: nat, callee: Callee, ghost w: World,
                     ghost had: seq<Entry>)
      returns (ghost es: seq<Entry>)
      requires s.Valid() && Covered(env) && Flows(w, s.world, had) && value <= s.world.balances[from]
      requires tx.None? && ext.None? && gas == 0 && excepted == Fine && !isCreation && 1 <= depth <= 1024
      modifies this, s
      ensures Ready() && Worth(s.world) == old(Worth(s.world)) && old(s.Trail()) <= Floor() && gas <= given
      ensures ext.Some? == callee.Code?
      ensures ext.Some? ==> Distinct(ext.value.suicides) && ext.value.refunds < WORD
      ensures Flows(w, s.world, had + es)
      ensures CallBooks(w, env.eip158, depth - 1, had, from, receive, value, callee, es)
      ensures !callee.Code? ==> gas == LeftOf(callee, given)
      ensures AssuredCall(env, w, depth - 1, had, from, receive, value, callee, given) ==>
        && PaidCall(env, from, receive, value, callee, given, gas, es)
        && (ext.Some? ==> ext.value.refunds == CalleeRefunds(callee) % WORD)
      decreases callee, 1
    {
      ghost var first := [Pay(from, receive, value)];
      Transfers(w, had, s.world, from, receive, value);
      var thrown, done := Call(receive, from, receive, value, given, callee);
      es := if Unpaid(callee, given) then [] else first;
      assert had + [] == had;
      if !done {
        CallAssured(env, w, depth, had, from, receive, value, callee, given);
        es := GoAfter(first, [], w, had);
        if excepted == Fine { CodeBooked(w, env.eip158, depth, had, from, receive, value, callee, es); }
      }
    }

    /** A creation from the code gets all the gas, less a 64th from EIP 150 on, and gives back what it leaves. */
    method CreateOutside(at: Address, endowment: nat, init: Option<Run>, ghost w: World, ghost had: seq<Entry>)
      returns (ghost es: seq<Entry>)
      requires Running() && Covered(env) && Flows(w, s.world, had)
      modifies this, s
      ensures Kept() && (env.eip150 ==> gas >= old(gas) / 64)
      ensures Flows(w, s.world, had + es)
      ensures CreateBooks(w, env.eip158, depth, had, ext.value.me, at, endowment, init, es)
      ensures init.None? ==> ext == old(ext)
      decreases init, 3
    {
      var given := gas - if env.eip150 then gas / 64 else 0;
      var left;
      left, es := CreateInner(at, endowment, given, init, w, had);
      gas := gas - (given - left);
    }

    method CreateInner(at: Address, endowment: nat, given: nat, init: Option<Run>, ghost w: World,
                       ghost had: seq<Entry>)
      returns (left: nat, ghost es: seq<Entry>)
      requires Running() && Covered(env) && Flows(w, s.world, had)
      modifies this, s
      ensures Kept() && gas == old(gas) && left <= given && (init.None? ==> left == given && ext == old(ext))
      ensures Flows(w, s.world, had + es)
      ensures CreateBooks(w, env.eip158, depth, had, ext.value.me, at, endowment, init, es)
      decreases init, 2, 1
    {
      left, es := given, [];
      assert had + [] == had && Flowed(w, s.world, had, ext.value.me);
      if Allowed(s.world, endowment) {
        var sub;
        left, sub, es := CreateOnce(at, endowment, given, init, w, had);
        if sub.Some? {
          Accrue(sub.value);
        }
      }
    }

    method CreateOnce(at: Address, endowment: nat, given: nat, init: Option<Run>, ghost w: World,
                      ghost had: seq<Entry>)
      returns (left: nat, sub: Option<Ext>, ghost es: seq<Entry>)
      requires Running() && Covered(env) && Flows(w, s.world, had) && Allowed(s.world, endowment)
      modifies s
      ensures Kept() && left <= given && sub.Some? == init.Some? && (init.None? ==> left == given)
      ensures sub.Some? ==> Distinct(sub.value.suicides) && sub.value.refunds < WORD
      ensures Flows(w, s.world, had + es)
      ensures CreateBooks(w, env.eip158, depth, had, ext.value.me, at, endowment, init, es)
      decreases init, 2, 0
    {
      var inner := new Executive(s, env, depth + 1);
      es := inner.CreateAndGo(ext.value.me, at, endowment, given, init, w, had);
      KeepsFloor(inner, old(s.Trail()));
      left, sub := inner.gas, inner.ext;
    }

    /** `create`, and `go` when there is code to run. The top address, which sends what has no signature, runs no
        code. */
    method CreateAndGo(from: Address, at: Address, endowment: nat, given: nat, init: Option<Run>, ghost w: World,
                       ghost had: seq<Entry>)
      returns (ghost es: seq<Entry>)
      requires s.Valid() && Covered(env) && Flows(w, s.world, had) && endowment <= s.world.balances[from]
      requires tx.None? && ext.None? && gas == 0 && excepted == Fine && 1 <= depth <= 1024
      modifies this, s
      ensures Ready() && Worth(s.world) == old(Worth(s.world)) && old(s.Trail()) <= Floor() && gas <= given
      ensures ext.Some? == init.Some? && (init.None? ==> gas == given)
      ensures ext.Some? ==> Distinct(ext.value.suicides) && ext.value.refunds < WORD
      ensures Flows(w, s.world, had + es)
      ensures CreateBooks(w, env.eip158, depth - 1, had, from, at, endowment, init, es)
      decreases init, 1
    {
      ghost var start := Numbered(from) + Founding(from, at, endowment, env.eip158);
      Founds(w, had, s.world, from, at, endowment, env.eip158);
      var thrown, done := Create(from, at, endowment, given, init);
      es := start;
      if !done {
        es := GoAfter(start, Numbered(from), w, had);
      }
    }

    /** What was there when an inner call began is below everything that call can undo. */
    lemma KeepsFloor(inner: Executive, before: seq<World>)
      requires inner.s == s && inner.savepoint <= |s.log| && before <= inner.Floor() && savepoint < |before|
      ensures savepoint <= |s.log| && Floor() == before[..savepoint + 1]
    {
      assert inner.Floor()[..savepoint + 1] == s.Trail()[..savepoint + 1];
    }

    method Accrue(sub: Ext)
      requires ext.Some? && Distinct(ext.value.suicides) && Distinct(sub.suicides)
      modifies this`ext
      ensures ext == Some(old(ext.value).(refunds := (old(ext.value.refunds) + sub.refunds) % WORD,
                                          suicides := Merged(old(ext.value.suicides), sub.suicides)))
      ensures Distinct(ext.value.suicides)
    {
      ext := Some(ext.value.(refunds := (ext.value.refunds + sub.refunds) % WORD,
                             suicides := Merged(ext.value.suicides, sub.suicides)));
    }

    /** How the run ended. */
    method Finish(end: Outcome)
      requires Running()
      modifies this, s
      ensures Ready() && Floor() == old(Floor()) && Same() && ext.Some?
      ensures Worth(s.world) == old(Worth(s.world)) && Distinct(ext.value.suicides)
      ensures excepted == Ending(end, isCreation, old(gas), env)
      ensures gas == if excepted in {Fine, RevertInstruction} then old(gas) - Deposit(end, isCreation, old(gas), env)
        else 0
      ensures excepted == Fine ==> s.world == old(s.world) && ext == old(ext)
      ensures excepted != Fine ==> s.world == Saved() && ext.value.refunds == 0 && ext.value.suicides == []
    {
      match end {
        case Faulted =>
          Fail(VMFault);
        case Reverted =>
          excepted := RevertInstruction;
          Revert();
        case Halted(size) =>
          if isCreation {
            if size > env.maxCodeSize {
              Fail(OutOfGas);
            } else if size * env.createDataGas <= gas {
              gas := gas - size * env.createDataGas;
            } else if env.exceptionalFailedCodeDeposit {
              Fail(OutOfGas);
            }
          }
      }
    }

    method Fail(f: Fault)
      requires Running() && f != Fine
      modifies this, s
      ensures Ready() && Floor() == old(Floor()) && Same() && gas == 0 && excepted == f
      ensures s.world == Saved() && ext == Some(old(ext.value).(refunds := 0, suicides := []))
    {
      gas := 0;
      excepted := f;
      Revert();
    }

    method Revert()
      requires Ready()
      modifies this`ext, s
      ensures Ready() && Floor() == old(Floor()) && s.world == Saved()
      ensures ext == if old(ext).None? then None else Some(old(ext.value).(refunds := 0, suicides := []))
    {
      if ext.Some? {
        ext := Some(ext.value.(refunds := 0, suicides := []));
      }
      s.Rollback(savepoint);
    }

    // ------------------------------------------------------------------ settling

    /** Refund, pay back, pay the author, kill. The refund is at most half of what was spent. */
    method Finalize()
      requires s.Valid() && tx.Some? && Decoded(tx.value) && gas <= tx.value.gas
      requires ext.Some? ==> Distinct(ext.value.suicides)
      modifies this, s
      ensures s.Valid() && tx == old(tx) && excepted == old(excepted)
      ensures gas == old(gas) + refunded && 2 * refunded <= tx.value.gas - old(gas)
      ensures refunded == if ext.None? then 0 else Min((tx.value.gas - old(gas)) / 2, ext.value.refunds)
      ensures if old(ext).None? then ext.None?
        else ext == Some(old(ext.value).(refunds := WithSuicides(old(ext.value), env)))
      ensures s.world == KillAll(Settled(old(s.world), tx.value, gas, env.author), Doomed(ext))
      ensures forall a: Address :: SettledAt(old(s.world), s.world, tx.value, gas, env.author, Doomed(ext), a)
      ensures Worth(s.world) + Held(Settled(old(s.world), tx.value, gas, env.author), Doomed(ext))
           == old(Worth(s.world)) + Fees(tx.value, gas)
    {
      var t := tx.value;
      if ext.Some? {
        ext := Some(ext.value.(refunds := WithSuicides(ext.value, env)));
      }
      refunded := if ext.Some? then Min((t.gas - gas) / 2, ext.value.refunds) else 0;
      gas := gas + refunded;
      PayOut(t);
      if ext.Some? {
        KillSuicides();
      }
      forall a: Address ensures SettledAt(old(s.world), s.world, t, gas, env.author, Doomed(ext), a) {
        SettledLaw(old(s.world), t, gas, env.author, Doomed(ext), a);
      }
    }

    /** Pay the sender for the gas left, and the author for the rest. */
    method PayOut(t: Tx)
      requires s.Valid() && gas <= t.gas
      modifies s
      ensures s.Valid() && s.world == Settled(old(s.world), t, gas, env.author)
      ensures Worth(s.world) == old(Worth(s.world)) + Fees(t, gas)
    {
      Credit(t.sender, gas, t.gasPrice);
      Credit(env.author, t.gas - gas, t.gasPrice);
    }

    method Credit(a: Address, some: nat, price: nat)
      requires s.Valid()
      modifies s
      ensures s.Valid() && s.world == Added(old(s.world), a, Paid(some, price))
      ensures Worth(s.world) == old(Worth(s.world)) + Paid(some, price)
    {
      CutIsRemainder(some * price);
      s.AddBalance(a, (some * price) % WORD);
    }

    method KillSuicides()
      requires s.Valid() && ext.Some? && Distinct(ext.value.suicides)
      modifies s
      ensures s.Valid() && s.world == KillAll(old(s.world), ext.value.suicides)
      ensures Worth(s.world) + Held(old(s.world), ext.value.suicides) == old(Worth(s.world))
    {
      var dead := ext.value.suicides;
      var k := 0;
      while k < |dead|
        invariant k <= |dead| && s.Valid() && s.world == KillAll(old(s.world), dead[..k])
        invariant Worth(s.world) + Held(old(s.world), dead[..k]) == old(Worth(s.world))
      {
        assert dead[..k + 1][..k] == dead[..k];
        KillAllSpares(old(s.world), dead[..k], dead[k]);
        s.Kill(dead[k]);
        k := k + 1;
      }
      assert dead[..k] == dead;
    }

    // -------------------------------------------------------------- a whole transaction

    /** `initialize` on an executive that has done nothing yet. */
    method Begin(t: Tx) returns (ok: bool)
      requires s.Valid() && Decoded(t) && gasCost == 0 && excepted == Fine
      modifies this
      ensures tx == Some(t) && ext == old(ext) && gas == old(gas)
      ensures ok == Accepts(env, s.world, t)
      ensures ok ==> excepted == Fine && base == t.base <= t.gas && gasCost == Cost(t) <= s.world.balances[t.sender]
      ensures ok && !t.zeroSignature ==> t.value <= s.world.balances[t.sender] - gasCost
      ensures !ok ==> Blames(env, s.world, t, excepted)
    {
      ok := Initialize(t);
    }

    /** `execute`, and `go` when there is code to run. */
    method Carry(callee: Callee) returns (thrown: bool, ghost es: seq<Entry>)
      requires s.Valid() && tx.Some? && base <= tx.value.gas && ext.None? && gas == 0 && excepted == Fine
      requires (tx.value.to.None? ==> !callee.Precompiled?) && Covered(env)
      modifies this, s
      ensures s.Valid() && tx == old(tx) && gasCost == old(gasCost) && base == old(base)
      ensures gas <= tx.value.gas - base
      ensures thrown <==> Short(old(s.world), tx.value, callee, tx.value.gas - base, gasCost)
      ensures thrown ==> s.world == if gasCost > old(s.world.balances[tx.value.sender]) then old(s.world)
        else Charged(old(s.world), tx.value.sender, gasCost)
      ensures thrown && gasCost <= old(s.world.balances[tx.value.sender]) ==>
        gas == if callee.Precompiled? then PrecompiledLeft(callee, tx.value.gas - base, 0) else tx.value.gas - base
      ensures !thrown ==> Worth(s.world) + gasCost == old(Worth(s.world)) && Distinct(Doomed(ext))
      ensures !thrown && excepted != Fine && base == tx.value.base && gasCost == Cost(tx.value) ==>
        Failed(old(s.world), tx.value, callee, s.world) && Doomed(ext) == []
      ensures !thrown && excepted !in {Fine, RevertInstruction} ==> gas == 0
      ensures !thrown && excepted != Fine && ext.Some? ==> ext.value.refunds == 0
      ensures !thrown && !callee.Code? ==> ext.None? && excepted == Refused(callee, tx.value.gas - base, Fine)
      ensures !thrown && !callee.Code? ==>
        s.world == Started(Charged(old(s.world), tx.value.sender, gasCost), tx.value, callee, tx.value.gas - base,
          env.eip158)
      ensures !thrown ==> var w := Charged(old(s.world), tx.value.sender, gasCost);
        Flows(w, s.world, es) && TxBooks(env, depth, w, tx.value, callee, tx.value.gas - base, es, excepted)
      ensures !thrown && !callee.Code? ==> gas == LeftOf(callee, tx.value.gas - base)
    {
      var done;
      thrown, done := Execute(callee);
      es := Opening(tx.value, callee, tx.value.gas - base, env.eip158);
      if !thrown {
        StartFlows(Saved(), tx.value, callee, tx.value.gas - base, env.eip158);
        if !done {
          es := CarryCode(es);
        }
      }
    }

    /** The code of a transaction, after its value has moved. */
    method CarryCode(ghost start: seq<Entry>) returns (ghost es: seq<Entry>)
      requires Running() && Covered(env) && Flows(Saved(), s.world, start)
      modifies this, s
      ensures Ready() && Saved() == old(Saved()) && Worth(s.world) == old(Worth(s.world)) && Same() && gas <= old(gas)
      ensures ext.Some? && Distinct(ext.value.suicides)
      ensures excepted != Fine ==> s.world == Saved() && ext.value.refunds == 0 && ext.value.suicides == []
      ensures excepted !in {Fine, RevertInstruction} ==> gas == 0
      ensures Flows(Saved(), s.world, es)
      ensures excepted != Fine ==> es == []
      ensures excepted == Fine ==> start <= es
      ensures excepted == Fine ==>
        RanBooks(Saved(), env.eip158, depth, start, old(ext.value.me), old(ext.value.run), es[|start|..])
    {
      ghost var w := Saved();
      NothingFlows(w);
      ghost var none: seq<Entry> := [];
      assert none + start == start && none + none == none;
      es := GoAfter(start, none, w, none);
      assert none + es == es;
      assert Floor()[savepoint] == Saved() && old(Floor())[savepoint] == w;
    }

    /** Everything before `finalize`. */
    method Lead(t: Tx, callee: Callee) returns (accepted: bool, thrown: bool, ghost es: seq<Entry>)
      requires s.Valid() && Decoded(t) && (t.to.None? ==> !callee.Precompiled?) && Covered(env)
      requires tx.None? && ext.None? && gas == gasCost == 0 && excepted == Fine
      modifies this, s
      ensures s.Valid() && tx == Some(t) && accepted == Accepts(env, old(s.world), t)
      ensures !accepted ==> s.world == old(s.world) && Blames(env, old(s.world), t, excepted) && !thrown
      ensures thrown <==> accepted && Short(old(s.world), t, callee, t.gas - t.base, Cost(t))
      ensures thrown ==> t.zeroSignature && s.world == old(s.world) && gas == Handed(t, callee)
      ensures accepted && !thrown ==>
        Worth(s.world) + Cost(t) == old(Worth(s.world)) && gas <= t.gas && Distinct(Doomed(ext))
      ensures accepted && !thrown && excepted != Fine ==> Failed(old(s.world), t, callee, s.world) && Clear(ext)
      ensures accepted && !thrown && excepted !in {Fine, RevertInstruction} ==> gas == 0
      ensures accepted && !thrown && !callee.Code? ==> Direct(env, old(s.world), t, callee, s.world) && ext.None?
      ensures accepted && !thrown ==> var w := Charged(old(s.world), t.sender, Cost(t));
        Flows(w, s.world, es) && TxBooks(env, depth, w, t, callee, t.gas - t.base, es, excepted)
      ensures accepted && !thrown && !callee.Code? ==> gas == LeftOf(callee, t.gas - t.base)
    {
      thrown, es := false, [];
      accepted := Begin(t);
      if accepted {
        thrown, es := Carry(callee);
        if thrown {
          NothingCharged(old(s.world), t);
        }
      }
    }

    /** From `initialize` through `finalize`. `before` is the world that is settled. */
    method Transact(t: Tx, callee: Callee)
      returns (accepted: bool, thrown: bool, ghost before: World, ghost es: seq<Entry>)
      requires s.Valid() && Decoded(t) && (t.to.None? ==> !callee.Precompiled?) && Covered(env)
      requires tx.None? && ext.None? && gas == gasCost == 0 && excepted == Fine
      modifies this, s
      ensures s.Valid() && accepted == Accepts(env, old(s.world), t)
      ensures !accepted ==> s.world == old(s.world) && Blames(env, old(s.world), t, excepted)
      ensures thrown <==> accepted && Short(old(s.world), t, callee, t.gas - t.base, Cost(t))
      ensures thrown ==> t.zeroSignature && s.world == old(s.world) && gas == Handed(t, callee)
      ensures accepted && !thrown ==> Closed(t, before) && Worth(before) + Cost(t) == old(Worth(s.world))
      ensures accepted && !thrown ==>
        (Conserved(old(s.world), s.world, Lost(t, before)) <==> !t.zeroSignature || Fees(t, gas) == 0)
      ensures accepted && !thrown && excepted != Fine ==>
        Failed(old(s.world), t, callee, before) && s.world == Settled(before, t, gas, env.author) && refunded == 0
      ensures accepted && !thrown && excepted !in {Fine, RevertInstruction} ==> gas == 0
      ensures accepted && !thrown && !callee.Code? ==> Direct(env, old(s.world), t, callee, before) && Doomed(ext) == []
      ensures accepted && !thrown && !callee.Code? ==> gas == LeftOf(callee, t.gas - t.base)
      ensures accepted && !thrown ==>
        TxBooks(env, depth, Charged(old(s.world), t.sender, Cost(t)), t, callee, t.gas - t.base, es, excepted)
      ensures accepted && !thrown ==>
        forall a: Address :: EndedAt(old(s.world), s.world, t, es, gas, env.author, Doomed(ext), a)
    {
      accepted, thrown, es := Lead(t, callee);
      before := s.world;
      if accepted && !thrown {
        Close();
        Conservation(env, old(s.world), t, gas);
        EndLaw(old(s.world), before, s.world, t, es, gas, env.author, Doomed(ext));
      }
    }

    /** `finalize`, and what it leaves. */
    method Close()
      requires s.Valid() && tx.Some? && Decoded(tx.value) && gas <= tx.value.gas && Distinct(Doomed(ext))
      modifies this, s
      ensures s.Valid() && tx == old(tx) && Closed(tx.value, old(s.world)) && excepted == old(excepted)
      ensures Doomed(ext) == old(Doomed(ext)) && (old(ext).None? ==> ext.None?)
      ensures old(Clear(ext)) ==>
        refunded == 0 && gas == old(gas) && s.world == Settled(old(s.world), tx.value, gas, env.author)
      ensures forall a: Address :: SettledAt(old(s.world), s.world, tx.value, gas, env.author, Doomed(ext), a)
    {
      Finalize();
    }

    /** What the killed accounts held. */
    ghost function Lost(t: Tx, before: World): nat
      requires |before.balances| == ADDRESSES && gas <= t.gas
      reads this
    {
      Held(Settled(before, t, gas, env.author), Doomed(ext))
    }

    /** The books after `finalize`: every coin of before and of the fees is there or was killed, and the refund is
        at most half the gas that was spent before it. */
    ghost predicate Closed(t: Tx, before: World)
      reads this, s
    {
      && Sound(before)
      && refunded <= gas <= t.gas && 2 * refunded <= t.gas - (gas - refunded)
      && s.world == KillAll(Settled(before, t, gas, env.author), Doomed(ext))
      && Worth(s.world) + Lost(t, before) == Worth(before) + Fees(t, gas)
    }
  }

  // ------------------------------------------------------------------ what a run leaves

  /** What moving value costs a caller, and the gas that the receiver gets with it. */
  function Price(env: Env, value: nat): nat {
    if value > 0 then env.callValueTransferGas else 0
  }

  function Stipend(env: Env, value: nat): nat {
    if value > 0 then env.callStipend else 0
  }

  lemma {:induction false} CallEvent(env: Env, w: World, depth: nat, had: seq<Entry>, me: Address, e: Event)
    requires |w.balances| == ADDRESSES && e.CallOut?
    ensures FundedEvent(Rates(env), w, depth, had, me, e) <==>
      FundedCall(Rates(env), w, depth, had, me, e.receive, e.value, e.callee) &&
      CalleeNeeds(Rates(env), e.callee) <= e.asked
    ensures EventNeeds(Rates(env), e) == Price(env, e.value) + 2 * e.asked
    ensures EventUses(Rates(env), e) == Price(env, e.value) - Stipend(env, e.value) + CalleeUses(Rates(env), e.callee)
    ensures EventSends(me, e) == [Pay(me, e.receive, e.value)] + CalleeSends(e.receive, e.callee)
    ensures EventRefunds(e) == CalleeRefunds(e.callee)
  {
  }

  function Rates(env: Env): Tariff {
    Tariff(env.callValueTransferGas, env.callStipend)
  }

  /** The gas that a call of an account without code is left with. */
  function LeftOf(callee: Callee, given: nat): nat
    requires !callee.Code?
  {
    if callee.NoCode? then given
    else if callee.cost <= given && callee.ok then given - callee.cost
    else 0
  }

  /** Money, depth and gas are there for everything the run asks for, and it ends properly. */
  ghost predicate AssuredRun(env: Env, w: World, depth: nat, had: seq<Entry>, ext: Ext, gas: nat)
    requires |w.balances| == ADDRESSES
  {
    FundedRun(Rates(env), w, depth, had, ext.me, ext.run) &&
      Needs(Rates(env), ext.run, |ext.run.events|) <= gas <= MAX63
  }

  ghost predicate AssuredCall(env: Env, w: World, depth: nat, had: seq<Entry>, from: Address, receive: Address,
                              value: nat, callee: Callee, given: nat)
    requires |w.balances| == ADDRESSES
  {
    FundedCall(Rates(env), w, depth, had, from, receive, value, callee) &&
      CalleeNeeds(Rates(env), callee) <= given <= MAX63
  }

  /** What assures a call assures the run it starts. */
  lemma {:induction false} CallAssured(env: Env, w: World, depth: nat, had: seq<Entry>, from: Address, receive: Address,
                                       value: nat, callee: Callee, given: nat)
    requires |w.balances| == ADDRESSES && callee.Code? && depth > 0
    ensures AssuredCall(env, w, depth - 1, had, from, receive, value, callee, given) ==>
      AssuredRun(env, w, depth, had + [Pay(from, receive, value)], Ext(receive, callee.run, 0, []), given)
  {
  }

  lemma {:induction false} CodeBooked(w: World, eip158: bool, depth: nat, had: seq<Entry>, from: Address,
                                      receive: Address, value: nat, callee: Callee, es: seq<Entry>)
    requires |w.balances| == ADDRESSES && callee.Code? && 1 <= depth <= 1024 && value <= Balance(w, had, from)
    requires [Pay(from, receive, value)] <= es
    requires RanBooks(w, eip158, depth, had + [Pay(from, receive, value)], receive, callee.run, es[1..])
    ensures CallBooks(w, eip158, depth - 1, had, from, receive, value, callee, es)
  {
    assert es[0] == Pay(from, receive, value);
  }

  /** The value has arrived, what the called code pays has been paid, and the gas left is known to the unit. */
  ghost predicate PaidCall(env: Env, from: Address, receive: Address, value: nat, callee: Callee, given: nat, left: nat,
                           es: seq<Entry>)
  {
    es == [Pay(from, receive, value)] + CalleeSends(receive, callee) && left == given - CalleeUses(Rates(env), callee)
  }

  /** After the first k events of an assured run: every call has paid, and the gas is known to the unit. */
  ghost predicate Done(env: Env, was: Ext, hadGas: nat, es: seq<Entry>, k: nat, now: Ext, gas: nat)
    requires k <= |was.run.events|
  {
    && es == Sends(was.me, was.run, k) && gas == hadGas - Uses(Rates(env), was.run, k)
    && now.refunds == (was.refunds + Refunds(was.run, k)) % WORD
  }

  /** What an assured event has done. */
  ghost predicate Stepped(env: Env, was: Ext, hadGas: nat, es: seq<Entry>, e: Event, now: Ext, gas: nat) {
    && es == EventSends(was.me, e) && gas == hadGas - EventUses(Rates(env), e)
    && now.refunds == (was.refunds + EventRefunds(e)) % WORD
  }

  lemma {:induction false} DoneNext(env: Env, was: Ext, hadGas: nat, so: seq<Entry>, k: nat, mid: Ext, midGas: nat,
                                    more: seq<Entry>, now: Ext, gas: nat)
    requires k < |was.run.events| && mid.me == was.me
    ensures Done(env, was, hadGas, so, k, mid, midGas) && Stepped(env, mid, midGas, more, was.run.events[k], now, gas)
      ==> Done(env, was, hadGas, so + more, k + 1, now, gas)
  {
    AddOn(was.refunds + Refunds(was.run, k), EventRefunds(was.run.events[k]));
  }

  /** What one event that runs no code below has done to the refunds and the suicides. */
  ghost predicate LoneStep(was: Ext, now: Ext, e: Event) {
    && now.refunds == (was.refunds + EventRefunds(e)) % WORD
    && forall a: Address :: a in now.suicides <==> a in was.suicides || (e.Suicide? && a == was.me)
  }

  /** The same for the first k events of a run: the refunds are summed, and whoever runs dies if it says so. */
  ghost predicate LoneEnd(was: Ext, now: Ext, k: nat)
    requires k <= |was.run.events|
  {
    && now.refunds == (was.refunds + Refunds(was.run, k)) % WORD
    && forall a: Address :: a in now.suicides <==> a in was.suicides || (Dies(was.run, k) && a == was.me)
  }

  ghost predicate Dies(run: Run, k: nat)
    requires k <= |run.events|
  {
    exists i | 0 <= i < k :: run.events[i].Suicide?
  }

  lemma {:induction false} Begins(was: Ext)
    requires was.refunds < WORD
    ensures LoneEnd(was, was, 0) && was.refunds == (was.refunds + Refunds(was.run, 0)) % WORD
  {
  }

  lemma {:induction false} LoneNext(was: Ext, mid: Ext, now: Ext, k: nat)
    requires k < |was.run.events| && mid.me == was.me
    requires Lone(was.run) ==> LoneEnd(was, mid, k) && LoneStep(mid, now, was.run.events[k])
    ensures Lone(was.run) ==> LoneEnd(was, now, k + 1)
  {
    AddOn(was.refunds + Refunds(was.run, k), EventRefunds(was.run.events[k]));
    var e := was.run.events[k];
    assert Dies(was.run, k + 1) <==> Dies(was.run, k) || e.Suicide?;
  }

  /** A transfer is one entry more. */
  lemma {:induction false} Transfers(w: World, had: seq<Entry>, x: World, from: Address, to: Address, v: nat)
    requires Sound(x) && Flows(w, x, had) && v <= x.balances[from]
    ensures Flows(w, Moved(x, from, to, v), had + [Pay(from, to, v)]) && x.balances[from] == Balance(w, had, from)
    ensures Sound(Moved(x, from, to, v))
  {
    SubtractedWorth(x, from, v);
    AddedWorth(Subtracted(x, from, v), to, v);
    assert Flowed(w, x, had, from);
    PayFlows(x, from, to, v);
    FlowsOn(w, x, Moved(x, from, to, v), had, [Pay(from, to, v)]);
  }

  /** And a nonce that goes up. */
  lemma {:induction false} CountsUp(w: World, had: seq<Entry>, x: World, whose: Address)
    requires Sound(x) && Flows(w, x, had)
    ensures Flows(w, NonceUp(x, whose), had + [Count(whose)])
  {
    CountFlows(x, whose);
    FlowsOn(w, x, NonceUp(x, whose), had, [Count(whose)]);
  }

  lemma {:induction false} Founds(w: World, had: seq<Entry>, x: World, from: Address, at: Address, v: nat, eip158: bool)
    requires Sound(x) && Flows(w, x, had) && v <= x.balances[from]
    ensures x.balances[from] == Balance(w, had, from)
    ensures var y := if from != MAX_ADDRESS then NonceUp(x, from) else x;
      && Flows(w, y, had + Numbered(from))
      && Flows(w, Founded(y, from, at, v, eip158), had + (Numbered(from) + Founding(from, at, v, eip158)))
  {
    var y := if from != MAX_ADDRESS then NonceUp(x, from) else x;
    assert Flowed(w, x, had, from);
    assert had + [] == had;
    if from != MAX_ADDRESS { CountsUp(w, had, x, from); }
    FoundsFrom(w, had + Numbered(from), y, from, at, v, eip158);
    assert had + Numbered(from) + Founding(from, at, v, eip158) == had + (Numbered(from) + Founding(from, at, v,
      eip158));
  }

  lemma {:induction false} FoundsFrom(w: World, had: seq<Entry>, y: World, from: Address, at: Address, v: nat,
                                      eip158: bool)
    requires Sound(y) && Flows(w, y, had) && v <= y.balances[from]
    ensures Flows(w, Founded(y, from, at, v, eip158), had + Founding(from, at, v, eip158))
  {
    Transfers(w, had, y, from, at, v);
    var m, p := Moved(y, from, at, v), [Pay(from, at, v)];
    if eip158 {
      CountsUp(w, had + p, m, at);
      assert had + p + [Count(at)] == had + (p + [Count(at)]);
    } else {
      assert Founding(from, at, v, eip158) == p;
    }
  }

  /** The stipend that a call with value is given is paid for by the price of moving value. */
  predicate Covered(env: Env) {
    env.callStipend <= env.callValueTransferGas
  }

  /** A creation's code can be too large, or too dear to store where that is an error. */
  predicate TooMuchCode(end: Outcome, isCreation: bool, gas: nat, env: Env) {
    end.Halted? && isCreation
    && (end.size > env.maxCodeSize || (end.size * env.createDataGas > gas && env.exceptionalFailedCodeDeposit))
  }

  function Ending(end: Outcome, isCreation: bool, gas: nat, env: Env): Fault {
    if end.Faulted? then VMFault
    else if end.Reverted? then RevertInstruction
    else if TooMuchCode(end, isCreation, gas, env) then OutOfGas
    else Fine
  }

  /** What storing a creation's code costs; nothing where it cannot be paid and is left out. */
  function Deposit(end: Outcome, isCreation: bool, gas: nat, env: Env): (d: nat)
    ensures d <= gas
  {
    if end.Halted? && isCreation && end.size * env.createDataGas <= gas then end.size * env.createDataGas else 0
  }

  ghost predicate Distinct(a: seq<Address>) {
    forall j, k | 0 <= j < k < |a| :: a[j] != a[k]
  }

  /** a with what is new in b. */
  function Merged(a: seq<Address>, b: seq<Address>): (m: seq<Address>)
    ensures Distinct(a) ==> Distinct(m)
    ensures forall x :: x in m <==> x in a || x in b
    decreases |b|
  {
    if b == [] then a
    else Merged(if b[0] in a then a else a + [b[0]], b[1..])
  }

  // --------------------------------------------------------- what the steps do to a world

  /** A precompiled contract that cannot be paid for ends the call before any value moves. */
  predicate Unpaid(callee: Callee, given: nat) {
    callee.Precompiled? && given < callee.cost
  }

  function Refused(callee: Callee, given: nat, otherwise: Fault): Fault {
    if Unpaid(callee, given) then OutOfGasBase
    else if callee.Precompiled? && !callee.ok then OutOfGas else otherwise
  }

  function PrecompiledLeft(callee: Callee, given: nat, unpaid: nat): nat
    requires callee.Precompiled?
  {
    if given < callee.cost then unpaid else if callee.ok then given - callee.cost else 0
  }

  function Target(t: Tx): Address {
    if t.to.None? then t.created else t.to.value
  }

  function Moved(w: World, from: Address, to: Address, v: nat): World
    requires |w.balances| == ADDRESSES && v <= w.balances[from]
  {
    Added(Subtracted(w, from, v), to, v)
  }

  /** The gas is paid for and the nonce is used up: no later undo goes behind this. */
  function Charged(w: World, sender: Address, cost: nat): World
    requires |w.balances| == |w.nonces| == ADDRESSES && cost <= w.balances[sender]
  {
    var paid := Subtracted(w, sender, cost);
    if sender != MAX_ADDRESS then NonceUp(paid, sender) else paid
  }

  function Started(w: World, t: Tx, callee: Callee, given: nat, eip158: bool): World
    requires |w.balances| == |w.nonces| == ADDRESSES && (Unpaid(callee, given) || t.value <= w.balances[t.sender])
  {
    if Unpaid(callee, given) then w
    else if t.to.None? then Founded(w, t.sender, t.created, t.value, eip158)
    else Moved(w, t.sender, t.to.value, t.value)
  }

  function Founded(w: World, from: Address, at: Address, v: nat, eip158: bool): World
    requires |w.balances| == |w.nonces| == ADDRESSES && v <= w.balances[from]
  {
    var moved := Moved(w, from, at, v);
    if eip158 then NonceUp(moved, at) else moved
  }

  /** What the gas costs: nothing, for a transaction without a signature. */
  function Cost(t: Tx): nat {
    if t.zeroSignature then 0 else t.gas * t.gasPrice
  }

  /** The gas that a call or a creation that throws is left with. */
  function Handed(t: Tx, callee: Callee): nat
    requires t.base <= t.gas
  {
    if callee.Precompiled? then PrecompiledLeft(callee, t.gas - t.base, 0) else t.gas - t.base
  }

  /** Without a signature the start of a transaction leaves no trace: there is nothing to pay and no nonce to use. */
  lemma NothingCharged(w: World, t: Tx)
    requires |w.balances| == |w.nonces| == ADDRESSES && Decoded(t) && t.zeroSignature
    ensures Charged(w, t.sender, Cost(t)) == w
  {
    assert w.balances[t.sender := w.balances[t.sender]] == w.balances;
  }

  function Min(a: nat, b: nat): nat {
    if b < a then b else a
  }

  function Doomed(ext: Option<Ext>): seq<Address> {
    if ext.Some? then ext.value.suicides else []
  }

  /** Nothing left to refund or to kill. */
  predicate Clear(ext: Option<Ext>) {
    ext.Some? ==> ext.value.refunds == 0 && ext.value.suicides == []
  }

  /** The ether after is the ether before but for what was killed. */
  ghost predicate Conserved(before: World, after: World, killed: nat) {
    Worth(after) + killed == Worth(before)
  }

  function WithSuicides(ext: Ext, env: Env): nat {
    (ext.refunds + env.suicideRefundGas * |ext.suicides|) % WORD
  }

  /** The sender gets back what is left, the author what was used. */
  function Settled(w: World, t: Tx, left: nat, author: Address): World
    requires |w.balances| == ADDRESSES && left <= t.gas
  {
    Added(Added(w, t.sender, Paid(left, t.gasPrice)), author, Paid(t.gas - left, t.gasPrice))
  }

  /** A number in 256 bits. */
  function Cut(n: nat): (r: nat)
    ensures r < WORD
  {
    if n < WORD then n else Cut(n - WORD)
  }

  lemma {:induction false} CutIsRemainder(n: nat)
    ensures Cut(n) == n % WORD
  {
    if n >= WORD { CutIsRemainder(n - WORD); }
  }

  /** The price of some gas, cut to 256 bits: nothing exactly when it is a multiple of 2^256. */
  function Paid(some: nat, price: nat): nat {
    Cut(some * price)
  }

  /** Settlement on one account: what is left is paid back to the sender, what was used goes to the author, and the dead
      have nothing. */
  ghost predicate SettledAt(w: World, r: World, t: Tx, left: nat, author: Address, dead: seq<Address>, a: Address)
    requires |w.balances| == |w.nonces| == |r.balances| == |r.nonces| == ADDRESSES && left <= t.gas
  {
    if a in dead then r.balances[a] == r.nonces[a] == 0
    else
      && r.balances[a] == Cut(w.balances[a] + Settlement(t, left, author, a))
      && r.nonces[a] == w.nonces[a]
  }

  function Settlement(t: Tx, left: nat, author: Address, a: Address): nat
    requires left <= t.gas
  {
    (if a == t.sender then left * t.gasPrice else 0) + if a == author then (t.gas - left) * t.gasPrice else 0
  }

  lemma {:induction false} SettledLaw(w: World, t: Tx, left: nat, author: Address, dead: seq<Address>, a: Address)
    requires Sound(w) && left <= t.gas
    ensures SettledAt(w, KillAll(Settled(w, t, left, author), dead), t, left, author, dead, a)
  {
    KilledAt(Settled(w, t, left, author), dead, a);
    SettledOne(w, t, left, author, a);
  }

  lemma {:induction false} SettledOne(w: World, t: Tx, left: nat, author: Address, a: Address)
    requires Sound(w) && left <= t.gas
    ensures var r := Settled(w, t, left, author);
      r.balances[a] == Cut(w.balances[a] + Settlement(t, left, author, a)) && r.nonces[a] == w.nonces[a]
  {
    TwoCredits(w, t.sender, left * t.gasPrice, author, (t.gas - left) * t.gasPrice, a);
  }

  lemma {:induction false} TwoCredits(w: World, x: Address, v: nat, y: Address, u: nat, a: Address)
    requires Sound(w)
    ensures var r := Added(Added(w, x, Cut(v)), y, Cut(u));
      && r.balances[a] == Cut(w.balances[a] + ((if a == x then v else 0) + if a == y then u else 0))
      && r.nonces[a] == w.nonces[a]
  {
    CreditedAt(w, x, v, a);
    CreditedAt(Added(w, x, Cut(v)), y, u, a);
    AddOn(w.balances[a] + if a == x then v else 0, if a == y then u else 0);
    CutIsRemainder(w.balances[a] + ((if a == x then v else 0) + if a == y then u else 0));
  }

  lemma {:induction false} CreditedAt(w: World, to: Address, v: nat, a: Address)
    requires |w.balances| == |w.nonces| == ADDRESSES && w.balances[a] < WORD
    ensures Added(w, to, Cut(v)).balances[a] == (w.balances[a] + if a == to then v else 0) % WORD
  {
    CutIsRemainder(v);
    AddOn(v, w.balances[a]);
  }

  lemma {:induction false} KilledAt(w: World, dead: seq<Address>, a: Address)
    requires |w.balances| == |w.nonces| == ADDRESSES
    ensures var r := KillAll(w, dead);
      if a in dead then r.balances[a] == r.nonces[a] == 0
      else r.balances[a] == w.balances[a] && r.nonces[a] == w.nonces[a]
  {
    if dead != [] {
      var rest := dead[..|dead| - 1];
      KilledAt(w, rest, a);
      assert dead == rest + [dead[|dead| - 1]];
    }
  }

  // ----------------------------------------------------------- a transaction, account by account

  /** What a transaction enters before any code runs. */
  function Opening(t: Tx, callee: Callee, given: nat, eip158: bool): seq<Entry> {
    if Unpaid(callee, given) then []
    else if t.to.None? then Founding(t.sender, t.created, t.value, eip158)
    else [Pay(t.sender, t.to.value, t.value)]
  }

  /** The entries of a transaction: its value to its target and what the code that runs there enters; nothing if the
      code fails. */
  ghost predicate TxBooks(env: Env, depth: nat, w: World, t: Tx, callee: Callee, given: nat, es: seq<Entry>, f: Fault)
    requires |w.balances| == ADDRESSES
  {
    var start := Opening(t, callee, given, env.eip158);
    if !callee.Code? then es == start
    else if f != Fine then es == []
    else start <= es && RanBooks(w, env.eip158, depth, start, Target(t), callee.run, es[|start|..])
  }

  /** One account after a transaction: what it was, less the gas bought if it is the sender's, with the entries, with
      what is paid back and what the author earns; the dead have nothing. */
  ghost predicate EndedAt(w: World, r: World, t: Tx, es: seq<Entry>, left: nat, author: Address, dead: seq<Address>,
                          a: Address)
    requires |w.balances| == |w.nonces| == |r.balances| == |r.nonces| == ADDRESSES && left <= t.gas
  {
    if a in dead then r.balances[a] == r.nonces[a] == 0
    else
      && r.balances[a] == (w.balances[a] - Bought(t, a) + Net(es, a) + Settlement(t, left, author, a)) % WORD
      && r.nonces[a] == (w.nonces[a] + (if a == t.sender && a != MAX_ADDRESS then 1 else 0) + Counted(es, a)) % WORD
  }

  function Bought(t: Tx, a: Address): nat {
    if a == t.sender then Cost(t) else 0
  }

  lemma {:induction false} StartFlows(w: World, t: Tx, callee: Callee, given: nat, eip158: bool)
    requires Sound(w) && (Unpaid(callee, given) || t.value <= w.balances[t.sender])
    ensures Flows(w, Started(w, t, callee, given, eip158), Opening(t, callee, given, eip158))
  {
    NothingFlows(w);
    if !Unpaid(callee, given) {
      if t.to.None? {
        FoundsFrom(w, [], w, t.sender, t.created, t.value, eip158);
        assert [] + Founding(t.sender, t.created, t.value, eip158) == Founding(t.sender, t.created, t.value, eip158);
      } else {
        PayFlows(w, t.sender, t.to.value, t.value);
      }
    }
  }

  lemma {:induction false} EndLaw(w: World, before: World, r: World, t: Tx, es: seq<Entry>, left: nat, author: Address,
               dead: seq<Address>)
    requires Sound(w) && Cost(t) <= w.balances[t.sender] && left <= t.gas
    requires Flows(Charged(w, t.sender, Cost(t)), before, es) && |r.balances| == |r.nonces| == ADDRESSES
    requires forall a: Address :: SettledAt(before, r, t, left, author, dead, a)
    ensures forall a: Address :: EndedAt(w, r, t, es, left, author, dead, a)
  {
    forall a: Address ensures EndedAt(w, r, t, es, left, author, dead, a) {
      assert SettledAt(before, r, t, left, author, dead, a);
      assert Flowed(Charged(w, t.sender, Cost(t)), before, es, a);
      EndOne(w, before, t, es, a, Settlement(t, left, author, a));
      CutIsRemainder(before.balances[a] + Settlement(t, left, author, a));
    }
  }

  lemma {:induction false} EndOne(w: World, before: World, t: Tx, es: seq<Entry>, a: Address, more: nat)
    requires Sound(w) && Cost(t) <= w.balances[t.sender] && |before.balances| == |before.nonces| == ADDRESSES
    requires Flowed(Charged(w, t.sender, Cost(t)), before, es, a)
    ensures (before.balances[a] + more) % WORD == (w.balances[a] - Bought(t, a) + Net(es, a) + more) % WORD
    ensures before.nonces[a] ==
      (w.nonces[a] + (if a == t.sender && a != MAX_ADDRESS then 1 else 0) + Counted(es, a)) % WORD
  {
    var c := Charged(w, t.sender, Cost(t));
    ChargedAt(w, t, a);
    AddOn(c.balances[a] + Net(es, a), more);
    AddOn(w.nonces[a] + if a == t.sender && a != MAX_ADDRESS then 1 else 0, Counted(es, a));
  }

  lemma {:induction false} ChargedAt(w: World, t: Tx, a: Address)
    requires Sound(w) && Cost(t) <= w.balances[t.sender]
    ensures var c := Charged(w, t.sender, Cost(t));
      && c.balances[a] == w.balances[a] - Bought(t, a)
      && c.nonces[a] == (w.nonces[a] + if a == t.sender && a != MAX_ADDRESS then 1 else 0) % WORD
  {
  }

  /** What a signed transfer between accounts without code costs, with three accounts in play: its sender pays the value
      and the gas that was used, the receiver has the value, the author the gas, and nobody else notices. */
  lemma {:induction false} PlainTransfer(env: Env, depth: nat, w: World, r: World, t: Tx, es: seq<Entry>, left: nat,
                                         author: Address, f: Fault)
    requires Sound(w) && Accepts(env, w, t) && !t.zeroSignature && left <= t.gas && t.to.Some?
    requires t.sender != t.to.value && t.sender != author && t.to.value != author
    requires |r.balances| == |r.nonces| == ADDRESSES
    requires TxBooks(env, depth, Charged(w, t.sender, Cost(t)), t, NoCode, t.gas - t.base, es, f)
    requires forall a: Address :: EndedAt(w, r, t, es, left, author, [], a)
    ensures r.balances[t.sender] == w.balances[t.sender] - t.value - (t.gas - left) * t.gasPrice
    ensures r.balances[t.to.value] == (w.balances[t.to.value] + t.value) % WORD
    ensures r.balances[author] == (w.balances[author] + (t.gas - left) * t.gasPrice) % WORD
    ensures forall a: Address | a !in {t.sender, t.to.value, author} :: r.balances[a] == w.balances[a]
  {
    forall a: Address ensures r.balances[a] == (w.balances[a] + Change(t, left, author, a)) % WORD {
      PlainOne(w, r, t, es, left, author, a);
    }
    SenderPays(w.balances[t.sender], t.value, t.gas, left, t.gasPrice);
  }

  /** By how much a plain transfer changes an account. */
  function Change(t: Tx, left: nat, author: Address, a: Address): int
    requires left <= t.gas && t.to.Some?
  {
    Gain(Pay(t.sender, t.to.value, t.value), a) + Settlement(t, left, author, a) - Bought(t, a)
  }

  lemma {:induction false} PlainOne(w: World, r: World, t: Tx, es: seq<Entry>, left: nat, author: Address, a: Address)
    requires |w.balances| == |w.nonces| == |r.balances| == |r.nonces| == ADDRESSES && left <= t.gas && t.to.Some?
    requires es == [Pay(t.sender, t.to.value, t.value)] && EndedAt(w, r, t, es, left, author, [], a)
    ensures r.balances[a] == (w.balances[a] + Change(t, left, author, a)) % WORD
  {
    One(Pay(t.sender, t.to.value, t.value), a);
  }

  lemma SenderPays(b: nat, v: nat, gas: nat, left: nat, price: nat)
    requires left <= gas && v + gas * price <= b < WORD
    ensures (b + (left * price - v - gas * price)) % WORD == b - v - (gas - left) * price
  {
    Parts(left, gas - left, price);
    Stays(b - v - (gas - left) * price);
  }

  lemma Stays(n: int)
    requires 0 <= n < WORD
    ensures n % WORD == n
  {
  }

  /** A transaction that was accepted is not accepted again: its nonce is used, and nothing that runs counts it back. */
  lemma {:induction false} NotTwice(env: Env, again: Env, w: World, r: World, t: Tx, es: seq<Entry>, left: nat,
                                    author: Address, dead: seq<Address>)
    requires Sound(w) && Sound(r) && Accepts(env, w, t) && !t.zeroSignature && left <= t.gas
    requires t.sender != MAX_ADDRESS && t.sender !in dead && |es| + 1 < WORD
    requires EndedAt(w, r, t, es, left, author, dead, t.sender)
    ensures !Accepts(again, r, t)
  {
    CountedWithin(es, t.sender);
    Around(w.nonces[t.sender], 1 + Counted(es, t.sender));
  }

  lemma Around(n: nat, k: nat)
    requires n < WORD && 0 < k < WORD
    ensures (n + k) % WORD != n
  {
  }

  lemma {:induction false} CountedWithin(es: seq<Entry>, a: Address)
    ensures Counted(es, a) <= |es|
  {
    if es != [] { CountedWithin(es[..|es| - 1], a); }
  }

  function Fees(t: Tx, left: nat): nat
    requires left <= t.gas
  {
    Paid(left, t.gasPrice) + Paid(t.gas - left, t.gasPrice)
  }

  function KillAll(w: World, dead: seq<Address>): (r: World)
    requires |w.balances| == |w.nonces| == ADDRESSES
    ensures |r.balances| == |r.nonces| == ADDRESSES
  {
    if dead == [] then w else Killed(KillAll(w, dead[..|dead| - 1]), dead[|dead| - 1])
  }

  /** What the accounts hold between them. */
  function Held(w: World, some: seq<Address>): nat
    requires |w.balances| == ADDRESSES
  {
    if some == [] then 0 else Held(w, some[..|some| - 1]) + w.balances[some[|some| - 1]]
  }

  lemma {:induction false} KillAllSpares(w: World, dead: seq<Address>, a: Address)
    requires |w.balances| == |w.nonces| == ADDRESSES && a !in dead
    ensures KillAll(w, dead).balances[a] == w.balances[a]
  {
    if dead != [] { KillAllSpares(w, dead[..|dead| - 1], a); }
  }

  /** The world a failed transaction leaves, before it is settled: the gas is paid for, the nonce is used, and only a
      precompiled contract that ran and failed has its value. */
  function Failing(w: World, t: Tx, callee: Callee, given: nat, cost: nat): World
    requires |w.balances| == |w.nonces| == ADDRESSES && !Short(w, t, callee, given, cost)
  {
    var charged := Charged(w, t.sender, cost);
    if callee.Precompiled? && !Unpaid(callee, given) then Moved(charged, t.sender, Target(t), t.value) else charged
  }

  /** The world a transaction that runs no code leaves, before it is settled. */
  ghost predicate Direct(env: Env, w: World, t: Tx, callee: Callee, before: World) {
    && |w.balances| == |w.nonces| == ADDRESSES && t.base <= t.gas && !Short(w, t, callee, t.gas - t.base, Cost(t))
    && before == Started(Charged(w, t.sender, Cost(t)), t, callee, t.gas - t.base, env.eip158)
  }

  /** The sender cannot pay. */
  predicate Short(w: World, t: Tx, callee: Callee, given: nat, cost: nat)
    requires |w.balances| == ADDRESSES
  {
    cost > w.balances[t.sender] || (!Unpaid(callee, given) && t.value > w.balances[t.sender] - cost)
  }

  ghost predicate Failed(w: World, t: Tx, callee: Callee, before: World) {
    && |w.balances| == |w.nonces| == ADDRESSES && t.base <= t.gas && !Short(w, t, callee, t.gas - t.base, Cost(t))
    && before == Failing(w, t, callee, t.gas - t.base, Cost(t))
  }

  /** What the checks ask for, all together. */
  ghost predicate Accepts(env: Env, w: World, t: Tx)
    requires Sound(w)
  {
    && (t.zeroSignature ==> if env.metropolis then t.value == t.gasPrice == t.nonce == 0 else t.to.Some?)
    && (env.homestead ==> t.lowS)
    && env.gasUsed + t.gas <= env.gasLimit
    && t.base <= t.gas
    && (!t.zeroSignature ==>
          t.recoverable && t.nonce == w.nonces[t.sender] && t.value + t.gas * t.gasPrice <= w.balances[t.sender])
  }

  /** A refusal is for something that is so. */
  ghost predicate Blames(env: Env, w: World, t: Tx, f: Fault)
    requires Sound(w)
  {
    match f
    case Fine => false
    case InvalidSignature => (t.zeroSignature && !env.metropolis && t.to.None?) || (env.homestead && !t.lowS) ||
      !t.recoverable
    case InvalidZeroSignature => t.zeroSignature && env.metropolis && !(t.value == t.gasPrice == t.nonce == 0)
    case BlockGasLimitReached => env.gasUsed + t.gas > env.gasLimit
    case OutOfGasBase => t.base > t.gas
    case InvalidNonce => !t.zeroSignature && t.nonce != w.nonces[t.sender]
    case NotEnoughCash => !t.zeroSignature && w.balances[t.sender] < t.value + t.gas * t.gasPrice
    case OutOfGas => false
    case RevertInstruction => false
    case VMFault => false
  }

  // ------------------------------------------------------------- conservation

  /** What is paid back and what the author earns make up the gas that was bought, if that fits 256 bits. */
  lemma {:induction false} FeesAreCost(t: Tx, left: nat)
    requires left <= t.gas && t.gas * t.gasPrice < WORD
    ensures Fees(t, left) == t.gas * t.gasPrice
  {
    Parts(left, t.gas - left, t.gasPrice);
  }

  lemma Parts(left: nat, used: nat, price: nat)
    ensures left * price + used * price == (left + used) * price
    ensures left * price >= 0 && used * price >= 0
  {
  }

  /** With a signature the fees are what was paid. Without one nothing was paid, so the fees are new ether, unless
      they are nothing: always so from metropolis on, and before it exactly when the whole product of gas and price and
      the part of it that is paid back are multiples of 2^256. */
  lemma {:induction false} Conservation(env: Env, w: World, t: Tx, left: nat)
    requires Sound(w) && Decoded(t) && Accepts(env, w, t) && left <= t.gas
    ensures Fees(t, left) == Cost(t) <==> !t.zeroSignature || Fees(t, left) == 0
    ensures Fees(t, left) == 0 <==> Paid(t.gas, t.gasPrice) == 0 && Paid(left, t.gasPrice) == 0
    ensures Cut(Fees(t, left)) == Paid(t.gas, t.gasPrice)
    ensures env.metropolis ==> Fees(t, left) == Cost(t)
    ensures t.zeroSignature && t.gas * t.gasPrice < WORD ==> (Fees(t, left) == 0 <==> t.gas * t.gasPrice == 0)
  {
    if !t.zeroSignature || t.gas * t.gasPrice < WORD {
      FeesAreCost(t, left);
    }
    if env.metropolis && t.zeroSignature {
      assert t.gasPrice == 0;
    }
    FeesAreParts(t, left);
  }

  lemma {:induction false} FeesAreParts(t: Tx, left: nat)
    requires left <= t.gas
    ensures Fees(t, left) == 0 <==> Paid(t.gas, t.gasPrice) == 0 && Paid(left, t.gasPrice) == 0
    ensures Cut(Fees(t, left)) == Paid(t.gas, t.gasPrice)
  {
    Parts(left, t.gas - left, t.gasPrice);
    CutParts(left * t.gasPrice, (t.gas - left) * t.gasPrice);
  }

  lemma {:induction false} CutParts(a: nat, b: nat)
    ensures Cut(a) + Cut(b) == 0 <==> Cut(a + b) == 0 && Cut(a) == 0
    ensures Cut(Cut(a) + Cut(b)) == Cut(a + b)
  {
    CutIsRemainder(a);
    CutIsRemainder(b);
    CutIsRemainder(a + b);
    CutIsRemainder(Cut(a) + Cut(b));
    SplitModulo(a, b);
  }

  lemma SplitModulo(a: nat, b: nat)
    ensures (a % WORD + b % WORD) % WORD == (a + b) % WORD
    ensures a % WORD == 0 && b % WORD == 0 <==> (a + b) % WORD == 0 && a % WORD == 0
  {
  }

  /** No balance wraps while the ether there is stays below 2^256. */
  lemma NothingWraps(before: World, after: World, killed: nat)
    requires Total(before.balances) < WORD && before.lost == 0 && Conserved(before, after, killed)
    ensures after.lost == 0 && Total(after.balances) + killed == Total(before.balances)
  {
  }

  /** The transaction without a signature that `Mint` carries out. */
  function Unsigned(): Tx {
    Tx(MAX_ADDRESS, Some(0), 0, 0, 21000, 1, 0, true, true, true, 21000)
  }

  /** Before metropolis every world accepts it, and its fees are 21000 units that nobody paid. */
  lemma Minting(env: Env, w: World)
    requires Sound(w) && !env.metropolis && env.gasUsed + 21000 <= env.gasLimit
    ensures var t := Unsigned();
      && Decoded(t) && Accepts(env, w, t) && !Short(w, t, NoCode, 0, Cost(t))
      && Cost(t) == 0 && forall left | 0 <= left <= t.gas :: Fees(t, left) == 21000
  {
    forall left | 0 <= left <= 21000 ensures Fees(Unsigned(), left) == 21000 { FeesAreCost(Unsigned(), left); }
  }

  /** The whole transaction on any world: there are 21000 units more than before. */
  method Mint(s: State, env: Env)
    requires s.Valid() && !env.metropolis && env.gasUsed + 21000 <= env.gasLimit && Covered(env)
    modifies s
    ensures s.Valid() && Worth(s.world) == old(Worth(s.world)) + 21000
  {
    Minting(env, s.world);
    RunUnpaid(s, env, Unsigned(), 21000);
  }

  /** An accepted transaction that pays nothing and runs no code makes its fees. */
  method RunUnpaid(s: State, env: Env, t: Tx, fees: nat)
    requires s.Valid() && Covered(env) && Decoded(t) && Accepts(env, s.world, t) && Cost(t) == 0
    requires !Short(s.world, t, NoCode, t.gas - t.base, 0)
    requires forall left | 0 <= left <= t.gas :: Fees(t, left) == fees
    modifies s
    ensures s.Valid() && Worth(s.world) == old(Worth(s.world)) + fees
  {
    var e := new Executive(s, env, 0);
    var accepted, thrown, before, es := e.Transact(t, NoCode);
    assert !thrown && e.Lost(t, before) == 0;
  }

  /** A failed transaction that moves its value: one unit to a precompiled contract that costs nothing and fails. */
  lemma FailedCanPay(w: World, t: Tx)
    requires Sound(w) && Total(w.balances) < WORD && t.base <= t.gas && t.value == 1 && t.to.Some?
    requires t.to.value != t.sender && Cost(t) < w.balances[t.sender]
    ensures var callee := Precompiled(0, false); var given := t.gas - t.base;
      && !Short(w, t, callee, given, Cost(t)) && Refused(callee, given, Fine) == OutOfGas
      && Failing(w, t, callee, given, Cost(t)) != Charged(w, t.sender, Cost(t))
  {
    var callee := Precompiled(0, false);
    FailedKeepsValue(w, t, callee, Failing(w, t, callee, t.gas - t.base, Cost(t)));
  }

  /** A failed transaction leaves the value where it was, unless it was a precompiled contract that ran and failed. */
  lemma FailedKeepsValue(w: World, t: Tx, callee: Callee, before: World)
    requires Sound(w) && Failed(w, t, callee, before) && Total(w.balances) < WORD
    ensures before == Charged(w, t.sender, Cost(t)) <==>
      !callee.Precompiled? || callee.cost > t.gas - t.base || t.value == 0 || Target(t) == t.sender
  {
    var charged := Charged(w, t.sender, Cost(t));
    var given := t.gas - t.base;
    if callee.Precompiled? && !Unpaid(callee, given) {
      SubtractedWorth(w, t.sender, Cost(t));
      var v, to := t.value, Target(t);
      var poor := Subtracted(charged, t.sender, v);
      if to == t.sender || v == 0 {
        assert Moved(charged, t.sender, to, v).balances == charged.balances;
      } else {
        assert before.balances[t.sender] == charged.balances[t.sender] - v;
      }
    }
  }
}
