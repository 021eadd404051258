/** The interpreter: its stack pointers, its memory, its gas and its program counter. What an instruction computes
    and what the outside world answers is left open (`*`); every run is covered. */
module VM {
  import opened Basics
  import opened VMPrices
  import opened VMMemory
  import opened VMTrace

  const EXTRA := 33

  // ------------------------------------------------------------------- the code

  /** Reading code from `from` on, an instruction starts at `at`. */
  predicate Starts(code: seq<Byte>, from: nat, at: nat)
    decreases at - from
  {
    if from >= at then from == at
    else from < |code| && Starts(code, from + Length(code[from]), at)
  }

  predicate Destination(code: seq<Byte>, d: int) {
    0 <= d < |code| && code[d] == JUMPDEST && Starts(code, 0, d)
  }

  lemma {:induction false} StartsFrom(code: seq<Byte>, from: nat, at: nat, d: nat)
    requires Starts(code, from, at) && at <= d
    ensures Starts(code, from, d) == Starts(code, at, d)
    decreases at - from
  {
    if from < at { StartsFrom(code, from + Length(code[from]), at, d); }
  }

  /** Push data holds no instruction. */
  lemma DataIsNoStart(code: seq<Byte>, at: nat, d: nat)
    requires Starts(code, 0, at) && at < |code| && at < d < at + Length(code[at])
    ensures !Starts(code, 0, d)
  {
    StartsFrom(code, 0, at, d);
  }

  ghost predicate Ascending(a: seq<nat>) {
    forall j, k | 0 <= j < k < |a| :: a[j] < a[k]
  }

  /** The code with room behind it and synthetic instructions made bad, and where it may be jumped to. */
  method Optimize(user: seq<Byte>) returns (code: seq<Byte>, jumpDests: seq<nat>)
    ensures Prepared(code, jumpDests) && |code| == |user| + EXTRA
    ensures forall d :: d in jumpDests <==> Destination(user, d)
    ensures forall k | 0 <= k < |code| ::
      code[k] == if k >= |user| then STOP else if Synthetic(user[k]) && Starts(user, 0, k) then BAD else user[k]
  {
    code := user + seq(EXTRA, _ => STOP);
    jumpDests := [];
    var pc := 0;
    while pc < |user|
      invariant Starts(user, 0, pc) && |code| == |user| + EXTRA
      invariant Ascending(jumpDests) && forall k | 0 <= k < |jumpDests| :: jumpDests[k] < pc
      invariant forall d | 0 <= d < pc :: d in jumpDests <==> Destination(user, d)
      invariant forall k | |user| <= k < |code| :: code[k] == STOP
      invariant forall k | 0 <= k < |user| ::
        code[k] == if k < pc && Synthetic(user[k]) && Starts(user, 0, k) then BAD else user[k]
    {
      var op := code[pc];
      if Synthetic(op) {
        code := code[pc := BAD];
      }
      ghost var at := pc;
      if op == JUMPDEST {
        jumpDests := jumpDests + [pc];
      } else if Push(op) {
        pc := pc + (op - PUSH1 + 1);
      }
      pc := pc + 1;
      forall d | at < d < pc ensures !Starts(user, 0, d) { DataIsNoStart(user, at, d); }
      StartsFrom(user, 0, at, pc);
    }
    forall k | 0 <= k < |jumpDests| ensures jumpDests[k] < |user| && code[jumpDests[k]] == JUMPDEST {
      assert jumpDests[k] in jumpDests;
    }
  }

  /** What `optimize` leaves behind: zeros to run into, and destinations that are JUMPDESTs, in order. */
  ghost predicate Prepared(code: seq<Byte>, jumpDests: seq<nat>) {
    && |code| >= EXTRA && (forall k | |code| - EXTRA <= k < |code| :: code[k] == STOP)
    && Ascending(jumpDests) && forall k | 0 <= k < |jumpDests| ::
      jumpDests[k] < |code| - EXTRA && code[jumpDests[k]] == JUMPDEST
  }

  method BinarySearch(a: seq<nat>, x: nat) returns (found: bool)
    requires Ascending(a)
    ensures found <==> x in a
  {
    var lo, hi := 0, |a|;
    while lo < hi
      invariant 0 <= lo <= hi <= |a|
      invariant (forall k | 0 <= k < lo :: a[k] < x) && forall k | hi <= k < |a| :: x < a[k]
    {
      var mid := (lo + hi) / 2;
      if a[mid] < x { lo := mid + 1; } else if x < a[mid] { hi := mid; } else { return true; }
    }
    found := false;
  }

  method ToInt63(v: nat) returns (ok: bool, w: nat)
    ensures ok <==> v <= MAX63
    ensures ok ==> w == v
  {
    ok, w := v <= MAX63, v % U64;
  }

  /** The end of the memory a range needs; an empty range needs none, wherever it is. */
  method MemNeed(offset: Word, size: Word) returns (ok: bool, need: nat)
    ensures ok <==> size == 0 || offset + size <= MAX63
    ensures ok ==> need == if size == 0 then 0 else offset + size
  {
    ok, need := ToInt63(if size > 0 then offset + size else 0);
  }

  datatype Snap = Snap(pc: nat, gas: nat, mem: seq<Byte>, other: nat, stack: seq<Word>)

  class VM {
    const schedule: Schedule
    const prices: Prices
    const stack: array<Word>
    var code: seq<Byte>
    var jumpDests: seq<nat>
    var pc: nat
    var op: Byte
    /** The stack grows down from slot 1024. */
    var sp: int
    var spp: int
    var ioGas: nat
    var runGas: nat
    var newMemSize: nat
    var copyMemSize: nat
    var mem: seq<Byte>
    /** The gas the run began with, what went into memory, what went anywhere else and did not come back. */
    ghost var given: nat
    ghost var memPaid: nat
    ghost var otherPaid: nat
    /** The part of `runGas` that is for memory. */
    ghost var memPart: nat

    /** What never changes: the schedule is a fair one, its prices are in order, and the stack has its slots. */
    ghost predicate Fit() {
      Fair(schedule) && Orderly(prices) && stack.Length == SLOTS
    }

    /** Memory is whole words, paid for to the unit, and no gas comes from nowhere. */
    ghost predicate Books()
      reads this
    {
      && |mem| % 32 == 0 && prices.mem(|mem| / 32) <= MAX63
      && memPaid + memPart == prices.mem(|mem| / 32)
      && given == ioGas + memPaid + otherPaid && given < U64
    }

    ghost predicate Sane()
      reads this
    {
      Books() && Prepared(code, jumpDests)
    }

    /** Between two instructions. */
    ghost predicate Ready()
      reads this
    {
      Sane() && memPart == 0 && 0 <= spp <= SLOTS && pc < |code|
    }

    /** After `fetchInstruction`. */
    ghost predicate Fetched()
      reads this
    {
      && Fit() && Ready() && op == code[pc] && (pc >= |code| - EXTRA ==> op == STOP)
      && 0 <= sp && sp + Args(op) <= SLOTS && spp == sp + Args(op) - Ret(op)
      && runGas < U32 && newMemSize == |mem| && copyMemSize == 0
    }

    /** The price so far is that of the instruction's tier. */
    ghost predicate AtTier()
      reads this
    {
      Fetched() && (Tier(op) < 8 ==> runGas == schedule.tierStepGas[Tier(op)])
    }

    twostate predicate Fixed()
      reads this
    {
      && code == old(code) && jumpDests == old(jumpDests) && given == old(given) && op == old(op) && spp == old(spp)
    }

    /** An instruction is over: what held holds, memory has not shrunk, and gas has not grown. */
    twostate predicate Over(e: End)
      reads this
    {
      && Sane() && memPart == 0 && Fixed() && |mem| >= |old(mem)| && ioGas <= old(ioGas)
      && sp == old(sp) - (if e.Running? && (op == POP || op == SDIV) then 1 else 0)
    }

    /** The next instruction is the one behind, inside the code or the zeros behind it. */
    twostate predicate Onward(e: End)
      reads this
    {
      Over(e) && (e.Running? ==> pc == old(pc) + Length(op) < |code|)
    }

    /** What was charged, memory aside. */
    twostate predicate Charged(own: int)
      reads this
    {
      otherPaid == old(otherPaid) + own
    }

    /** Nothing on the stack has changed but the slot for the result. */
    twostate predicate OnlyTop()
      requires stack.Length == SLOTS
      reads this, stack
    {
      forall k | 0 <= k < SLOTS && k != spp :: stack[k] == old(stack[k])
    }

    /** What the instruction works on. */
    ghost function Operands(): (a: seq<Word>)
      requires stack.Length == SLOTS && 0 <= sp && sp + Args(op) <= SLOTS
      reads this, stack
      ensures |a| == Args(op)
    {
      stack[sp..sp + Args(op)]
    }

    // ------------------------------------------------------------------- metering

    method UpdateIOGas() returns (ok: bool)
      requires Fit() && Books() && memPart <= runGas
      modifies this`ioGas, this`memPaid, this`otherPaid, this`memPart
      ensures Books() && ok == (runGas <= old(ioGas))
      ensures ok ==> memPart == 0 && ioGas == old(ioGas) - runGas && otherPaid == old(otherPaid) + runGas - old(memPart)
      ensures !ok ==> ioGas == old(ioGas) && memPart == old(memPart)
      ensures !ok ==> otherPaid == old(otherPaid) && memPaid == old(memPaid)
    {
      ok := ioGas >= runGas;
      if ok {
        ioGas := ioGas - runGas;
        memPaid, otherPaid, memPart := memPaid + memPart, otherPaid + runGas - memPart, 0;
      }
    }

    method GasForMem(size: nat) returns (ok: bool, g: nat)
      ensures ok <==> prices.mem(size / 32) <= MAX63
      ensures ok ==> g == prices.mem(size / 32)
    {
      ok, g := ToInt63(prices.mem(size / 32));
    }

    /** Add the price of growing to `newMemSize` and of copying; no sum leaves 64 bits. */
    method UpdateGas() returns (ok: bool)
      requires Fit() && Books() && memPart == 0 && newMemSize % 32 == 0
      requires if copyMemSize == 0 then runGas <= MAX63 else copyMemSize <= newMemSize && runGas < 4 * U32
      modifies this`runGas
      ensures ok ==>
        runGas <= ioGas && runGas == old(runGas) + Growth() + prices.copy(Words(copyMemSize)) && Growth() >= 0
      ensures ok <==>
        prices.mem(Larger() / 32) <= MAX63 && old(runGas) + Growth() + prices.copy(Words(copyMemSize)) <= ioGas
    {
      ok := true;
      if newMemSize > |mem| {
        var more, had;
        ok, more := GasForMem(newMemSize);
        if !ok {
          return;
        }
        ok, had := GasForMem(|mem|);
        assert prices.mem(|mem| / 32) <= prices.mem(newMemSize / 32);
        runGas := Add64(runGas, more - had);
      }
      assert Words(copyMemSize) <= Larger() / 32;
      runGas := Add64(runGas, prices.copy((copyMemSize + 31) / 32) % U64);
      ok := ioGas >= runGas;
    }

    ghost function Larger(): nat
      reads this
    {
      if newMemSize > |mem| then newMemSize else |mem|
    }

    ghost function Growth(): int
      reads this
    {
      prices.mem(Larger() / 32) - prices.mem(|mem| / 32)
    }

    /** What an instruction that reaches to `newMem` costs: its own price, the growth of memory, and copying. */
    ghost function Bill(newMem: nat): int
      reads this
    {
      runGas + prices.mem(Grown(|mem|, newMem) / 32) - prices.mem(|mem| / 32) + prices.copy(Words(copyMemSize))
    }

    ghost predicate Affords(newMem: nat)
      reads this
    {
      prices.mem(Grown(|mem|, newMem) / 32) <= MAX63 && Bill(newMem) <= ioGas
    }

    /** Grow the memory to cover `newMem` bytes, in words. */
    method UpdateMem(newMem: nat) returns (ok: bool)
      requires Fit() && Books() && memPart == 0 && newMem <= MAX63 + 32
      requires if copyMemSize == 0 then runGas <= MAX63 else copyMemSize <= newMem && runGas < 4 * U32
      modifies this`newMemSize, this`runGas, this`mem, this`memPart
      ensures Books() && mem == Extended(old(mem), |mem|) && |mem| >= |old(mem)| &&
        (ok ==> newMem <= |mem| && memPart <= runGas <= ioGas)
      ensures ok == old(Affords(newMem)) && (ok ==> |mem| == Grown(|old(mem)|, newMem))
      ensures ok ==> runGas == old(Bill(newMem)) && runGas == old(runGas) + memPart + prices.copy(Words(copyMemSize))
      ensures !ok ==> mem == old(mem) && memPart == 0
    {
      newMemSize := (newMem + 31) / 32 * 32;
      ok := UpdateGas();
      if ok && newMemSize > |mem| {
        memPart := Growth();
        mem := mem + seq(newMemSize - |mem|, _ => 0);
      }
    }

    // --------------------------------------------------------------- instructions

    /** Instructions with one result, at their tier's price or one set before. */
    method CaseResult() returns (e: End)
      requires Fetched() && Ret(op) == 1 && !Push(op) && op != STOP
      modifies this, stack
      ensures Onward(e) && OnlyTop() && mem == old(mem)
      ensures e == if old(runGas) <= old(ioGas) then Running else Threw(OutOfGas)
      ensures e.Running? ==> Charged(old(runGas))
    {
      var ok := UpdateIOGas();
      if !ok {
        return Threw(OutOfGas);
      }
      var result: Word := *;
      stack[spp] := result;
      if op == SDIV {
        sp := sp - 1;
      }
      pc := pc + 1;
      e := Running;
    }

    method CasePop() returns (e: End)
      requires Fetched() && op == POP
      modifies this`sp, this`pc, this`ioGas, this`memPaid, this`otherPaid, this`memPart
      ensures Onward(e)
      ensures e == if old(runGas) <= old(ioGas) then Running else Threw(OutOfGas)
      ensures e.Running? ==> Charged(runGas)
    {
      var ok := UpdateIOGas();
      if !ok {
        return Threw(OutOfGas);
      }
      sp := sp - 1;
      pc := pc + 1;
      e := Running;
    }

    method CaseDupSwap() returns (e: End)
      requires Fetched() && (Dup(op) || Swap(op))
      modifies this`pc, this`ioGas, this`memPaid, this`otherPaid, this`memPart, stack
      ensures Onward(e)
      ensures e == if old(runGas) <= old(ioGas) then Running else Threw(OutOfGas)
      ensures e.Running? ==> Charged(runGas)
      ensures e.Running? && Dup(op) ==> stack[..] == old(stack[..])[spp := old(stack[sp + (op - DUP1)])]
      ensures e.Running? && Swap(op) ==> var n := op - SWAP1 + 1;
        stack[..] == old(stack[..])[sp := old(stack[sp + n])][sp + n := old(stack[sp])]
    {
      var ok := UpdateIOGas();
      if !ok {
        return Threw(OutOfGas);
      }
      if Dup(op) {
        var n := op - DUP1;
        stack[spp] := stack[sp + n];
      } else {
        var n := op - SWAP1 + 1;
        stack[sp], stack[sp + n] := stack[sp + n], stack[sp];
      }
      pc := pc + 1;
      e := Running;
    }

    /** The bytes behind the instruction; past the code they are zeros. */
    method CasePush() returns (e: End)
      requires Fetched() && Push(op)
      modifies this`pc, this`ioGas, this`memPaid, this`otherPaid, this`memPart, stack
      ensures Onward(e) && OnlyTop()
      ensures e == if old(runGas) <= old(ioGas) then Running else Threw(OutOfGas)
      ensures e.Running? ==> stack[spp] == WordOf(code[old(pc) + 1..pc]) % WORD
      ensures e.Running? ==> Charged(runGas)
    {
      var ok := UpdateIOGas();
      if !ok {
        return Threw(OutOfGas);
      }
      var numBytes := op - PUSH1 + 1;
      stack[spp] := ReadPush(code, pc + 1, numBytes);
      pc := pc + 1 + numBytes;
      e := Running;
    }

    method CaseJumpDest() returns (e: End)
      requires Fetched() && op == JUMPDEST
      modifies this`pc, this`runGas, this`ioGas, this`memPaid, this`otherPaid, this`memPart
      ensures Onward(e) && (e.Running? ==> ioGas < old(ioGas))
      ensures e == if 1 <= old(ioGas) then Running else Threw(OutOfGas)
      ensures e.Running? ==> Charged(1)
    {
      runGas := 1;
      var ok := UpdateIOGas();
      if !ok {
        return Threw(OutOfGas);
      }
      pc := pc + 1;
      e := Running;
    }

    method VerifyJumpDest(dest: Word) returns (ok: bool, to: nat)
      requires Prepared(code, jumpDests)
      ensures ok <==> dest <= MAX63 && dest in jumpDests
      ensures ok ==> to == dest < |code| - EXTRA && code[to] == JUMPDEST
    {
      ok, to := false, dest % U64;
      if dest <= MAX63 {
        ok := BinarySearch(jumpDests, to);
        if ok {
          var k :| 0 <= k < |jumpDests| && jumpDests[k] == to;
        }
      }
    }

    /** A jump lands on a JUMPDEST, or the instruction goes on to the next. */
    method CaseJump() returns (e: End)
      requires Fetched() && (op == JUMP || op == JUMPI)
      modifies this`pc, this`ioGas, this`memPaid, this`otherPaid, this`memPart
      ensures Over(e)
      ensures e.Running? ==> Charged(runGas)
      ensures e.Running? ==> pc < |code| && (pc == old(pc) + 1 || code[pc] == JUMPDEST)
      ensures e.Running? ==> pc == if op == JUMP || old(stack[sp + 1]) != 0 then old(stack[sp]) else old(pc) + 1
      ensures e == if old(runGas) > old(ioGas) then Threw(OutOfGas)
        else if (op == JUMP || old(stack[sp + 1]) != 0) && !(old(stack[sp]) <= MAX63 && old(stack[sp]) in jumpDests)
        then Threw(BadJumpDestination) else Running
    {
      var ok := UpdateIOGas();
      if !ok {
        return Threw(OutOfGas);
      }
      if op == JUMP || stack[sp + 1] != 0 {
        var to;
        ok, to := VerifyJumpDest(stack[sp]);
        if !ok {
          return Threw(BadJumpDestination);
        }
        pc := to;
      } else {
        pc := pc + 1;
      }
      e := Running;
    }

    method CaseStop() returns (e: End)
      requires Fetched() && (op == STOP || op == SUICIDE)
      modifies this`runGas, this`ioGas, this`memPaid, this`otherPaid, this`memPart
      ensures Over(e) && e in {Stopped([]), Threw(OutOfGas)}
      ensures op == STOP ==> e == if old(runGas) <= old(ioGas) then Stopped([]) else Threw(OutOfGas)
      ensures e.Stopped? && op == STOP ==> Charged(old(runGas))
      ensures e.Stopped? && op == SUICIDE ==>
        Charged(schedule.suicideGas) || (schedule.eip150Mode &&
          Charged(schedule.suicideGas + schedule.callNewAccountGas))
    {
      if op == SUICIDE {
        runGas := schedule.suicideGas;
        var newAccount: bool := *;
        if newAccount && schedule.eip150Mode {
          runGas := Add64(runGas, schedule.callNewAccountGas);
        }
      }
      var ok := UpdateIOGas();
      e := if ok then Stopped([]) else Threw(OutOfGas);
    }

    /** Make memory reach to `newMem` and pay for that, with what is due besides. */
    method GrowAndPay(newMem: nat) returns (ok: bool)
      requires Fit() && Books() && memPart == 0 && newMem <= MAX63 + 32
      requires if copyMemSize == 0 then runGas <= MAX63 else copyMemSize <= newMem && runGas < 4 * U32
      modifies this`newMemSize, this`runGas, this`mem, this`memPart, this`ioGas, this`memPaid, this`otherPaid
      ensures Books() && memPart == 0 && ioGas <= old(ioGas) && mem == Extended(old(mem), |mem|)
      ensures |old(mem)| <= |mem| && (ok ==> newMem <= |mem| == Grown(|old(mem)|, newMem))
      ensures ok ==> Charged(old(runGas) + prices.copy(Words(copyMemSize))) && ioGas == old(ioGas) - old(Bill(newMem))
      ensures ok == old(Affords(newMem))
    {
      ok := UpdateMem(newMem);
      if ok {
        ok := UpdateIOGas();
      }
    }

    /** Reserve memory for a range of the operands and pay. */
    method Reserve(offset: Word, size: Word) returns (ok: bool)
      requires Fit() && Books() && memPart == 0 && (copyMemSize == 0 || copyMemSize == size) &&
        (copyMemSize == 0 || runGas < 4 * U32)
      requires runGas <= MAX63
      modifies this`newMemSize, this`runGas, this`mem, this`memPart, this`ioGas, this`memPaid, this`otherPaid
      ensures Books() && memPart == 0 && old(mem) <= mem && ioGas <= old(ioGas)
      ensures ok ==> size == 0 || offset + size <= |mem|
      ensures ok ==> |mem| == Grown(|old(mem)|, Reach(offset, size)) && mem == Extended(old(mem), |mem|)
      ensures ok ==> Charged(old(runGas) + prices.copy(Words(copyMemSize)))
      ensures ok ==> ioGas == old(ioGas) - old(Bill(Reach(offset, size)))
      ensures ok <==> Reach(offset, size) <= MAX63 && old(Affords(Reach(offset, size)))
    {
      var need;
      ok, need := MemNeed(offset, size);
      if ok {
        ok := GrowAndPay(need);
      }
    }

    method CaseReturn() returns (e: End)
      requires Fetched() && (op == RETURN || op == REVERT)
      modifies this`copyMemSize, this`newMemSize, this`runGas, this`mem, this`ioGas, this`memPaid, this`otherPaid,
        this`memPart
      ensures Over(e) && !e.Running?
      ensures e.Reverted? ==> op == REVERT && schedule.haveRevert
      ensures e.Stopped? ==> op == RETURN
      ensures !e.Threw? ==> e.output == Range(mem, stack[sp], stack[sp + 1])
      ensures !e.Threw? ==> |mem| == Grown(|old(mem)|, Reach(stack[sp], stack[sp + 1])) && Charged(old(runGas))
      ensures !e.Threw? ==> Reach(stack[sp], stack[sp + 1]) <= |mem| && mem == Extended(old(mem), |mem|)
    {
      if op == REVERT && !schedule.haveRevert {
        return Threw(BadInstruction);
      }
      copyMemSize := 0;
      var b, n := stack[sp], stack[sp + 1];
      var ok := Reserve(b, n);
      if !ok {
        return Threw(OutOfGas);
      }
      var output := Range(mem, b, n);
      e := if op == RETURN then Stopped(output) else Reverted(output);
    }

    method ReadPrice(n: Word) returns (ok: bool, price: nat)
      requires op == SHA3 || Log(op)
      ensures ok ==> price <= MAX63
      ensures ok ==> price == ReadingPrice(schedule, op, n)
    {
      if op == SHA3 {
        ok, price := ToInt63(schedule.sha3Gas + (n + 31) / 32 * schedule.sha3WordGas);
      } else {
        ok, price := ToInt63((schedule.logGas + schedule.logTopicGas * (op - LOG0)) % U32 + schedule.logDataGas * n);
      }
    }

    /** SHA3 and the logs: a price that depends on how much they read. */
    method CaseRead() returns (e: End)
      requires Fetched() && (op == SHA3 || Log(op))
      modifies this`pc, this`newMemSize, this`runGas, this`mem, this`ioGas, this`memPaid, this`otherPaid,
        this`memPart, stack
      ensures Onward(e) && OnlyTop() && (Log(op) ==> stack[..] == old(stack[..]))
      ensures e.Running? || e.Threw?
      ensures e.Running? ==> |mem| == Grown(|old(mem)|, old(Reach(stack[sp], stack[sp + 1])))
      ensures e.Running? ==> mem == Extended(old(mem), |mem|) && Charged(ReadingPrice(schedule, op, old(stack[sp + 1])))
    {
      var ok := PayRead();
      if !ok {
        return Threw(OutOfGas);
      }
      if op == SHA3 {
        var hash: Word := *;
        stack[spp] := hash;
      }
      pc := pc + 1;
      e := Running;
    }

    method PayRead() returns (ok: bool)
      requires Fetched() && (op == SHA3 || Log(op))
      modifies this`newMemSize, this`runGas, this`mem, this`ioGas, this`memPaid, this`otherPaid, this`memPart
      ensures Books() && memPart == 0 && |old(mem)| <= |mem| && ioGas <= old(ioGas)
      ensures ok ==> |mem| == Grown(|old(mem)|, Reach(stack[sp], stack[sp + 1])) && mem == Extended(old(mem), |mem|)
      ensures ok ==> Charged(ReadingPrice(schedule, op, stack[sp + 1]))
    {
      var price;
      ok, price := ReadPrice(stack[sp + 1]);
      if ok {
        runGas := price;
        ok := Reserve(stack[sp], stack[sp + 1]);
      }
    }

    /** The operands are at slot `at`: where to, where from, how much. */
    method CopyDataToMemory(data: seq<Byte>, at: nat)
      requires at + 3 <= stack.Length && |data| < U64
      requires stack[at + 2] <= MAX63 && (stack[at + 2] > 0 ==> stack[at] + stack[at + 2] <= |mem| <= U64)
      modifies this`mem
      ensures |mem| == |old(mem)| && Copied(old(mem), data, stack[at], stack[at + 1], stack[at + 2], mem)
      ensures Outside(old(mem), mem, stack[at], stack[at + 2])
    {
      if stack[at + 2] > 0 {
        mem := CopyInto(mem, data, stack[at] % U64, stack[at + 1], stack[at + 2] % U64);
      }
    }

    method CaseCopy() returns (e: End)
      requires Fetched() && Copies(op)
      modifies this`pc, this`newMemSize, this`copyMemSize, this`runGas, this`mem, this`ioGas, this`memPaid,
        this`otherPaid, this`memPart
      ensures Onward(e) && (e.Running? || e.Threw?)
      ensures e.Running? ==> var at := sp + CopyAt(op);
        && |mem| == Grown(|old(mem)|, Reach(stack[at], stack[at + 2]))
        && Charged((if op == EXTCODECOPY then schedule.extcodecopyGas else old(runGas)) +
                   prices.copy(Words(stack[at + 2])))
        && Outside(Extended(old(mem), |mem|), mem, stack[at], stack[at + 2])
    {
      if op == EXTCODECOPY {
        runGas := schedule.extcodecopyGas;
      }
      var ok := PayAndCopy(sp + CopyAt(op));
      if !ok {
        return Threw(OutOfGas);
      }
      pc := pc + 1;
      e := Running;
    }

    method PayAndCopy(at: nat) returns (ok: bool)
      requires Fit() && Books() && memPart == 0 && runGas < U32 && at + 3 <= SLOTS
      modifies this`copyMemSize, this`newMemSize, this`runGas, this`mem, this`ioGas, this`memPaid, this`otherPaid,
        this`memPart
      ensures Books() && memPart == 0 && |old(mem)| <= |mem| && ioGas <= old(ioGas)
      ensures ok ==> |mem| == Grown(|old(mem)|, Reach(stack[at], stack[at + 2]))
      ensures ok ==> Charged(old(runGas) + prices.copy(Words(stack[at + 2])))
      ensures ok ==> Outside(Extended(old(mem), |mem|), mem, stack[at], stack[at + 2])
    {
      ok := PayCopy(stack[at], stack[at + 2]);
      if ok {
        CopyFrom(at);
      }
    }

    /** The data is the call's, this code, or another account's. */
    method CopyFrom(at: nat)
      requires at + 3 <= stack.Length && |mem| <= U64
      requires stack[at + 2] <= MAX63 && (stack[at + 2] > 0 ==> stack[at] + stack[at + 2] <= |mem|)
      modifies this`mem
      ensures Outside(old(mem), mem, stack[at], stack[at + 2])
    {
      var data: seq<Byte> :| |data| < U64;
      CopyDataToMemory(data, at);
    }

    method PayCopy(offset: Word, size: Word) returns (ok: bool)
      requires Fit() && Books() && memPart == 0 && runGas < U32
      modifies this`copyMemSize, this`newMemSize, this`runGas, this`mem, this`memPart, this`ioGas, this`memPaid,
        this`otherPaid
      ensures Books() && memPart == 0 && |old(mem)| <= |mem| && ioGas <= old(ioGas)
      ensures ok ==> size <= MAX63 && (size == 0 || offset + size <= |mem|) && |mem| < U64
      ensures ok ==> |mem| == Grown(|old(mem)|, Reach(offset, size)) && mem == Extended(old(mem), |mem|)
      ensures ok ==> Charged(old(runGas) + prices.copy(Words(size)))
    {
      ok, copyMemSize := ToInt63(size);
      if ok {
        ok := Reserve(offset, size);
      }
      if ok {
        SmallMemory();
      }
    }

    lemma SmallMemory()
      requires Fit() && Books()
      ensures |mem| < U64
    {
      assert |mem| / 32 < 0x1_0000_0000_0000;
    }

    method CaseSStore() returns (e: End)
      requires Fetched() && op == SSTORE
      modifies this`pc, this`runGas, this`ioGas, this`memPaid, this`otherPaid, this`memPart
      ensures Onward(e) && (e.Running? || e.Threw?)
      ensures e.Running? ==>
        Charged(schedule.sstoreResetGas) || (stack[sp + 1] != 0 && Charged(schedule.sstoreSetGas))
    {
      var stored: bool := *;
      runGas := if !stored && stack[sp + 1] != 0 then schedule.sstoreSetGas else schedule.sstoreResetGas;
      var ok := UpdateIOGas();
      if !ok {
        return Threw(OutOfGas);
      }
      pc := pc + 1;
      e := Running;
    }

    /** A creation keeps back a 64th from EIP 150 on; it does not give back more than it was given. */
    method CaseCreate() returns (e: End)
      requires Fetched() && op == CREATE
      modifies this`pc, this`newMemSize, this`runGas, this`mem, this`ioGas, this`memPaid, this`otherPaid,
        this`memPart, stack
      ensures Onward(e) && OnlyTop() && (e.Running? || e.Threw?)
      ensures e.Running? ==> mem == Extended(old(mem), |mem|)
      ensures e.Running? ==> otherPaid >= old(otherPaid) + schedule.createGas
      ensures e.Running? ==> |mem| == Grown(|old(mem)|, Reach(old(stack[sp + 1]), old(stack[sp + 2])))
      ensures e.Running? && schedule.eip150Mode ==>
        ioGas >= (old(ioGas) - schedule.createGas - (prices.mem(|mem| / 32) - prices.mem(|old(mem)| / 32))) / 64
    {
      var ok := CreateDuly();
      if !ok {
        return Threw(OutOfGas);
      }
      pc := pc + 1;
      e := Running;
    }

    method CreateDuly() returns (ok: bool)
      requires Fetched() && op == CREATE
      modifies this`newMemSize, this`runGas, this`mem, this`ioGas, this`memPaid, this`otherPaid,
        this`memPart, stack
      ensures Books() && memPart == 0 && |old(mem)| <= |mem| && ioGas <= old(ioGas) && OnlyTop()
      ensures ok ==> mem == Extended(old(mem), |mem|) && otherPaid >= old(otherPaid) + schedule.createGas
      ensures ok ==> |mem| == Grown(|old(mem)|, Reach(old(stack[sp + 1]), old(stack[sp + 2])))
      ensures ok && schedule.eip150Mode ==>
        ioGas >= (old(ioGas) - schedule.createGas - (prices.mem(|mem| / 32) - prices.mem(|old(mem)| / 32))) / 64
    {
      ok := PayCreate();
      if ok {
        stack[spp] := 0;
        var enough: bool := *;
        if enough {
          CreateOther();
        }
      }
    }

    method PayCreate() returns (ok: bool)
      requires Fetched() && op == CREATE
      modifies this`newMemSize, this`runGas, this`mem, this`memPart, this`ioGas, this`memPaid, this`otherPaid
      ensures Books() && memPart == 0 && |old(mem)| <= |mem| && ioGas <= old(ioGas)
      ensures ok ==> |mem| == Grown(|old(mem)|, Reach(stack[sp + 1], stack[sp + 2]))
      ensures ok ==> mem == Extended(old(mem), |mem|) && Charged(schedule.createGas)
      ensures ok ==>
        ioGas == old(ioGas) - schedule.createGas - (prices.mem(|mem| / 32) - prices.mem(|old(mem)| / 32))
    {
      runGas := schedule.createGas;
      ok := Reserve(stack[sp + 1], stack[sp + 2]);
    }

    method CreateOther()
      requires Fit() && Books() && memPart == 0 && 0 <= spp < SLOTS
      modifies this`ioGas, this`otherPaid, stack
      ensures Books() && ioGas <= old(ioGas) && otherPaid >= old(otherPaid) && OnlyTop()
      ensures schedule.eip150Mode ==> ioGas >= old(ioGas) / 64
    {
      var createGas := ioGas;
      if schedule.eip150Mode {
        createGas := createGas - createGas / 64;
      }
      var left: nat :| left <= createGas;
      var created: Word := *;
      stack[spp] := created;
      ioGas := ioGas - (createGas - left);
      otherPaid := otherPaid + (createGas - left);
    }

    predicate Value()
      requires stack.Length == SLOTS && 0 <= sp && sp + Args(op) <= SLOTS && Calls(op)
      reads this, stack
    {
      op != DELEGATECALL && stack[sp + 2] > 0
    }

    /** What the call costs before the gas it is given. */
    method CallPrice() returns (ghost fresh_: bool)
      requires Fetched() && Calls(op)
      modifies this`runGas
      ensures runGas < 4 * U32 && runGas == FixedPrice(schedule, Value(), fresh_) >= Stipend(schedule, Value())
      ensures fresh_ ==> op == CALL && (Value() || !schedule.eip158Mode)
    {
      runGas := schedule.callGas;
      fresh_ := false;
      var exists_: bool := *;
      if op == CALL && !exists_ {
        if stack[sp + 2] > 0 || !schedule.eip158Mode {
          fresh_ := true;
          runGas := Add64(runGas, schedule.callNewAccountGas);
        }
      }
      if op != DELEGATECALL && stack[sp + 2] > 0 {
        runGas := Add64(runGas, schedule.callValueTransferGas);
      }
    }

    /** Memory for what goes in and what comes out, whichever reaches further. */
    method ReserveBoth(inOff: Word, inSize: Word, outOff: Word, outSize: Word) returns (ok: bool)
      requires Fit() && Books() && memPart == 0 && copyMemSize == 0 && runGas <= MAX63
      modifies this`newMemSize, this`runGas, this`mem, this`memPart, this`ioGas, this`memPaid, this`otherPaid
      ensures Books() && memPart == 0 && |old(mem)| <= |mem| && ioGas <= old(ioGas)
      ensures ok ==> Charged(old(runGas)) && mem == Extended(old(mem), |mem|)
      ensures ok ==> |mem| == Grown(|old(mem)|, Further(Reach(inOff, inSize), Reach(outOff, outSize)))
      ensures ok ==> (inSize == 0 || inOff + inSize <= |mem|) && (outSize == 0 || outOff + outSize <= |mem|)
    {
      var inNeed, outNeed;
      ok, inNeed := MemNeed(inOff, inSize);
      if ok {
        ok, outNeed := MemNeed(outOff, outSize);
        if ok {
          ok := GrowAndPay(if inNeed > outNeed then inNeed else outNeed);
        }
      }
    }

    /** The gas the call is given: what it asks for, and the stipend with a value. The stipend is the only gas that was
        not paid out of this run's, and the value's price covers it. */
    method CaseCallSetup() returns (ok: bool, gas: nat, outOff: nat, outSize: nat, ghost fresh_: bool, ghost give: nat)
      requires Fetched() && Calls(op)
      modifies this`newMemSize, this`runGas, this`mem, this`ioGas, this`memPaid, this`otherPaid, this`memPart
      ensures Books() && memPart == 0 && |old(mem)| <= |mem| && ioGas <= old(ioGas)
      ensures ok ==> outOff + outSize <= |mem| || outSize == 0
      ensures ok ==> outOff == OutAt() && outSize == OutSize()
      ensures ok ==> gas == give + Stipend(schedule, Value()) && give == Give(schedule, stack[sp], ioGas + give)
      ensures ok ==> var price := FixedPrice(schedule, Value(), fresh_);
        price >= Stipend(schedule, Value()) && Charged(price + give)
      ensures fresh_ ==> op == CALL && (Value() || !schedule.eip158Mode)
      ensures ok ==> |mem| == Grown(|old(mem)|, CallReach()) && mem == Extended(old(mem), |mem|)
    {
      gas, give := 0, 0;
      ok, outOff, outSize, fresh_ := PayCall();
      if ok {
        ok, gas, give := GiveGas();
      }
    }

    /** Memory for what goes in and for what comes out, whichever reaches further. */
    function CallReach(): nat
      requires stack.Length == SLOTS && 0 <= sp && sp + Args(op) <= SLOTS && Calls(op)
      reads this, stack
    {
      var at := sp + if op == DELEGATECALL then 2 else 3;
      Further(Reach(stack[at], stack[at + 1]), Reach(stack[at + 2], stack[at + 3]))
    }

    function OutAt(): Word
      requires stack.Length == SLOTS && 0 <= sp && sp + Args(op) <= SLOTS && Calls(op)
      reads this, stack
    {
      stack[sp + if op == DELEGATECALL then 4 else 5]
    }

    function OutSize(): Word
      requires stack.Length == SLOTS && 0 <= sp && sp + Args(op) <= SLOTS && Calls(op)
      reads this, stack
    {
      stack[sp + if op == DELEGATECALL then 5 else 6]
    }

    method PayCall() returns (ok: bool, outOff: nat, outSize: nat, ghost fresh_: bool)
      requires Fetched() && Calls(op)
      modifies this`newMemSize, this`runGas, this`mem, this`ioGas, this`memPaid, this`otherPaid, this`memPart
      ensures Books() && memPart == 0 && |old(mem)| <= |mem| && ioGas <= old(ioGas)
      ensures outOff == OutAt() && outSize == OutSize()
      ensures ok ==> outSize == 0 || outOff + outSize <= |mem|
      ensures ok ==> var price := FixedPrice(schedule, Value(), fresh_);
        price >= Stipend(schedule, Value()) && Charged(price)
      ensures fresh_ ==> op == CALL && (Value() || !schedule.eip158Mode)
      ensures ok ==> |mem| == Grown(|old(mem)|, CallReach()) && mem == Extended(old(mem), |mem|)
    {
      fresh_ := CallPrice();
      var at := sp + if op == DELEGATECALL then 2 else 3;
      outOff, outSize := stack[at + 2], stack[at + 3];
      ok := ReserveBoth(stack[at], stack[at + 1], outOff, outSize);
    }

    method GiveGas() returns (ok: bool, gas: nat, ghost give: nat)
      requires Fit() && Books() && memPart == 0 && Calls(op) && 0 <= sp && sp + Args(op) <= SLOTS
      modifies this`runGas, this`ioGas, this`memPaid, this`otherPaid, this`memPart
      ensures Books() && memPart == 0 && ioGas <= old(ioGas)
      ensures give == Give(schedule, stack[sp], old(ioGas))
      ensures ok ==> gas == give + Stipend(schedule, Value()) && Charged(give) && ioGas == old(ioGas) - give
      ensures ok && schedule.eip150Mode ==> give <= old(ioGas) - old(ioGas) / 64
    {
      gas := stack[sp];
      if schedule.eip150Mode {
        var maxAllowedCallGas := ioGas - ioGas / 64;
        gas := if maxAllowedCallGas < gas then maxAllowedCallGas else gas;
      }
      give := gas;
      ok, runGas := ToInt63(gas);
      if !ok {
        return;
      }
      ok := UpdateIOGas();
      if ok && op != DELEGATECALL && stack[sp + 2] > 0 {
        gas := (gas + schedule.callStipend) % WORD;
      }
    }

    /** What the step takes is the fixed price and, of the gas that was given, what does not come back; memory changes
        only where the output goes. */
    method CaseCall() returns (e: End, ghost fresh_: bool)
      requires Fetched() && Calls(op)
      modifies this`pc, this`newMemSize, this`runGas, this`mem, this`ioGas, this`memPaid, this`otherPaid,
        this`memPart, stack
      ensures Onward(e) && OnlyTop() && (e.Running? || e.Threw?)
      ensures e.Running? ==> |mem| == Grown(|old(mem)|, old(CallReach()))
      ensures e.Running? ==> Outside(Extended(old(mem), |mem|), mem, old(OutAt()), old(OutSize()))
      ensures e.Running? ==>
        CallDue(schedule, op, old(Operands()), old(ioGas) - MemGrowth(), otherPaid - old(otherPaid), fresh_)
    {
      fresh_ := false;
      if op == DELEGATECALL && !schedule.haveDelegateCall {
        e := Threw(BadInstruction);
        return;
      }
      var ok;
      ok, fresh_ := CallDuly();
      if !ok {
        e := Threw(OutOfGas);
        return;
      }
      pc := pc + 1;
      e := Running;
    }

    method CallDuly() returns (ok: bool, ghost fresh_: bool)
      requires Fetched() && Calls(op)
      modifies this`newMemSize, this`runGas, this`mem, this`ioGas, this`memPaid, this`otherPaid, this`memPart, stack
      ensures Books() && memPart == 0 && |old(mem)| <= |mem| && ioGas <= old(ioGas) && OnlyTop()
      ensures ok ==> |mem| == Grown(|old(mem)|, old(CallReach()))
      ensures ok ==> Outside(Extended(old(mem), |mem|), mem, old(OutAt()), old(OutSize()))
      ensures ok ==>
        CallDue(schedule, op, old(Operands()), old(ioGas) - MemGrowth(), otherPaid - old(otherPaid), fresh_)
    {
      ghost var give;
      ghost var a := Operands();
      assert a[0] == stack[sp] && WithValue(op, a) == Value();
      ok, fresh_, give := MakeCall();
      if ok {
        CallIsDue(schedule, op, a, old(ioGas) - MemGrowth(), otherPaid - old(otherPaid), fresh_, give);
      }
    }

    method MakeCall() returns (ok: bool, ghost fresh_: bool, ghost give: nat)
      requires Fetched() && Calls(op)
      modifies this`newMemSize, this`runGas, this`mem, this`ioGas, this`memPaid, this`otherPaid, this`memPart, stack
      ensures Books() && memPart == 0 && |old(mem)| <= |mem| && ioGas <= old(ioGas) && OnlyTop()
      ensures fresh_ ==> op == CALL && (old(Value()) || !schedule.eip158Mode)
      ensures ok ==> |mem| == Grown(|old(mem)|, old(CallReach()))
      ensures ok ==> Outside(Extended(old(mem), |mem|), mem, old(OutAt()), old(OutSize()))
      ensures ok ==> var price := FixedPrice(schedule, old(Value()), fresh_);
        && price + give <= old(ioGas) - MemGrowth()
        && give == Give(schedule, old(stack[sp]), old(ioGas) - MemGrowth() - price)
        && price - Stipend(schedule, old(Value())) <= otherPaid - old(otherPaid) <= price + give
    {
      var gas, outOff, outSize;
      ok, gas, outOff, outSize, fresh_, give := CaseCallSetup();
      if ok {
        Answer(gas, outOff, outSize);
      }
    }

    /** The price of the growth of memory. */
    twostate function MemGrowth(): int
      reads this
    {
      prices.mem(|mem| / 32) - prices.mem(|old(mem)| / 32)
    }

    /** What comes of the call: an answer, and gas. */
    method Answer(given: nat, outOff: nat, outSize: nat)
      requires Fit() && Books() && memPart == 0 && 0 <= spp < SLOTS && (outSize == 0 || outOff + outSize <= |mem|)
      requires given <= otherPaid
      modifies this`mem, this`ioGas, this`otherPaid, stack
      ensures Books() && OnlyTop() && Outside(old(mem), mem, outOff, outSize)
      ensures old(otherPaid) - given <= otherPaid <= old(otherPaid)
    {
      var left := given;
      stack[spp] := 0;
      var enough: bool := *;
      if enough {
        left := CallOther(given, outOff, outSize);
      }
      ioGas := Add64(ioGas, left);
      otherPaid := otherPaid - left;
    }

    /** The code that is called gives back no more than it got, and its output goes where it was asked for. */
    method CallOther(given: nat, outOff: nat, outSize: nat) returns (left: nat)
      requires Fit() && Books() && 0 <= spp < SLOTS && (outSize == 0 || outOff + outSize <= |mem|)
      modifies this`mem, stack
      ensures Books() && Outside(old(mem), mem, outOff, outSize) && OnlyTop() && left <= given
    {
      left :| left <= given;
      var success: bool := *;
      stack[spp] := if success then 1 else 0;
      var output: seq<Byte> :| |output| <= outSize;
      if output != [] {
        mem := Poked(mem, outOff, output);
      }
    }

    /** Reserve n bytes at an operand, which one instruction reads or writes. */
    method ReserveAt(at: Word, n: nat) returns (ok: bool)
      requires Fit() && Books() && memPart == 0 && copyMemSize == 0 && runGas <= MAX63 && 1 <= n <= 32
      modifies this`newMemSize, this`runGas, this`mem, this`memPart, this`ioGas, this`memPaid, this`otherPaid
      ensures Books() && memPart == 0 && |old(mem)| <= |mem| && ioGas <= old(ioGas)
      ensures ok ==> at + n <= |mem| == Grown(|old(mem)|, at + n) && mem == Extended(old(mem), |mem|)
      ensures ok ==> Charged(old(runGas))
      ensures ok <==> at <= MAX63 && old(Affords(at + n))
    {
      var w;
      ok, w := ToInt63(at);
      if ok {
        ok := GrowAndPay(w + n);
      }
    }

    /** The address is cut to 32 bits. */
    method CaseLoad() returns (e: End)
      requires Fetched() && op == MLOAD
      modifies this`pc, this`newMemSize, this`runGas, this`mem, this`ioGas, this`memPaid, this`otherPaid,
        this`memPart, stack
      ensures Onward(e) && OnlyTop() && (e.Running? || e.Threw?) && (e.Running? ==> Charged(old(runGas)))
      ensures e.Running? <==> old(stack[sp]) <= MAX63 && old(Affords(stack[sp] + 32))
      ensures e.Running? ==> |mem| == Grown(|old(mem)|, old(stack[sp]) + 32)
      ensures e.Running? ==> var at := old(stack[sp]) % U32;
        at + 32 <= |mem| && mem == Extended(old(mem), |mem|) && stack[spp] == WordOf(mem[at..at + 32]) % WORD
    {
      var cut := stack[sp] % U32;
      var ok := ReserveAt(stack[sp], 32);
      if !ok {
        return Threw(OutOfGas);
      }
      stack[spp] := WordOf(mem[cut..cut + 32]) % WORD;
      pc := pc + 1;
      e := Running;
    }

    /** The bytes stand at the address cut to 32 bits, and memory reaches as far as the whole address asks. */
    twostate predicate PutAt(at: Word, bytes: seq<Byte>)
      reads this
    {
      && at % U32 + |bytes| <= at + |bytes| <= |mem| == Grown(|old(mem)|, at + |bytes|)
      && mem == Poked(Extended(old(mem), |mem|), at % U32, bytes)
    }

    method CaseStore() returns (e: End)
      requires Fetched() && (op == MSTORE || op == MSTORE8)
      modifies this`pc, this`newMemSize, this`runGas, this`mem, this`ioGas, this`memPaid, this`otherPaid, this`memPart
      ensures Onward(e) && (e.Running? || e.Threw?) && (e.Running? ==> Charged(old(runGas)))
      ensures var n := if op == MSTORE then 32 else 1;
        e.Running? <==> old(stack[sp]) <= MAX63 && old(Affords(stack[sp] + n))
      ensures e.Running? ==> PutAt(stack[sp], Stored(op, stack[sp + 1]))
    {
      var ok := Store(stack[sp], Stored(op, stack[sp + 1]));
      if !ok {
        return Threw(OutOfGas);
      }
      pc := pc + 1;
      e := Running;
    }

    method Store(at: Word, bytes: seq<Byte>) returns (ok: bool)
      requires Fit() && Books() && memPart == 0 && copyMemSize == 0 && runGas <= MAX63 && 1 <= |bytes| <= 32
      modifies this`newMemSize, this`runGas, this`mem, this`ioGas, this`memPaid, this`otherPaid, this`memPart
      ensures Books() && memPart == 0 && |old(mem)| <= |mem| && ioGas <= old(ioGas)
      ensures ok <==> at <= MAX63 && old(Affords(at + |bytes|))
      ensures ok ==> Charged(old(runGas)) && PutAt(at, bytes)
    {
      var cut := at % U32;
      ok := ReserveAt(at, |bytes|);
      if ok {
        mem := Poked(mem, cut, bytes);
      }
    }

    // --------------------------------------------------------------------- steps

    /** Take `removed` items and make room for `added`; a refusal says which way it went wrong. */
    method AdjustStack(removed: nat, added: nat) returns (e: End)
      requires 0 <= spp <= SLOTS && removed <= 17 && added <= 17
      modifies this`sp, this`spp
      ensures sp == old(spp)
      ensures e == if sp + removed > SLOTS then Threw(StackUnderflow)
        else if sp + removed < added then Threw(OutOfStack) else Running
      ensures e.Running? ==> spp == sp + removed - added
    {
      sp := spp;
      spp := spp + removed;
      if SLOTS < spp {
        return ThrowBadStack(removed);
      }
      spp := spp - added;
      if spp < 0 {
        return ThrowBadStack(removed);
      }
      e := Running;
    }

    function ThrowBadStack(removed: nat): End
      reads this
    {
      if SLOTS - spp < removed then Threw(StackUnderflow) else Threw(OutOfStack)
    }

    method FetchInstruction() returns (e: End)
      requires Fit() && Ready()
      modifies this`op, this`sp, this`spp, this`runGas, this`newMemSize, this`copyMemSize
      ensures Sane() && memPart == 0 && op == code[pc] && sp == old(spp)
      ensures e == if sp + Args(op) > SLOTS then Threw(StackUnderflow)
        else if sp + Args(op) < Ret(op) then Threw(OutOfStack) else Running
      ensures e.Running? ==> AtTier()
    {
      op := code[pc];
      e := AdjustStack(Args(op), Ret(op));
      if e.Running? {
        var price: nat :| price < U32;
        runGas := if Tier(op) < 8 then schedule.tierStepGas[Tier(op)] else price;
        newMemSize := |mem|;
        copyMemSize := 0;
      }
    }

    /** What is left to run for: gas, and one more unless the next instruction is a JUMPDEST, which costs one. */
    ghost function Fuel(): nat
      requires pc < |code|
      reads this
    {
      ioGas + if code[pc] == JUMPDEST then 0 else 1
    }

    /** Either fuel went, or the same fuel is further on. */
    twostate predicate Progress()
      requires old(pc) < |old(code)| && pc < |code|
      reads this
    {
      Fuel() < old(Fuel()) || (Fuel() == old(Fuel()) && pc > old(pc))
    }

    /** What a step starts from. */
    ghost function Now(): Snap
      reads this, stack
    {
      Snap(pc, ioGas, mem, otherPaid, stack[..])
    }

    /** A step with the operands a. If it goes on: where to, and what it leaves alone. If it is completed: what it has
        taken, and how far memory reaches. */
    ghost predicate Taken(e: End, was: Snap, a: seq<Word>)
      requires |a| == Args(op) && stack.Length == SLOTS == |was.stack|
      reads this, stack
    {
      (e.Running? ==> Led(was, a)) && (!e.Threw? ==> Cost(was, a)) && EndsWell(e, was.gas, a)
    }

    ghost predicate Led(was: Snap, a: seq<Word>)
      requires |a| == Args(op) && stack.Length == SLOTS == |was.stack|
      reads this, stack
    {
      && !Final(op) && pc == NextPc(was.pc, op, a)
      && (Swap(op) || forall k | 0 <= k < SLOTS && k != spp :: stack[k] == was.stack[k])
      && (Writes(op) || mem == Extended(was.mem, |mem|))
    }

    ghost predicate Cost(was: Snap, a: seq<Word>)
      requires |a| == Args(op)
      reads this
    {
      && Tier(op) < 8 == |schedule.tierStepGas|
      && |mem| == Grown(|was.mem|, Need(op, a))
      && Due(schedule, prices, op, a, was.gas - (prices.mem(|mem| / 32) - prices.mem(|was.mem| / 32)),
             otherPaid - was.other)
    }

    /** How a step ends that does not go on: with nothing, with the bytes that its operands name, or in a fault. At a
        flat price the fault is want of gas exactly when that price is not there. */
    ghost predicate EndsWell(e: End, hadGas: nat, a: seq<Word>)
      requires |a| == Args(op)
      reads this
    {
      && (e.Stopped? && op != RETURN ==> op in {STOP, SUICIDE} && e.output == [])
      && (e.Reverted? ==> op == REVERT && schedule.haveRevert) && (e.Stopped? ==> op != REVERT)
      && ((e.Stopped? && op == RETURN) || e.Reverted? ==>
        Reach(a[0], a[1]) <= |mem| && e.output == Range(mem, a[0], a[1]))
      && (Flat(op) && Tier(op) < |schedule.tierStepGas| ==>
        && (e == Threw(OutOfGas) <==> OwnPrice(schedule, op, a) > hadGas)
        && (e.Threw? ==> e == Threw(OutOfGas) || (JUMP <= op <= JUMPI && e == Threw(BadJumpDestination))))
    }

    /** What every instruction keeps to. */
    twostate predicate Executed(e: End)
      requires old(Fetched())
      reads this, stack
    {
      && Over(e) && (e.Running? ==> pc < |code| && Progress() && (pc == old(pc) + Length(op) || code[pc] == JUMPDEST))
      && Taken(e, old(Now()), old(Operands()))
    }

    /** What is no instruction is refused and charges nothing. */
    twostate predicate Refused(e: End)
      reads this
    {
      Tier(op) == 8 ==> e == Threw(BadInstruction) && ioGas == old(ioGas) && mem == old(mem)
    }

    /** Do what `op` says. */
    method Execute() returns (e: End)
      requires AtTier()
      modifies this, stack
      ensures Executed(e) && Refused(e)
    {
      if op == CREATE {
        e := ExecuteCreate();
      } else if Calls(op) {
        e := ExecuteCall();
      } else if op == RETURN || op == REVERT {
        e := ExecuteReturn();
      } else if op == STOP || op == SUICIDE {
        e := ExecuteStop();
      } else if op == SHA3 || Log(op) {
        e := ExecuteRead();
      } else if Copies(op) {
        e := ExecuteCopy();
      } else {
        e := ExecuteSimple();
      }
    }

    predicate Outward(o: Byte) {
      o == CREATE || Calls(o) || o == RETURN || o == REVERT || o == STOP || o == SUICIDE || o == SHA3 || Log(o)
      || Copies(o)
    }

    method ExecuteSimple() returns (e: End)
      requires AtTier() && !Outward(op)
      modifies this, stack
      ensures Executed(e) && Refused(e)
    {
      if op == MLOAD {
        e := ExecuteLoad();
      } else if op == MSTORE || op == MSTORE8 {
        e := ExecuteStore();
      } else if op == SSTORE {
        e := ExecuteSStore();
      } else if op == JUMP || op == JUMPI {
        e := ExecuteJump();
      } else if op == JUMPDEST {
        e := ExecuteJumpDest();
      } else {
        e := ExecuteOnward();
      }
    }

    /** Instructions that go straight on and use no memory. */
    method ExecuteOnward() returns (e: End)
      requires AtTier() && !Outward(op) && op != JUMPDEST && !(MLOAD <= op <= MSTORE8) && !(SSTORE <= op <= JUMPI)
      modifies this, stack
      ensures Executed(e) && Refused(e)
    {
      if op == POP {
        e := ExecutePop();
      } else if Push(op) {
        e := ExecutePush();
      } else if Dup(op) || Swap(op) {
        e := ExecuteDupSwap();
      } else if op == EXP || op == BALANCE || op == EXTCODESIZE || op == SLOAD {
        e := ExecuteNamed();
      } else if op == SDIV || Plain(op) {
        e := ExecuteResult();
      } else {
        e := Threw(BadInstruction);
      }
    }

    /** The step has taken what is due and memory reaches as far as it has to. */
    twostate predicate Completed()
      requires old(Fetched()) && stack.Length == SLOTS && op == old(op)
      reads this, stack
    {
      && Tier(op) < 8 == |schedule.tierStepGas|
      && |mem| == Grown(|old(mem)|, Need(op, old(Operands())))
      && Due(schedule, prices, op, old(Operands()), old(ioGas) - MemGrowth(), otherPaid - old(otherPaid))
    }

    method ExecuteCreate() returns (e: End)
      requires AtTier() && op == CREATE
      modifies this, stack
      ensures Executed(e)
    {
      e := CreateOnly();
    }

    method CreateOnly() returns (e: End)
      requires Fetched() && op == CREATE
      modifies this`pc, this`newMemSize, this`runGas, this`mem, this`ioGas, this`memPaid, this`otherPaid,
        this`memPart, stack
      ensures Onward(e) && OnlyTop() && (e.Running? || e.Threw?)
      ensures e.Running? ==> Completed() && mem == Extended(old(mem), |mem|)
    {
      e := CaseCreate();
    }

    method ExecuteCall() returns (e: End)
      requires AtTier() && Calls(op)
      modifies this, stack
      ensures Executed(e)
    {
      NotFlat(op);
      e := CallOnly();
    }

    method CallOnly() returns (e: End)
      requires Fetched() && Calls(op)
      modifies this`pc, this`newMemSize, this`runGas, this`mem, this`ioGas, this`memPaid, this`otherPaid,
        this`memPart, stack
      ensures Onward(e) && OnlyTop() && (e.Running? || e.Threw?)
      ensures e.Running? ==> Completed()
    {
      ghost var a := Operands();
      ghost var fresh_;
      e, fresh_ := CaseCall();
      CallReaches(schedule, prices, op, a, old(ioGas) - MemGrowth(), otherPaid - old(otherPaid), fresh_);
    }

    method ExecuteReturn() returns (e: End)
      requires AtTier() && (op == RETURN || op == REVERT)
      modifies this, stack
      ensures Executed(e)
    {
      ghost var a := Operands();
      RangeReaches(op, a);
      assert a[0] == stack[sp] && a[1] == stack[sp + 1];
      e := CaseReturn();
      if !e.Threw? { OwnIsDue(schedule, prices, op, a, old(ioGas) - MemGrowth()); }
    }

    method ExecuteStop() returns (e: End)
      requires AtTier() && (op == STOP || op == SUICIDE)
      modifies this, stack
      ensures Executed(e)
    {
      e := CaseStop();
    }

    method ExecuteRead() returns (e: End)
      requires AtTier() && (op == SHA3 || Log(op))
      modifies this, stack
      ensures Executed(e)
    {
      RangeReaches(op, Operands());
      e := ReadOnly();
    }

    method ReadOnly() returns (e: End)
      requires Fetched() && (op == SHA3 || Log(op))
      modifies this`pc, this`newMemSize, this`runGas, this`mem, this`ioGas, this`memPaid, this`otherPaid,
        this`memPart, stack
      ensures Onward(e) && OnlyTop() && (e.Running? || e.Threw?)
      ensures e.Running? ==> Completed() && mem == Extended(old(mem), |mem|)
    {
      ghost var a := Operands();
      RangeReaches(op, a);
      e := CaseRead();
      ReadIsOwn(schedule, op, a);
      if !e.Threw? { OwnIsDue(schedule, prices, op, a, old(ioGas) - MemGrowth()); }
    }

    method ExecuteCopy() returns (e: End)
      requires AtTier() && Copies(op)
      modifies this, stack
      ensures Executed(e)
    {
      e := CopyOnly();
    }

    method CopyOnly() returns (e: End)
      requires AtTier() && Copies(op)
      modifies this`pc, this`newMemSize, this`copyMemSize, this`runGas, this`mem, this`ioGas, this`memPaid,
        this`otherPaid, this`memPart
      ensures Onward(e) && (e.Running? || e.Threw?) && !Flat(op)
      ensures e.Running? ==> Completed()
    {
      ghost var a := Operands();
      e := CaseCopy();
      CopyIsDue(schedule, prices, op, a, old(ioGas) - MemGrowth());
    }

    method ExecuteLoad() returns (e: End)
      requires AtTier() && op == MLOAD
      modifies this, stack
      ensures Executed(e)
    {
      ghost var a := Operands();
      WordReaches(op, a);
      e := CaseLoad();
      if !e.Threw? { OwnIsDue(schedule, prices, op, a, old(ioGas) - MemGrowth()); }
    }

    method ExecuteStore() returns (e: End)
      requires AtTier() && (op == MSTORE || op == MSTORE8)
      modifies this, stack
      ensures Executed(e)
    {
      ghost var a := Operands();
      WordReaches(op, a);
      e := StoreOnly();
      if !e.Threw? { OwnIsDue(schedule, prices, op, a, old(ioGas) - MemGrowth()); }
    }

    method StoreOnly() returns (e: End)
      requires Fetched() && (op == MSTORE || op == MSTORE8)
      modifies this`pc, this`newMemSize, this`runGas, this`mem, this`ioGas, this`memPaid, this`otherPaid, this`memPart
      ensures Onward(e) && (e.Running? || e.Threw?) && (e.Running? ==> Charged(old(runGas)))
      ensures e.Running? ==> |mem| == Grown(|old(mem)|, stack[sp] as int + if op == MSTORE8 then 1 else 32)
    {
      e := CaseStore();
    }

    method ExecuteSStore() returns (e: End)
      requires AtTier() && op == SSTORE
      modifies this, stack
      ensures Executed(e)
    {
      e := CaseSStore();
    }

    method ExecuteJump() returns (e: End)
      requires AtTier() && (op == JUMP || op == JUMPI)
      modifies this, stack
      ensures Executed(e)
    {
      ghost var a := Operands();
      e := CaseJump();
      if !e.Threw? { OwnIsDue(schedule, prices, op, a, old(ioGas) - MemGrowth()); }
    }

    method ExecuteJumpDest() returns (e: End)
      requires AtTier() && op == JUMPDEST
      modifies this, stack
      ensures Executed(e)
    {
      ghost var a := Operands();
      e := CaseJumpDest();
      if !e.Threw? { OwnIsDue(schedule, prices, op, a, old(ioGas) - MemGrowth()); }
    }

    method ExecutePop() returns (e: End)
      requires AtTier() && op == POP
      modifies this, stack
      ensures Executed(e)
    {
      ghost var a := Operands();
      e := CasePop();
      if !e.Threw? { OwnIsDue(schedule, prices, op, a, old(ioGas) - MemGrowth()); }
    }

    method ExecutePush() returns (e: End)
      requires AtTier() && Push(op)
      modifies this, stack
      ensures Executed(e)
    {
      ghost var a := Operands();
      e := CasePush();
      if !e.Threw? { OwnIsDue(schedule, prices, op, a, old(ioGas) - MemGrowth()); }
    }

    method ExecuteDupSwap() returns (e: End)
      requires AtTier() && (Dup(op) || Swap(op))
      modifies this, stack
      ensures Executed(e)
    {
      ghost var a := Operands();
      e := CaseDupSwap();
      if !e.Threw? { OwnIsDue(schedule, prices, op, a, old(ioGas) - MemGrowth()); }
    }

    /** Four instructions have prices of their own. */
    method SetNamedPrice()
      requires Fetched() && (op == EXP || op == BALANCE || op == EXTCODESIZE || op == SLOAD)
      modifies this`runGas
      ensures runGas < U32 && runGas == OwnPrice(schedule, op, Operands())
    {
      if op == EXP {
        var firstBit := FirstBitSet(BytesOf(stack[sp + 1], 32));
        LeadingBytes(stack[sp + 1]);
        runGas := (schedule.expGas + schedule.expByteGas * (32 - firstBit / 8)) % U32;
      } else if op == BALANCE {
        runGas := schedule.balanceGas;
      } else if op == EXTCODESIZE {
        runGas := schedule.extcodesizeGas;
      } else {
        runGas := schedule.sloadGas;
      }
    }

    method ExecuteNamed() returns (e: End)
      requires AtTier() && (op == EXP || op == BALANCE || op == EXTCODESIZE || op == SLOAD)
      modifies this, stack
      ensures Executed(e)
    {
      ghost var a := Operands();
      e := NamedOnly();
      if !e.Threw? { OwnIsDue(schedule, prices, op, a, old(ioGas) - MemGrowth()); }
    }

    method NamedOnly() returns (e: End)
      requires Fetched() && (op == EXP || op == BALANCE || op == EXTCODESIZE || op == SLOAD)
      modifies this, stack
      ensures Onward(e) && OnlyTop() && mem == old(mem)
      ensures e == if OwnPrice(schedule, op, old(Operands())) <= old(ioGas) then Running else Threw(OutOfGas)
      ensures e.Running? ==> Charged(OwnPrice(schedule, op, old(Operands())))
    {
      SetNamedPrice();
      e := CaseResult();
    }

    method ExecuteResult() returns (e: End)
      requires AtTier() && (op == SDIV || Plain(op))
      modifies this, stack
      ensures Executed(e)
    {
      e := CaseResult();
    }

    /** One instruction. The stack pointers are in their 1024 slots, but for the old one after a POP or an SDIV
        on a full stack. */
    method Step() returns (e: End)
      requires Fit() && Ready()
      modifies this, stack
      ensures Sane() && memPart == 0 && code == old(code) && jumpDests == old(jumpDests) && given == old(given)
      ensures |mem| >= |old(mem)| && ioGas <= old(ioGas) && op == old(code[pc])
      ensures e.Running? ==> Ready() && Progress()
      ensures e.Running? ==> sp == old(spp) - (if op == POP || op == SDIV then 1 else 0)
      ensures e.Running? ==> (0 <= sp <= SLOTS <==> !(old(spp) == 0 && (op == POP || op == SDIV)))
      ensures Args(op) > SLOTS - old(spp) ==> e == Threw(StackUnderflow)
      ensures Args(op) <= SLOTS - old(spp) && old(spp) + Args(op) < Ret(op) ==> e == Threw(OutOfStack)
      ensures Args(op) <= SLOTS - old(spp) && Ret(op) <= old(spp) + Args(op) ==>
        spp == old(spp) + Args(op) - Ret(op) && Taken(e, old(Now()), old(stack[spp..spp + Args(code[pc])]))
      ensures Refused(e)
    {
      e := FetchInstruction();
      if e.Running? {
        assert Now() == old(Now()) && Operands() == old(stack[spp..spp + Args(code[pc])]);
        e := Execute();
      }
    }

    /** One step, and what it is entered as. */
    method Advance() returns (e: End, ghost t: Toll)
      requires Fit() && Ready()
      modifies this, stack
      ensures Sane() && memPart == 0 && code == old(code) && jumpDests == old(jumpDests) && given == old(given)
      ensures e.Running? ==> Ready() && Progress()
      ensures t.pc == old(pc) && t.op == old(code[pc]) && t.gas == old(ioGas) && t.had == |old(mem)|
      ensures t.room == old(spp) && t.own == otherPaid - old(otherPaid)
      ensures e.Threw? ==> ioGas <= old(ioGas)
      ensures !e.Threw? ==> Settled(schedule, prices, t) && After(t)
      ensures e.Running? ==> pc == NextPc(t.pc, t.op, t.args)
      ensures e.Running? ==> !Final(t.op)
      ensures !e.Running? ==> EndsAs(schedule, t, e, mem)
    {
      ghost var a := if spp + Args(code[pc]) <= SLOTS then stack[spp..spp + Args(code[pc])] else [];
      ghost var before := Toll(pc, code[pc], a, ioGas, |mem|, spp, 0);
      ghost var was := Now();
      e := Step();
      t := before.(own := otherPaid - was.other);
      if !e.Threw? { CostIsSettled(was, t); }
    }

    lemma {:induction false} CostIsSettled(was: Snap, t: Toll)
      requires t.op == op && |t.args| == Args(op) && Cost(was, t.args)
      requires t.gas == was.gas && t.had == |was.mem| && t.own == otherPaid - was.other
      requires was.gas + prices.mem(|was.mem| / 32) + was.other == ioGas + prices.mem(|mem| / 32) + otherPaid
      ensures Settled(schedule, prices, t) && |mem| == t.Memory() && ioGas == t.gas - t.Growth(prices) - t.own
    {
      DueIsSettled(schedule, prices, t, |mem|);
    }

    /** What there is after a step that was completed. */
    ghost predicate After(t: Toll)
      requires t.Whole()
      reads this
    {
      && ioGas == t.gas - t.Growth(prices) - t.own && |mem| == t.Memory()
      && spp == t.room + Args(t.op) - Ret(t.op)
    }

    /** The step after which the old stack pointer is out: a POP that can be paid for, on a full stack. */
    method PopWhenFull() returns (e: End)
      requires Fit() && Ready() && code[pc] == POP && spp == 0 && schedule.tierStepGas[1] <= ioGas
      modifies this, stack
      ensures e.Running? && sp == -1
    {
      e := Step();
    }

    /** The step at a byte that is no instruction: its price is read past the table, and never charged. */
    method UnknownRefused() returns (e: End)
      requires Fit() && Ready() && code[pc] == 0x0c
      modifies this, stack
      ensures Tier(old(code[pc])) >= |schedule.tierStepGas|
      ensures e == Threw(BadInstruction) && ioGas == old(ioGas) && mem == old(mem)
    {
      e := Step();
    }

    /** MSTORE8 at 2^32 on a memory of zeros: the byte goes to 0. */
    method StoreAtTwo32() returns (e: End)
      requires Fetched() && op == MSTORE8 && stack[sp] == U32 && stack[sp + 1] == 1 && mem == [] && Affords(U32 + 1)
      modifies this, stack
      ensures e.Running? && |mem| > U32 && mem[0] == 1 && mem[U32] == 0
    {
      e := CaseStore();
    }

    /** MLOAD at 2^32: the word is not the one that stands there. */
    method LoadAtTwo32() returns (e: End)
      requires Fetched() && op == MLOAD && stack[sp] == U32 && Affords(U32 + 32) && |mem| >= U32 + 32
      requires mem[..32] != mem[U32..U32 + 32]
      modifies this, stack
      ensures e.Running? && mem == old(mem) && 0 <= spp < stack.Length && stack[spp] != WordOf(mem[U32..U32 + 32])
    {
      e := CaseLoad();
      assert mem[0..32] == mem[..32];
      LoadAddress(mem, U32);
      WordsAreBelow(mem[U32..U32 + 32]);
    }

    constructor (schedule: Schedule)
      requires Fair(schedule)
      ensures this.schedule == schedule && prices == PricesOf(schedule) && fresh(stack)
      ensures stack.Length == SLOTS && sp == spp == SLOTS && mem == []
    {
      this.schedule, prices := schedule, PricesOf(schedule);
      stack := new Word[SLOTS];
      code, jumpDests, mem := [], [], [];
      pc, op, sp, spp := 0, STOP, SLOTS, SLOTS;
      ioGas, runGas, newMemSize, copyMemSize := 0, 0, 0, 0;
      given, memPaid, otherPaid, memPart := 0, 0, 0, 0;
    }

    /** Every run ends. What it had (in 64 bits) is what is left, what its memory costs, and what its steps took; and
        its steps are those of the code, each at its price. */
    method Exec(user: seq<Byte>, gas: nat) returns (e: End, left: nat, ghost log: seq<Toll>)
      requires Fair(schedule) && prices == PricesOf(schedule) && stack.Length == SLOTS && spp == SLOTS && mem == []
      modifies this, stack
      ensures !e.Running? && left <= gas
      ensures |mem| % 32 == 0 && memPaid == MemGas(schedule, |mem| / 32)
      ensures gas % U64 == left + MemGas(schedule, |mem| / 32) + otherPaid
      ensures |code| == |user| + EXTRA && forall k | 0 <= k < |code| ::
        code[k] == if k >= |user| then STOP else if Synthetic(user[k]) && Starts(user, 0, k) then BAD else user[k]
      ensures log != [] && Traced(schedule, prices, code, gas % U64, log, e.Threw?)
      ensures EndsAs(schedule, log[|log| - 1], e, mem) && (!e.Threw? ==> otherPaid == Spent(log))
    {
      Load(user, gas);
      e, log := RunOn();
      left := ioGas;
    }

    method Load(user: seq<Byte>, gas: nat)
      requires Fair(schedule) && prices == PricesOf(schedule) && stack.Length == SLOTS && spp == SLOTS && mem == []
      modifies this
      ensures Fit() && Ready() && pc == 0 && spp == SLOTS && mem == [] && otherPaid == 0 && ioGas == given == gas % U64
      ensures |code| == |user| + EXTRA && forall k | 0 <= k < |code| ::
        code[k] == if k >= |user| then STOP else if Synthetic(user[k]) && Starts(user, 0, k) then BAD else user[k]
    {
      ioGas := gas % U64;
      code, jumpDests := Optimize(user);
      pc := 0;
      given, memPaid, otherPaid, memPart := ioGas, 0, 0, 0;
      FairIsOrderly(schedule);
    }

    method RunOn() returns (e: End, ghost log: seq<Toll>)
      requires Fit() && Ready() && pc == 0 && spp == SLOTS && mem == [] && otherPaid == 0
      modifies this, stack
      ensures Sane() && memPart == 0 && !e.Running? && given == old(given) && code == old(code)
      ensures log != [] && Traced(schedule, prices, code, old(ioGas), log, e.Threw?)
      ensures EndsAs(schedule, log[|log| - 1], e, mem) && (!e.Threw? ==> otherPaid == Spent(log))
    {
      e, log := Running, [];
      while e.Running?
        invariant Sane() && memPart == 0 && given == old(given) && code == old(code)
        invariant e.Running? ==> Ready() && Onwards(log, old(ioGas)) && otherPaid == Spent(log)
        invariant Traced(schedule, prices, code, old(ioGas), log, e.Threw?)
        invariant !e.Running? ==> log != []
        invariant !e.Running? ==> EndsAs(schedule, log[|log| - 1], e, mem) && (!e.Threw? ==> otherPaid == Spent(log))
        decreases if e.Running? then Fuel() + 1 else 0, |code| - pc
      {
        ghost var t;
        ghost var so := log;
        e, t := Advance();
        TracedOn(schedule, prices, code, old(ioGas), so, t);
        log := so + [t];
      }
    }

    /** The run stands where the last step led, or at its beginning. */
    ghost predicate Onwards(log: seq<Toll>, gas: nat)
      reads this
    {
      if log == [] then pc == 0 && ioGas == gas && mem == [] && spp == SLOTS
      else
        var t := log[|log| - 1];
        t.Whole() && After(t) && pc == NextPc(t.pc, t.op, t.args) && !Final(t.op)
    }
  }

  /** Instructions that write to memory, and not only make room. */
  predicate Writes(op: Byte) {
    op == MSTORE || op == MSTORE8 || Copies(op) || Calls(op)
  }
}
