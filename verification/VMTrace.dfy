/** What a run of the interpreter is entered as: its steps, what each took, and where each led. */
module VMTrace {
  import opened Basics
  import opened VMPrices
  import opened VMMemory

  const SLOTS := 1024

  datatype Fault = OutOfGas | BadInstruction | BadJumpDestination | StackUnderflow | OutOfStack

  datatype End = Running | Stopped(output: seq<Byte>) | Reverted(output: seq<Byte>) | Threw(fault: Fault)

  function Length(op: Byte): nat {
    if Push(op) then op - PUSH1 + 2 else 1
  }

  /** The next program counter of a step that goes on. */
  function NextPc(pc: nat, op: Byte, a: seq<Word>): nat
    requires |a| == Args(op)
  {
    if op == JUMP || (op == JUMPI && a[1] != 0) then a[0] else pc + Length(op)
  }

  // ------------------------------------------------------------------ what a run is entered as

  /** A step: where it is, with what operands, what there was before it (gas, memory, room on the stack), and what it
      took besides the growth of memory. */
  datatype Toll = Toll(pc: nat, op: Byte, args: seq<Word>, gas: int, had: nat, room: int, own: int)
  {
    predicate Whole() { |args| == Args(op) && Tier(op) < 8 }

    /** The memory after it. */
    function Memory(): nat
      requires Whole()
    {
      Grown(had, Need(op, args))
    }

    function Growth(p: Prices): int
      requires Whole()
    {
      p.mem(Memory() / 32) - p.mem(had / 32)
    }
  }

  /** A step that was completed took what was due. */
  ghost predicate Settled(s: Schedule, p: Prices, t: Toll) {
    t.Whole() && |s.tierStepGas| == 8 && Due(s, p, t.op, t.args, t.gas - t.Growth(p), t.own)
  }

  lemma {:induction false} DueIsSettled(s: Schedule, p: Prices, t: Toll, m: nat)
    requires t.Whole() && |s.tierStepGas| == 8 && m == t.Memory()
    requires Due(s, p, t.op, t.args, t.gas - (p.mem(m / 32) - p.mem(t.had / 32)), t.own)
    ensures Settled(s, p, t)
  {
  }

  /** t comes after last: where that leads, with what it left. */
  ghost predicate Follows(p: Prices, last: Toll, t: Toll) {
    && last.Whole() && !Final(last.op) && t.pc == NextPc(last.pc, last.op, last.args)
    && t.gas == last.gas - last.Growth(p) - last.own && t.had == last.Memory()
    && t.room == last.room + Args(last.op) - Ret(last.op)
  }

  /** Why a step failed: the stack, or at a flat price want of gas or a bad destination, or there is no such
      instruction. */
  ghost predicate FailsAs(s: Schedule, t: Toll, f: Fault) {
    if t.room + Args(t.op) > SLOTS then f == StackUnderflow
    else if t.room + Args(t.op) < Ret(t.op) then f == OutOfStack
    else
      && (Tier(t.op) == 8 ==> f == BadInstruction)
      && (Flat(t.op) ==>
        && t.Whole() && |s.tierStepGas| == 8
        && if OwnPrice(s, t.op, t.args) > t.gas then f == OutOfGas
           else JUMP <= t.op <= JUMPI && f == BadJumpDestination)
  }

  /** The steps of a run of code, from the first instruction on with nothing on the stack and no memory: each has taken
      what was due, but for the last if it failed, and each goes on where the one before it led. */
  ghost predicate Traced(s: Schedule, p: Prices, code: seq<Byte>, gas: nat, log: seq<Toll>, failed: bool) {
    && (log != [] ==> Starting(log[0], gas))
    && (forall i | 0 <= i < |log| :: At(code, log[i]))
    && (forall i | 0 <= i < |log| && (i < |log| - 1 || !failed) :: Settled(s, p, log[i]))
    && forall i | 0 < i < |log| :: Follows(p, log[i - 1], log[i])
  }

  predicate Starting(t: Toll, gas: nat) {
    t.pc == 0 && t.gas == gas && t.had == 0 && t.room == SLOTS
  }

  predicate At(code: seq<Byte>, t: Toll) {
    t.pc < |code| && t.op == code[t.pc]
  }

  lemma {:induction false} TracedOn(s: Schedule, p: Prices, code: seq<Byte>, gas: nat, log: seq<Toll>, t: Toll)
    requires Traced(s, p, code, gas, log, false) && At(code, t)
    requires if log == [] then Starting(t, gas) else Follows(p, log[|log| - 1], t)
    ensures Traced(s, p, code, gas, log + [t], true)
    ensures Settled(s, p, t) ==> Traced(s, p, code, gas, log + [t], false)
    ensures Spent(log + [t]) == Spent(log) + t.own
  {
    assert (log + [t])[..|log|] == log;
  }

  predicate Final(op: Byte) { op == STOP || op == SUICIDE || op == RETURN || op == REVERT }

  /** How the last step ended the run, over the memory m. */
  ghost predicate EndsAs(s: Schedule, t: Toll, e: End, m: seq<Byte>) {
    match e
    case Running => false
    case Threw(fault) => FailsAs(s, t, fault)
    case Stopped(output) => t.op != REVERT && Closes(t, m, output)
    case Reverted(output) => t.op == REVERT && Closes(t, m, output)
  }

  predicate Closes(t: Toll, m: seq<Byte>, output: seq<Byte>) {
    && Final(t.op) && t.Whole() && |m| == t.Memory()
    && output == if t.op == RETURN || t.op == REVERT then Range(m, t.args[0], t.args[1]) else []
  }

  /** A step at a flat price that is there, with its operands and room for its result, goes on to the next instruction
      and takes that price. */
  lemma {:induction false} FlatGoesOn(s: Schedule, p: Prices, code: seq<Byte>, gas: nat, log: seq<Toll>, e: End,
    m: seq<Byte>, i: nat)
    requires i < |log| && Traced(s, p, code, gas, log, e.Threw?) && EndsAs(s, log[|log| - 1], e, m)
    requires !e.Running? && |s.tierStepGas| == 8 && p.copy(0) == 0
    requires Flat(log[i].op) && log[i].op != STOP && !(JUMP <= log[i].op <= JUMPI)
    requires log[i].room + Args(log[i].op) <= SLOTS && Ret(log[i].op) <= log[i].room + Args(log[i].op)
    ensures log[i].Whole()
    ensures OwnPrice(s, log[i].op, log[i].args) <= log[i].gas ==>
      && i + 1 < |log| && At(code, log[i + 1]) && log[i + 1].pc == log[i].pc + Length(log[i].op)
      && log[i + 1].gas == log[i].gas - OwnPrice(s, log[i].op, log[i].args) && log[i + 1].had == log[i].had
      && log[i + 1].room == log[i].room + Args(log[i].op) - Ret(log[i].op)
  {
    var t := log[i];
    assert Tier(t.op) < 8 && Simple(t.op) && !Final(t.op);
    if i < |log| - 1 {
      assert Settled(s, p, t) && Follows(p, log[i], log[i + 1]);
      assert Need(t.op, t.args) == 0;
      OwnIsDue(s, p, t.op, t.args, t.gas);
    }
  }

  function Spent(log: seq<Toll>): int {
    if log == [] then 0 else Spent(log[..|log| - 1]) + log[|log| - 1].own
  }

  lemma {:induction false} FollowsAt(s: Schedule, p: Prices, code: seq<Byte>, gas: nat, log: seq<Toll>, failed: bool,
                                     i: nat)
    requires Traced(s, p, code, gas, log, failed) && 0 < i < |log|
    ensures Follows(p, log[i - 1], log[i])
  {
  }
}
