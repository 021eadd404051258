/** A run of the interpreter with its gas counted out. */
module VMExample {
  import opened Basics
  import opened VMPrices
  import opened VMTrace
  import opened VM

  /** PUSH1 1, PUSH1 2, ADD, and the zeros behind: each of the three takes 3 of the gas. */
  method AddCosts() returns (e: End, left: nat)
    ensures e == Stopped([]) && left == 91
  {
    var user: seq<Byte> := [PUSH1, 1, PUSH1, 2, ADD];
    SchedulesAreFair();
    FairIsOrderly(Metropolis());
    var vm := new VM(Metropolis());
    ghost var log;
    e, left, log := vm.Exec(user, 100);
    CodeStarts(user, vm.code);
    Nine(vm.schedule, vm.prices, vm.code, log, e, vm.mem, left, vm.otherPaid);
  }

  lemma {:induction false} Nine(s: Schedule, p: Prices, code: seq<Byte>, log: seq<Toll>, e: End, m: seq<Byte>,
                                left: nat, other: int)
    requires s.tierStepGas == Tiers() && p.copy(0) == 0 && Sample(code) && s.quadCoeffDiv > 0
    requires Entered(s, p, code, log, e, m) && (!e.Threw? ==> other == Spent(log))
    requires 100 == left + MemGas(s, |m| / 32) + other
    ensures e == Stopped([]) && left == 91
  {
    ThreeSteps(s, p, code, log, e, m);
    SpentOfFour(log);
  }

  lemma {:induction false} ThreeSteps(s: Schedule, p: Prices, code: seq<Byte>, log: seq<Toll>, e: End, m: seq<Byte>)
    requires s.tierStepGas == Tiers() && p.copy(0) == 0
    requires Sample(code)
    requires Entered(s, p, code, log, e, m)
    ensures e == Stopped([]) && |log| == 4 && m == []
    ensures log[0].own == log[1].own == log[2].own == 3 && log[3].own == 0
  {
    TwoPushes(s, p, code, log, e, m);
    NextStep(s, p, code, log, e, m, 2);
    Stops(s, p, code, log, e, m);
  }

  lemma {:induction false} TwoPushes(s: Schedule, p: Prices, code: seq<Byte>, log: seq<Toll>, e: End, m: seq<Byte>)
    requires s.tierStepGas == Tiers() && p.copy(0) == 0
    requires Sample(code)
    requires Entered(s, p, code, log, e, m)
    ensures |log| > 2 && log[0].own == log[1].own == 3 && At(code, log[2])
    ensures log[2].pc == 4 && log[2].gas == 94 && log[2].room == 1022 && log[2].had == 0
  {
    FirstPush(s, p, code, log, e, m);
    NextStep(s, p, code, log, e, m, 1);
  }

  /** A small step at its place in the code. */
  lemma {:induction false} NextStep(s: Schedule, p: Prices, code: seq<Byte>, log: seq<Toll>, e: End, m: seq<Byte>,
                                    i: nat)
    requires s.tierStepGas == Tiers() && p.copy(0) == 0 && i < |log| && At(code, log[i])
    requires code[log[i].pc] == PUSH1 || code[log[i].pc] == ADD
    requires Entered(s, p, code, log, e, m)
    requires log[i].gas >= 3 && 0 < log[i].room && log[i].room + Args(code[log[i].pc]) <= SLOTS
    ensures i + 1 < |log| && log[i].own == 3 && log[i + 1].gas == log[i].gas - 3 && log[i + 1].had == log[i].had
    ensures log[i + 1].pc == log[i].pc + (if code[log[i].pc] == ADD then 1 else 2) && At(code, log[i + 1])
    ensures log[i + 1].room == log[i].room + if code[log[i].pc] == ADD then 1 else -1
  {
    SmallStep(s, p, code, log, e, m, i);
  }

  lemma {:induction false} FirstPush(s: Schedule, p: Prices, code: seq<Byte>, log: seq<Toll>, e: End, m: seq<Byte>)
    requires s.tierStepGas == Tiers() && p.copy(0) == 0 && |code| > 5 && code[0] == PUSH1
    requires Entered(s, p, code, log, e, m)
    ensures |log| > 1 && log[0].own == 3 && At(code, log[1])
    ensures log[1].pc == 2 && log[1].gas == 97 && log[1].room == 1023 && log[1].had == 0
  {
    assert At(code, log[0]) && Starting(log[0], 100);
    SmallStep(s, p, code, log, e, m, 0);
  }

  ghost predicate Entered(s: Schedule, p: Prices, code: seq<Byte>, log: seq<Toll>, e: End, m: seq<Byte>) {
    log != [] && Traced(s, p, code, 100, log, e.Threw?) && EndsAs(s, log[|log| - 1], e, m)
  }

  /** Where the instructions are. */
  predicate Sample(code: seq<Byte>) {
    |code| > 5 && code[0] == code[2] == PUSH1 && code[4] == ADD && code[5] == STOP
  }

  /** What the tiers cost in every schedule. */
  function Tiers(): seq<nat> {
    [0, 2, 3, 5, 8, 10, 20, 0]
  }

  lemma {:induction false} SpentOfFour(log: seq<Toll>)
    requires |log| == 4
    ensures Spent(log) == log[0].own + log[1].own + log[2].own + log[3].own
  {
    assert log[..3][..2] == log[..2] && log[..2][..1] == log[..1] && log[..1][..0] == [];
    assert Spent(log) == Spent(log[..3]) + log[3].own && Spent(log[..3]) == Spent(log[..2]) + log[2].own;
    assert Spent(log[..2]) == Spent(log[..1]) + log[1].own && Spent(log[..1]) == log[0].own;
  }

  lemma {:induction false} SmallStep(s: Schedule, p: Prices, code: seq<Byte>, log: seq<Toll>, e: End, m: seq<Byte>,
                                     i: nat)
    requires s.tierStepGas == Tiers() && p.copy(0) == 0 && i < |log| && (log[i].op == PUSH1 || log[i].op == ADD)
    requires Entered(s, p, code, log, e, m)
    requires log[i].gas >= 3 && 0 < log[i].room && log[i].room + Args(log[i].op) <= SLOTS
    ensures i + 1 < |log| && log[i].own == 3 && log[i + 1].gas == log[i].gas - 3 && log[i + 1].had == log[i].had
    ensures log[i + 1].pc == log[i].pc + (if log[i].op == ADD then 1 else 2) && At(code, log[i + 1])
    ensures log[i + 1].room == log[i].room + if log[i].op == ADD then 1 else -1
  {
    FlatGoesOn(s, p, code, 100, log, e, m, i);
    OwnIsDue(s, p, log[i].op, log[i].args, log[i].gas);
    assert Settled(s, p, log[i]);
  }

  lemma {:induction false} Stops(s: Schedule, p: Prices, code: seq<Byte>, log: seq<Toll>, e: End, m: seq<Byte>)
    requires s.tierStepGas == Tiers() && p.copy(0) == 0 && |log| > 3 && log[3].op == STOP && log[3].had == 0
    requires 0 <= log[3].gas && 0 <= log[3].room <= SLOTS
    requires Entered(s, p, code, log, e, m)
    ensures |log| == 4 && e == Stopped([]) && m == [] && log[3].own == 0
  {
    if |log| > 4 { FollowsAt(s, p, code, 100, log, e.Threw?, 4); }
    OwnIsDue(s, p, STOP, log[3].args, log[3].gas);
  }

  lemma CodeStarts(user: seq<Byte>, code: seq<Byte>)
    requires user == [PUSH1, 1, PUSH1, 2, ADD] && |code| > 5 && code[5] == STOP
    requires forall k | 0 <= k < 5 :: code[k] == if Synthetic(user[k]) && Starts(user, 0, k) then BAD else user[k]
    ensures Sample(code)
  {
  }
}
