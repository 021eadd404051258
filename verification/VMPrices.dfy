/** What instructions take, leave and cost: the tables and the price arithmetic of the interpreter. */
module VMPrices {
  import opened Basics

  type Word = w: int | 0 <= w < WORD

  /** Prices are 32 bits wide. */
  datatype Schedule = Schedule(
    tierStepGas: seq<nat>, memoryGas: nat, quadCoeffDiv: nat, copyGas: nat, expGas: nat, expByteGas: nat,
    sha3Gas: nat, sha3WordGas: nat, logGas: nat, logTopicGas: nat, logDataGas: nat, sloadGas: nat, sstoreSetGas: nat,
    sstoreResetGas: nat, createGas: nat, callGas: nat, callStipend: nat, callValueTransferGas: nat,
    callNewAccountGas: nat, extcodesizeGas: nat, extcodecopyGas: nat, balanceGas: nat, suicideGas: nat,
    eip150Mode: bool, eip158Mode: bool, haveDelegateCall: bool, haveRevert: bool)

  ghost predicate Narrow(s: Schedule) {
    && |s.tierStepGas| == 8 && (forall k | 0 <= k < 8 :: s.tierStepGas[k] < U32)
    && s.memoryGas < U32 && s.quadCoeffDiv < U32 && s.copyGas < U32 && s.expGas < U32 && s.expByteGas < U32
    && s.sha3Gas < U32 && s.sha3WordGas < U32 && s.logGas < U32 && s.logTopicGas < U32 && s.logDataGas < U32
    && s.sloadGas < U32 && s.sstoreSetGas < U32 && s.sstoreResetGas < U32 && s.createGas < U32 && s.callGas < U32
    && s.callStipend < U32 && s.callValueTransferGas < U32 && s.callNewAccountGas < U32 && s.extcodesizeGas < U32
    && s.extcodecopyGas < U32 && s.balanceGas < U32 && s.suicideGas < U32
  }

  /** What the metering relies on: a divisor, a small price for copying, and a stipend that the value charge covers. */
  ghost predicate Fair(s: Schedule) {
    Narrow(s) && s.quadCoeffDiv > 0 && s.copyGas < 0x4000 && s.callStipend <= s.callValueTransferGas
  }

  /** The schedule in force from metropolis on. */
  function Metropolis(): Schedule {
    Schedule([0, 2, 3, 5, 8, 10, 20, 0], 3, 512, 3, 10, 50, 30, 6, 375, 375, 8, 200, 20000, 5000, 32000, 700, 2300,
             9000, 25000, 700, 700, 400, 5000, true, true, true, true)
  }

  /** The schedule at the start. */
  function Frontier(): Schedule {
    Schedule([0, 2, 3, 5, 8, 10, 20, 0], 3, 512, 3, 10, 10, 30, 6, 375, 375, 8, 50, 20000, 5000, 32000, 40, 2300,
             9000, 25000, 20, 20, 20, 0, false, false, false, false)
  }

  lemma SchedulesAreFair()
    ensures Fair(Metropolis()) && Fair(Frontier())
  {
  }

  // ------------------------------------------------------------------- opcodes

  const STOP: Byte := 0x00
  const ADD: Byte := 0x01
  const SDIV: Byte := 0x05
  const EXP: Byte := 0x0a
  const SHA3: Byte := 0x20
  const BALANCE: Byte := 0x31
  const CALLDATACOPY: Byte := 0x37
  const CODECOPY: Byte := 0x39
  const EXTCODESIZE: Byte := 0x3b
  const EXTCODECOPY: Byte := 0x3c
  const POP: Byte := 0x50
  const MLOAD: Byte := 0x51
  const MSTORE: Byte := 0x52
  const MSTORE8: Byte := 0x53
  const SLOAD: Byte := 0x54
  const SSTORE: Byte := 0x55
  const JUMP: Byte := 0x56
  const JUMPI: Byte := 0x57
  const JUMPDEST: Byte := 0x5b
  const PUSH1: Byte := 0x60
  const PUSH32: Byte := 0x7f
  const DUP1: Byte := 0x80
  const SWAP1: Byte := 0x90
  const LOG0: Byte := 0xa0
  const PUSHC: Byte := 0xac
  const JUMPCI: Byte := 0xae
  const BAD: Byte := 0xaf
  const CREATE: Byte := 0xf0
  const CALL: Byte := 0xf1
  const CALLCODE: Byte := 0xf2
  const RETURN: Byte := 0xf3
  const DELEGATECALL: Byte := 0xf4
  const REVERT: Byte := 0xfd
  const SUICIDE: Byte := 0xff

  /** Instructions that only replace their operands by one result. */
  predicate Plain(op: Byte) {
    1 <= op <= 4 || 6 <= op <= 9 || op == 0x0b || 0x10 <= op <= 0x1a || op == 0x30 || 0x32 <= op <= 0x36 || op == 0x38
    || op == 0x3a || 0x40 <= op <= 0x45 || 0x58 <= op <= 0x5a
  }

  predicate Push(op: Byte) { PUSH1 <= op <= PUSH32 }

  predicate Dup(op: Byte) { DUP1 <= op < SWAP1 }

  predicate Swap(op: Byte) { SWAP1 <= op < LOG0 }

  predicate Log(op: Byte) { LOG0 <= op <= 0xa4 }

  predicate Synthetic(op: Byte) { PUSHC <= op <= JUMPCI }

  /** How many items an instruction needs on the stack. */
  function Args(op: Byte): (n: nat)
    ensures n <= 17
  {
    if op == 0 then 0
    else if op <= 7 || op == 0x0a || op == 0x0b then 2
    else if op == 8 || op == 9 then 3
    else if op == 0x15 || op == 0x19 then 1
    else if 0x10 <= op <= 0x1a || op == SHA3 then 2
    else if op == CALLDATACOPY || op == CODECOPY then 3
    else if op == EXTCODECOPY then 4
    else if op == BALANCE || op == 0x35 || op == EXTCODESIZE || op == 0x40 then 1
    else if op == 0x4b then 2
    else if 0x4a <= op <= 0x4f then 1
    else if op == POP || op == MLOAD || op == SLOAD || op == JUMP then 1
    else if op == MSTORE || op == MSTORE8 || op == SSTORE || op == JUMPI then 2
    else if Dup(op) then op - DUP1 + 1
    else if Swap(op) then op - SWAP1 + 2
    else if Log(op) then op - LOG0 + 2
    else if op == 0xad || op == JUMPCI then 1
    else if op == CREATE then 3
    else if op == CALL || op == CALLCODE then 7
    else if op == DELEGATECALL then 6
    else if op == RETURN || op == REVERT then 2
    else if op == SUICIDE then 1
    else 0
  }

  /** How many items it leaves in their place. */
  function Ret(op: Byte): (n: nat)
    ensures n <= 17
  {
    if Plain(op) || op == SDIV || op == EXP || op == SHA3 || op == BALANCE || op == EXTCODESIZE || op == MLOAD ||
      op == SLOAD
    then 1
    else if Push(op) || op == PUSHC || op == CREATE || op == CALL || op == CALLCODE || op == DELEGATECALL then 1
    else if Dup(op) then op - DUP1 + 2
    else if Swap(op) then op - SWAP1 + 2
    else 0
  }

  /** The price tier; 8 is the tier of what is no instruction. */
  function Tier(op: Byte): (t: nat)
    ensures t <= 8
  {
    if op == STOP || op == RETURN then 0
    else if op == 0x30 || 0x32 <= op <= 0x34 || op == 0x36 || op == 0x38 || op == 0x3a || 0x41 <= op <= 0x45 ||
      op == POP
            || 0x58 <= op <= 0x5a then 1
    else if op == 1 || op == 3 || 0x10 <= op <= 0x1a || op == 0x35 || op == CALLDATACOPY || op == CODECOPY || op == 0x4a
            || op == MLOAD || op == MSTORE || op == MSTORE8 || 0x60 <= op <= 0x9f || op == PUSHC then 2
    else if op == 2 || 4 <= op <= 7 || op == 0x0b || op == 0x4b || op == 0x4d then 3
    else if op == 8 || op == 9 || op == 0x4c || op == 0x4e || op == 0x4f || op == JUMP || op == 0xad then 4
    else if op == JUMPI || op == JUMPCI then 5
    else if op == 0x40 then 6
    else if op == EXP || op == SHA3 || op == BALANCE || op == EXTCODESIZE || op == EXTCODECOPY || op == SLOAD ||
      op == SSTORE
            || 0x5b <= op <= 0x5d || Log(op) || op == CREATE || op == CALL || op == CALLCODE || op == DELEGATECALL
            || op == REVERT || op == SUICIDE then 7
    else 8
  }

  /** The instructions there are. */
  predicate Listed(op: Byte) {
    || op <= 0x0b || 0x10 <= op <= 0x1a || op == SHA3 || 0x30 <= op <= EXTCODECOPY || 0x40 <= op <= 0x45
    || 0x4a <= op <= 0x5d || Push(op) || Dup(op) || Swap(op) || Log(op) || Synthetic(op)
    || CREATE <= op <= DELEGATECALL || op == REVERT || op == SUICIDE
  }

  /** The table of tier prices has an entry for the instructions there are, and for no other byte. */
  lemma TableReaches(s: Schedule, op: Byte)
    requires Narrow(s)
    ensures Tier(op) < |s.tierStepGas| <==> Listed(op)
  {
  }

  // ------------------------------------------------------------------ arithmetic

  function Add64(a: nat, b: nat): (r: nat)
    ensures r < U64 && (a + b < U64 ==> r == a + b)
  {
    (a + b) % U64
  }

  function Words(bytes: nat): nat {
    (bytes + 31) / 32
  }

  /** What a memory of so many words costs, before it is cut to 63 bits. */
  function MemGas(s: Schedule, words: nat): nat
    requires s.quadCoeffDiv > 0
  {
    s.memoryGas * words + words * words / s.quadCoeffDiv
  }

  /** How many bytes a number takes. */
  function ByteLength(w: nat): nat {
    if w == 0 then 0 else 1 + ByteLength(w / 256)
  }

  /** The two prices that depend on a size: that of a memory of so many words, and that of copying so many. */
  datatype Prices = Prices(mem: nat -> nat, copy: nat -> nat)

  function PricesOf(s: Schedule): Prices
    requires s.quadCoeffDiv > 0
  {
    Prices(words => MemGas(s, words), words => s.copyGas * words)
  }

  // ------------------------------------------------------------- what a step costs and reaches

  predicate Calls(op: Byte) { op == CALL || op == CALLCODE || op == DELEGATECALL }

  /** Instructions whose price follows from the schedule and the operands alone, and that use no memory: the price of
      their tier, or the one that is named for them. */
  predicate Flat(op: Byte) {
    Plain(op) || op == SDIV || op == EXP || op == BALANCE || op == EXTCODESIZE || op == SLOAD || op == POP || Push(op)
    || Dup(op) || Swap(op) || op == JUMP || op == JUMPI || op == JUMPDEST || op == STOP
  }

  /** What it costs to hash or to log n bytes. */
  function ReadingPrice(s: Schedule, op: Byte, n: nat): nat
    requires op == SHA3 || Log(op)
  {
    if op == SHA3 then s.sha3Gas + Words(n) * s.sha3WordGas
    else (s.logGas + s.logTopicGas * (op - LOG0)) % U32 + s.logDataGas * n
  }

  function OwnPrice(s: Schedule, op: Byte, a: seq<Word>): nat
    requires |a| == Args(op) && Tier(op) < |s.tierStepGas|
  {
    if op == EXP then (s.expGas + s.expByteGas * ByteLength(a[1])) % U32
    else if op == BALANCE then s.balanceGas
    else if op == EXTCODESIZE then s.extcodesizeGas
    else if op == SLOAD then s.sloadGas
    else if op == JUMPDEST then 1
    else if op == SHA3 || Log(op) then ReadingPrice(s, op, a[1])
    else if op == EXTCODECOPY then s.extcodecopyGas
    else s.tierStepGas[Tier(op)]
  }

  /** How many bytes a step copies at a price. */
  function CopySize(op: Byte, a: seq<Word>): nat
    requires |a| == Args(op)
  {
    if op == CALLDATACOPY || op == CODECOPY then a[2] else if op == EXTCODECOPY then a[3] else 0
  }

  /** What a call costs before the gas it is given; `fresh_` says that the account is new. */
  function FixedPrice(s: Schedule, value: bool, fresh_: bool): nat {
    s.callGas + (if fresh_ then s.callNewAccountGas else 0) + if value then s.callValueTransferGas else 0
  }

  /** The gas a call is given when so much is asked for and so much is there: from EIP 150 on a 64th is kept back. */
  function Give(s: Schedule, asked: nat, have: nat): nat {
    if s.eip150Mode && asked > have - have / 64 then have - have / 64 else asked
  }

  /** What comes with a value, on top. */
  function Stipend(s: Schedule, value: bool): nat {
    if value then s.callStipend else 0
  }

  predicate WithValue(op: Byte, a: seq<Word>)
    requires Calls(op) && |a| == Args(op)
  {
    op != DELEGATECALL && a[2] > 0
  }

  /** What a call takes: the fixed price, and of the gas it is given what does not come back. */
  ghost predicate CallDue(s: Schedule, op: Byte, a: seq<Word>, gas: int, own: int, fresh_: bool)
    requires Calls(op) && |a| == Args(op)
  {
    var value := WithValue(op, a);
    var price := FixedPrice(s, value, fresh_);
    && (fresh_ ==> op == CALL && (value || !s.eip158Mode))
    && price <= gas
    && var give := Give(s, a[0], gas - price);
       give <= gas - price && price - Stipend(s, value) <= own <= price + give
  }

  lemma CallIsDue(s: Schedule, op: Byte, a: seq<Word>, gas: int, own: int, fresh_: bool, give: nat)
    requires Calls(op) && |a| == Args(op) && (fresh_ ==> op == CALL && (WithValue(op, a) || !s.eip158Mode))
    requires var price := FixedPrice(s, WithValue(op, a), fresh_);
      && price + give <= gas && give == Give(s, a[0], gas - price)
      && price - Stipend(s, WithValue(op, a)) <= own <= price + give
    ensures CallDue(s, op, a, gas, own, fresh_)
  {
  }

  /** What a step that is completed takes besides the growth of memory, out of `gas`. What a creation or a call uses is
      left open, and whether an account is new or a slot is empty. */
  ghost predicate Due(s: Schedule, p: Prices, op: Byte, a: seq<Word>, gas: int, own: int)
    requires |a| == Args(op) && Tier(op) < |s.tierStepGas|
  {
    if op == CREATE then
      s.createGas <= own <= gas && (s.eip150Mode ==> own <= gas - (gas - s.createGas) / 64)
    else if Calls(op) then CallDue(s, op, a, gas, own, false) || CallDue(s, op, a, gas, own, true)
    else if op == SUICIDE then own == s.suicideGas || (s.eip150Mode && own == s.suicideGas + s.callNewAccountGas)
    else if op == SSTORE then own == s.sstoreResetGas || (a[1] != 0 && own == s.sstoreSetGas)
    else own == OwnPrice(s, op, a) + p.copy(Words(CopySize(op, a)))
  }

  predicate Copies(op: Byte) { op == CALLDATACOPY || op == CODECOPY || op == EXTCODECOPY }

  /** Which operand of a copy says where to; the size comes two later. */
  function CopyAt(op: Byte): nat {
    if op == EXTCODECOPY then 1 else 0
  }

  /** Instructions that take their own price and nothing else. */
  predicate Simple(op: Byte) {
    op != CREATE && !Calls(op) && op != SUICIDE && op != SSTORE && !Copies(op)
  }

  lemma OwnIsDue(s: Schedule, p: Prices, op: Byte, a: seq<Word>, gas: int)
    requires Simple(op) && |a| == Args(op) && Tier(op) < |s.tierStepGas| && p.copy(0) == 0
    ensures Due(s, p, op, a, gas, OwnPrice(s, op, a))
  {
  }

  lemma CopyIsDue(s: Schedule, p: Prices, op: Byte, a: seq<Word>, gas: int)
    requires Copies(op) && |a| == Args(op) && Tier(op) < |s.tierStepGas|
    ensures var own := if op == EXTCODECOPY then s.extcodecopyGas else s.tierStepGas[Tier(op)];
      Due(s, p, op, a, gas, own + p.copy(Words(a[CopyAt(op) + 2])))
    ensures Need(op, a) == Reach(a[CopyAt(op)], a[CopyAt(op) + 2]) && !Flat(op) && Tier(op) < 8
  {
  }

  lemma NotFlat(op: Byte)
    requires Calls(op)
    ensures !Flat(op) && !Swap(op)
  {
  }

  lemma CallReaches(s: Schedule, p: Prices, op: Byte, a: seq<Word>, gas: int, own: int, fresh_: bool)
    requires Calls(op) && |a| == Args(op) && Tier(op) < |s.tierStepGas|
    ensures CallDue(s, op, a, gas, own, fresh_) ==> Due(s, p, op, a, gas, own)
    ensures var at := if op == DELEGATECALL then 2 else 3;
      Need(op, a) == Further(Reach(a[at], a[at + 1]), Reach(a[at + 2], a[at + 3]))
    ensures !Flat(op) && Tier(op) < 8 && |a| >= 6
  {
  }

  /** Where a range ends; an empty one reaches nowhere. */
  function Reach(offset: nat, size: nat): nat {
    if size == 0 then 0 else offset + size
  }

  /** How far into memory a step reaches. */
  function Need(op: Byte, a: seq<Word>): nat
    requires |a| == Args(op)
  {
    if op == MLOAD || op == MSTORE then a[0] + 32
    else if op == MSTORE8 then a[0] + 1
    else if op == SHA3 || Log(op) || op == RETURN || op == REVERT then Reach(a[0], a[1])
    else if op == CALLDATACOPY || op == CODECOPY then Reach(a[0], a[2])
    else if op == EXTCODECOPY then Reach(a[1], a[3])
    else if op == CREATE then Reach(a[1], a[2])
    else if op == DELEGATECALL then Further(Reach(a[2], a[3]), Reach(a[4], a[5]))
    else if Calls(op) then Further(Reach(a[3], a[4]), Reach(a[5], a[6]))
    else 0
  }

  function Further(x: nat, y: nat): nat {
    if x > y then x else y
  }

  lemma RangeReaches(op: Byte, a: seq<Word>)
    requires |a| == Args(op) && (op == SHA3 || Log(op) || op == RETURN || op == REVERT)
    ensures |a| >= 2 && Need(op, a) == Reach(a[0], a[1]) && !Flat(op) && Simple(op) && !Swap(op) && Tier(op) < 8
  {
  }

  lemma ReadIsOwn(s: Schedule, op: Byte, a: seq<Word>)
    requires |a| == Args(op) && (op == SHA3 || Log(op)) && Tier(op) < |s.tierStepGas|
    ensures OwnPrice(s, op, a) == ReadingPrice(s, op, a[1])
  {
  }

  lemma WordReaches(op: Byte, a: seq<Word>)
    requires |a| == Args(op) && MLOAD <= op <= MSTORE8
    ensures |a| > 0 && Need(op, a) == a[0] as int + if op == MSTORE8 then 1 else 32
    ensures !Flat(op) && Simple(op) && Tier(op) < 8
  {
  }

  /** A memory of `had` bytes that has to reach to `need`, in whole words. */
  function Grown(had: nat, need: nat): nat {
    if 32 * Words(need) > had then 32 * Words(need) else had
  }

  /** More memory is dearer, 63 bits do not pay for 2^48 words, and copying that much stays below 2^62. */
  ghost predicate Orderly(p: Prices) {
    && (forall a: nat, b: nat | a <= b :: p.mem(a) <= p.mem(b))
    && (forall w: nat | p.mem(w) <= MAX63 :: w < 0x1_0000_0000_0000)
    && p.mem(0) == p.copy(0) == 0
    && forall w: nat | w < 0x1_0000_0000_0000 :: p.copy(w) < 0x4000_0000_0000_0000
  }

  lemma FairIsOrderly(s: Schedule)
    requires Fair(s)
    ensures Orderly(PricesOf(s))
  {
    var p := PricesOf(s);
    forall a: nat, b: nat | a <= b ensures p.mem(a) <= p.mem(b) { MemGasGrows(s, a, b); }
    forall w: nat | p.mem(w) <= MAX63 ensures w < 0x1_0000_0000_0000 { MemBound(s, w); }
    forall w: nat | w < 0x1_0000_0000_0000 ensures p.copy(w) < 0x4000_0000_0000_0000 { Times(w, s.copyGas, 0x3fff); }
  }

  lemma MemGasGrows(s: Schedule, a: nat, b: nat)
    requires s.quadCoeffDiv > 0 && a <= b
    ensures MemGas(s, a) <= MemGas(s, b)
  {
    Times(s.memoryGas, a, b);
    Times(a, a, b);
    Times(b, a, b);
    DivGrows(a * a, b * b, s.quadCoeffDiv);
  }

  lemma Times(k: nat, a: nat, b: nat)
    requires a <= b
    ensures k * a <= k * b && a * k <= b * k
  {
  }

  lemma DivGrows(x: nat, y: nat, q: nat)
    requires x <= y && q > 0
    ensures x / q <= y / q
  {
    DivAtLeast(y, q, x / q);
  }

  lemma DivAtLeast(y: nat, q: nat, a: nat)
    requires q > 0 && q * a <= y
    ensures a <= y / q
  {
    var d, m := y / q, y % q;
    if d + 1 <= a {
      Times(q, d + 1, a);
    }
    assert y == q * d + m && q * (d + 1) == q * d + q;
  }

  /** A memory that can be paid for with 63 bits has fewer than 2^48 words. */
  lemma MemBound(s: Schedule, words: nat)
    requires 0 < s.quadCoeffDiv < U32 && MemGas(s, words) <= MAX63
    ensures words < 0x1_0000_0000_0000
  {
    var q, n := s.quadCoeffDiv, words * words;
    Times(s.memoryGas, 0, words);
    NotBig(q, n, n / q, n % q);
    if words >= 0x1_0000_0000_0000 {
      BigSquare(words);
      assert false;
    }
  }

  lemma NotBig(q: nat, n: nat, d: nat, m: nat)
    requires n == q * d + m && m < q < U32 && d <= MAX63
    ensures n < 0x1_0000_0000_0000_0000_0000_0000
  {
    Times(q, d, MAX63);
  }

  lemma BigSquare(w: nat)
    requires w >= 0x1_0000_0000_0000
    ensures w * w >= 0x1_0000_0000_0000_0000_0000_0000
  {
    Times(w, 0x1_0000_0000_0000, w);
  }
}
