/** The instruction table, row by row: what each instruction takes from the stack, leaves there, and costs. */
module VMTable {
  import opened Basics
  import opened VMPrices

  /** Zero: STOP, RETURN. Base: ADDRESS, ORIGIN, CALLER, CALLVALUE, CALLDATASIZE, CODESIZE, GASPRICE, COINBASE to
      GASLIMIT, POP, PC, MSIZE, GAS. Very low: ADD, SUB, the comparisons and the bit operations, CALLDATALOAD,
      CALLDATACOPY, CODECOPY, JUMPTO, MLOAD, MSTORE, MSTORE8, PUSH, DUP, SWAP, PUSHC. */
  lemma CheapTiers(op: Byte)
    ensures Tier(op) == 0 <==> op in [0x00, 0xf3]
    ensures Tier(op) == 1 <==>
      op in [0x30, 0x32, 0x33, 0x34, 0x36, 0x38, 0x3a, 0x41, 0x42, 0x43, 0x44, 0x45, 0x50, 0x58, 0x59, 0x5a]
    ensures Tier(op) == 2 <==>
      || op in [0x01, 0x03, 0x10, 0x11, 0x12, 0x13, 0x14, 0x15, 0x16, 0x17, 0x18, 0x19, 0x1a]
      || op in [0x35, 0x37, 0x39, 0x4a, 0x51, 0x52, 0x53, 0xac] || 0x60 <= op <= 0x9f
  {
  }

  /** Low: MUL, DIV, SDIV, MOD, SMOD, SIGNEXTEND, JUMPIF, JUMPSUB. Mid: ADDMOD, MULMOD, JUMPV, JUMPSUBV, RETURNSUB,
      JUMP, JUMPC. High: JUMPI, JUMPCI. Extended: BLOCKHASH. Special: EXP, SHA3, BALANCE, EXTCODESIZE, EXTCODECOPY,
      SLOAD, SSTORE, JUMPDEST, BEGINSUB, BEGINDATA, LOG, CREATE, CALL, CALLCODE, DELEGATECALL, REVERT, SUICIDE. */
  lemma DearTiers(op: Byte)
    ensures Tier(op) == 3 <==> op in [0x02, 0x04, 0x05, 0x06, 0x07, 0x0b, 0x4b, 0x4d]
    ensures Tier(op) == 4 <==> op in [0x08, 0x09, 0x4c, 0x4e, 0x4f, 0x56, 0xad]
    ensures Tier(op) == 5 <==> op in [0x57, 0xae]
    ensures Tier(op) == 6 <==> op == 0x40
    ensures Tier(op) == 7 <==>
      || op in [0x0a, 0x20, 0x31, 0x3b, 0x3c, 0x54, 0x55, 0x5b, 0x5c, 0x5d]
      || op in [0xa0, 0xa1, 0xa2, 0xa3, 0xa4, 0xf0, 0xf1, 0xf2, 0xf4, 0xfd, 0xff]
  {
  }

  predicate Row(op: Byte, args: nat, ret: nat) {
    Args(op) == args && Ret(op) == ret
  }

  /** Arithmetic, comparison and the environment: operands and one result. */
  lemma Results(op: Byte)
    ensures op in [0x01, 0x02, 0x03, 0x04, 0x05, 0x06, 0x07, 0x0a, 0x0b] ==> Row(op, 2, 1)
    ensures op in [0x08, 0x09] ==> Row(op, 3, 1)
    ensures op in [0x10, 0x11, 0x12, 0x13, 0x14, 0x16, 0x17, 0x18, 0x1a, 0x20] ==> Row(op, 2, 1)
    ensures op in [0x15, 0x19, 0x31, 0x35, 0x3b, 0x40, 0x51, 0x54] ==> Row(op, 1, 1)
    ensures op in [0x30, 0x32, 0x33, 0x34, 0x36, 0x38, 0x3a, 0x41, 0x42, 0x43, 0x44, 0x45, 0x58, 0x59, 0x5a] ==>
      Row(op, 0, 1)
  {
  }

  /** The stack itself, memory, storage, jumps and logs. */
  lemma Moves(op: Byte)
    ensures op in [0x00, 0x5b, 0x5c, 0x5d] ==> Row(op, 0, 0)
    ensures op in [0x50, 0x56] ==> Row(op, 1, 0)
    ensures op in [0x52, 0x53, 0x55, 0x57] ==> Row(op, 2, 0)
    ensures op in [0x37, 0x39] ==> Row(op, 3, 0)
    ensures op == 0x3c ==> Row(op, 4, 0)
    ensures 0x60 <= op <= 0x7f ==> Row(op, 0, 1)
    ensures 0x80 <= op <= 0x8f ==> Row(op, op - 0x7f, op - 0x7e)
    ensures 0x90 <= op <= 0x9f ==> Row(op, op - 0x8e, op - 0x8e)
    ensures 0xa0 <= op <= 0xa4 ==> Row(op, op - 0x9e, 0)
  {
  }

  /** What ends a run or leaves it, and what is no instruction. */
  lemma Leaves(op: Byte)
    ensures op == 0xf0 ==> Row(op, 3, 1)
    ensures op in [0xf1, 0xf2] ==> Row(op, 7, 1)
    ensures op in [0xf3, 0xfd] ==> Row(op, 2, 0)
    ensures op == 0xf4 ==> Row(op, 6, 1)
    ensures op == 0xff ==> Row(op, 1, 0)
    ensures !Listed(op) ==> Row(op, 0, 0) && Tier(op) == 8
  {
  }
}
