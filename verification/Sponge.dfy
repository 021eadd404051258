/** The sponge construction of section 4 of FIPS 202 over any permutation of 200 bytes. */
module Sponge {
  import opened Basics

  const PLEN: nat := 200

  /** Exclusive or of the last n bits. */
  function XorBits(a: nat, b: nat, n: nat): nat {
    if n == 0 then 0 else 2 * XorBits(a / 2, b / 2, n - 1) + (a + b) % 2
  }

  lemma {:induction false} XorIsSmall(a: nat, b: nat, n: nat)
    ensures XorBits(a, b, n) < Pow2(n)
  {
    if n > 0 { XorIsSmall(a / 2, b / 2, n - 1); }
  }

  function Pow2(n: nat): nat {
    if n == 0 then 1 else 2 * Pow2(n - 1)
  }

  function Xor(a: Byte, b: Byte): Byte {
    XorIsSmall(a, b, 8);
    assert Pow2(8) == 256;
    XorBits(a, b, 8)
  }

  lemma {:induction false} XorZeroBits(a: nat, n: nat)
    requires a < Pow2(n)
    ensures XorBits(a, 0, n) == a
  {
    if n > 0 { XorZeroBits(a / 2, n - 1); }
  }

  lemma {:induction false} XorBitsAssociates(a: nat, b: nat, c: nat, n: nat)
    ensures XorBits(XorBits(a, b, n), c, n) == XorBits(a, XorBits(b, c, n), n)
  {
    if n > 0 {
      XorBitsAssociates(a / 2, b / 2, c / 2, n - 1);
      LastBit(a, b, n);
      LastBit(b, c, n);
      AssociateLast(a, b, c, XorBits(a, b, n), XorBits(b, c, n), n);
    }
  }

  lemma {:induction false} AssociateLast(a: nat, b: nat, c: nat, x: nat, y: nat, n: nat)
    requires n > 0 && x % 2 == (a % 2 + b % 2) % 2 && y % 2 == (b % 2 + c % 2) % 2
    requires XorBits(x / 2, c / 2, n - 1) == XorBits(a / 2, y / 2, n - 1)
    ensures XorBits(x, c, n) == XorBits(a, y, n)
  {
    LastBit(x, c, n);
    LastBit(a, y, n);
    Halves(XorBits(x, c, n), XorBits(a, y, n), a % 2, b % 2, c % 2);
  }

  lemma Halves(x: nat, y: nat, a: nat, b: nat, c: nat)
    requires a < 2 && b < 2 && c < 2 && x / 2 == y / 2
    requires x % 2 == ((a + b) % 2 + c) % 2 && y % 2 == (a + (b + c) % 2) % 2
    ensures x == y
  {
  }

  lemma {:induction false} LastBit(a: nat, b: nat, n: nat)
    requires n > 0
    ensures XorBits(a, b, n) / 2 == XorBits(a / 2, b / 2, n - 1) && XorBits(a, b, n) % 2 == (a % 2 + b % 2) % 2
  {
  }

  lemma XorZero(b: Byte)
    ensures Xor(b, 0) == b
  {
    assert Pow2(8) == 256;
    XorZeroBits(b, 8);
  }

  lemma XorAssociates(b: Byte, d: Byte, e: Byte)
    ensures Xor(Xor(b, d), e) == Xor(b, Xor(d, e))
  {
    XorBitsAssociates(b, d, e, 8);
  }

  ghost predicate Permutation(p: seq<Byte> -> seq<Byte>) {
    forall s: seq<Byte> | |s| == PLEN :: |p(s)| == PLEN
  }

  // ---------------------------------------------------------------- what it computes

  /** s with b laid over its beginning by exclusive or. */
  function Xored(s: seq<Byte>, b: seq<Byte>): (r: seq<Byte>)
    requires |b| <= |s|
    ensures |r| == |s|
  {
    seq(|s|, i requires 0 <= i < |s| => if i < |b| then Xor(s[i], b[i]) else s[i])
  }

  /** What the pad adds to a message that ends r bytes into a block. */
  function Pad(r: nat, rate: nat, delim: Byte): (p: seq<Byte>)
    requires r < rate
    ensures |p| == rate - r
  {
    seq<Byte>(rate - r, k requires 0 <= k < rate - r => Xor(If(k == 0, delim), If(k == rate - r - 1, 0x80)))
  }

  function Padded(m: seq<Byte>, rate: nat, delim: Byte): (r: seq<Byte>)
    requires rate > 0
  {
    m + Pad(|m| % rate, rate, delim)
  }

  ghost function Absorbed(p: seq<Byte> -> seq<Byte>, s: seq<Byte>, m: seq<Byte>, rate: nat): (r: seq<Byte>)
    requires Permutation(p) && |s| == PLEN && 0 < rate < PLEN
    ensures |r| == PLEN
    decreases |m|
  {
    if |m| < rate then s else Absorbed(p, p(Xored(s, m[..rate])), m[rate..], rate)
  }

  ghost function Squeezed(p: seq<Byte> -> seq<Byte>, s: seq<Byte>, n: nat, rate: nat): (r: seq<Byte>)
    requires Permutation(p) && |s| == PLEN && 0 < rate < PLEN
    ensures |r| == n
    decreases n
  {
    if n < rate then s[..n] else s[..rate] + Squeezed(p, p(s), n - rate, rate)
  }

  ghost function Hashed(p: seq<Byte> -> seq<Byte>, m: seq<Byte>, rate: nat, delim: Byte, n: nat): (r: seq<Byte>)
    requires Permutation(p) && 0 < rate < PLEN
    ensures |r| == n
  {
    Squeezed(p, Absorbed(p, Zeros(), Padded(m, rate, delim), rate), n, rate)
  }

  function Zeros(): (z: seq<Byte>)
    ensures |z| == PLEN
  {
    seq(PLEN, _ => 0)
  }

  // ------------------------------------------------------------------- the loops

  method XorIn(dst: array<Byte>, src: seq<Byte>, from: nat, len: nat)
    requires from + len <= |src| && len <= dst.Length
    modifies dst
    ensures dst[..] == Xored(old(dst[..]), src[from..from + len])
  {
    for i := 0 to len
      invariant forall k | 0 <= k < dst.Length ::
        dst[k] == if k < i then Xor(old(dst[k]), src[from + k]) else old(dst[k])
    {
      dst[i] := Xor(dst[i], src[from + i]);
    }
  }

  method SetOut(src: array<Byte>, dst: array<Byte>, from: nat, len: nat)
    requires len <= src.Length && from + len <= dst.Length && src != dst
    modifies dst
    ensures dst[..] == old(dst[..from]) + src[..len] + old(dst[from + len..])
  {
    for i := 0 to len
      invariant forall k | 0 <= k < dst.Length :: dst[k] == if from <= k < from + i then src[k - from] else old(dst[k])
    {
      dst[from + i] := src[i];
    }
  }

  method Permute(a: array<Byte>, p: seq<Byte> -> seq<Byte>)
    requires Permutation(p) && a.Length == PLEN
    modifies a
    ensures a[..] == p(old(a[..]))
  {
    var s := p(a[..]);
    forall i | 0 <= i < PLEN { a[i] := s[i]; }
  }

  /** Fold the full blocks of the input into the state; `from` is where the rest begins. */
  method AbsorbBlocks(a: array<Byte>, p: seq<Byte> -> seq<Byte>, m: seq<Byte>, rate: nat) returns (from: nat)
    requires Permutation(p) && a.Length == PLEN && 0 < rate < PLEN
    modifies a
    ensures from <= |m| && |m| - from == |m| % rate
    ensures forall tail: seq<Byte> ::
      Absorbed(p, old(a[..]), m + tail, rate) == Absorbed(p, a[..], m[from..] + tail, rate)
  {
    from := 0;
    var inlen := |m|;
    assert m[0..] == m;
    while inlen >= rate
      invariant 0 <= inlen && from + inlen == |m| && inlen % rate == |m| % rate
      invariant forall tail: seq<Byte> ::
        Absorbed(p, old(a[..]), m + tail, rate) == Absorbed(p, a[..], m[from..] + tail, rate)
    {
      ghost var s := a[..];
      XorIn(a, m, from, rate);
      Permute(a, p);
      forall tail: seq<Byte> ensures Absorbed(p, s, m[from..] + tail, rate) ==
        Absorbed(p, a[..], m[from + rate..] + tail, rate) {
        OneBlock(p, s, m, from, tail, rate);
      }
      OneLess(inlen, rate);
      from := from + rate;
      inlen := inlen - rate;
    }
    Small(inlen, rate);
  }

  lemma OneBlock(p: seq<Byte> -> seq<Byte>, s: seq<Byte>, m: seq<Byte>, from: nat, tail: seq<Byte>, rate: nat)
    requires Permutation(p) && |s| == PLEN && 0 < rate < PLEN && from + rate <= |m|
    ensures Absorbed(p, s, m[from..] + tail, rate) ==
      Absorbed(p, p(Xored(s, m[from..from + rate])), m[from + rate..] + tail, rate)
  {
    var rest := m[from..] + tail;
    assert rest[..rate] == m[from..from + rate] && rest[rate..] == m[from + rate..] + tail;
  }

  lemma OneLess(n: nat, rate: nat)
    requires 0 < rate <= n
    ensures (n - rate) % rate == n % rate
  {
    var q, r := (n - rate) / rate, (n - rate) % rate;
    assert n == rate * q + rate + r;
    Unique(n, rate, q + 1, r);
  }

  lemma Unique(n: nat, rate: nat, q: nat, r: nat)
    requires 0 < rate && r < rate && n == rate * q + r
    ensures n % rate == r
  {
    var d := n / rate;
    assert n == rate * d + n % rate;
    if d < q { Times(rate, d + 1, q); } else if d > q { Times(rate, q + 1, d); }
  }

  lemma Times(k: nat, a: nat, b: nat)
    requires a <= b
    ensures k * a <= k * b
  {
  }

  lemma Small(n: nat, rate: nat)
    requires n < rate
    ensures n % rate == n
  {
  }

  /** The last block: the two pad bytes, which may be one and the same, and what is left of the input. */
  method AbsorbLast(a: array<Byte>, p: seq<Byte> -> seq<Byte>, m: seq<Byte>, from: nat, rate: nat, delim: Byte)
    requires Permutation(p) && a.Length == PLEN && 0 < rate < PLEN && from <= |m| && |m| - from < rate
    modifies a
    ensures a[..] == Absorbed(p, old(a[..]), m[from..] + Pad(|m| - from, rate, delim), rate)
  {
    ghost var s := a[..];
    var inlen := |m| - from;
    PadBytes(a, inlen, rate, delim);
    XorIn(a, m, from, inlen);
    assert m[from..from + inlen] == m[from..];
    PadIsXored(s, m[from..], rate, delim);
    Permute(a, p);
    LastBlock(p, s, m[from..] + Pad(inlen, rate, delim), rate);
  }

  method PadBytes(a: array<Byte>, inlen: nat, rate: nat, delim: Byte)
    requires inlen < rate <= a.Length
    modifies a
    ensures a[..] == Delimited(old(a[..]), inlen, rate, delim)
  {
    TwoPadBytes(a[..], inlen, rate, delim);
    ghost var first := a[..][inlen := Xor(a[inlen], delim)];
    a[inlen] := Xor(a[inlen], delim);
    assert a[..] == first;
    a[rate - 1] := Xor(a[rate - 1], 0x80);
  }

  lemma LastBlock(p: seq<Byte> -> seq<Byte>, s: seq<Byte>, last: seq<Byte>, rate: nat)
    requires Permutation(p) && |s| == PLEN && 0 < rate < PLEN && |last| == rate
    ensures Absorbed(p, s, last, rate) == p(Xored(s, last))
  {
    assert last[..rate] == last && last[rate..] == [];
  }

  function If(c: bool, b: Byte): Byte {
    if c then b else 0
  }

  /** s with the two pad bytes in it. */
  function Delimited(s: seq<Byte>, r: nat, rate: nat, delim: Byte): (t: seq<Byte>)
    requires r < rate <= |s|
    ensures |t| == |s|
  {
    seq(|s|, k requires 0 <= k < |s| => Xor(Xor(s[k], If(k == r, delim)), If(k == rate - 1, 0x80)))
  }

  lemma TwoPadBytes(s: seq<Byte>, r: nat, rate: nat, delim: Byte)
    requires r < rate <= |s|
    ensures var first := s[r := Xor(s[r], delim)];
      first[rate - 1 := Xor(first[rate - 1], 0x80)] == Delimited(s, r, rate, delim)
  {
    var first := s[r := Xor(s[r], delim)];
    var t := first[rate - 1 := Xor(first[rate - 1], 0x80)];
    forall k | 0 <= k < |s| ensures t[k] == Delimited(s, r, rate, delim)[k] {
      XorZero(s[k]);
      XorZero(Xor(s[k], delim));
    }
  }

  lemma PadIsXored(s: seq<Byte>, tail: seq<Byte>, rate: nat, delim: Byte)
    requires |tail| < rate <= |s|
    ensures Xored(Delimited(s, |tail|, rate, delim), tail) == Xored(s, tail + Pad(|tail|, rate, delim))
  {
    var t, u := Xored(Delimited(s, |tail|, rate, delim), tail), Xored(s, tail + Pad(|tail|, rate, delim));
    forall k | 0 <= k < |s| ensures t[k] == u[k] { PadAt(s, tail, rate, delim, k); }
  }

  lemma PadAt(s: seq<Byte>, tail: seq<Byte>, rate: nat, delim: Byte, k: nat)
    requires |tail| < rate <= |s| && k < |s|
    ensures Xored(Delimited(s, |tail|, rate, delim), tail)[k] == Xored(s, tail + Pad(|tail|, rate, delim))[k]
  {
    var r, pad := |tail|, Pad(|tail|, rate, delim);
    if k < r {
      assert (tail + pad)[k] == tail[k];
      XorZero(s[k]);
    } else if k < rate {
      assert (tail + pad)[k] == pad[k - r];
      XorAssociates(s[k], If(k == r, delim), If(k == rate - 1, 0x80));
    } else {
      XorZero(s[k]);
    }
  }

  method Squeeze(a: array<Byte>, p: seq<Byte> -> seq<Byte>, out: array<Byte>, outlen: nat, rate: nat)
    requires Permutation(p) && a.Length == PLEN && 0 < rate < PLEN && outlen <= out.Length && a != out
    modifies a, out
    ensures out[..] == Squeezed(p, old(a[..]), outlen, rate) + old(out[outlen..])
  {
    ghost var all := Squeezed(p, a[..], outlen, rate);
    var at, todo := SqueezeBlocks(a, p, out, outlen, rate);
    ghost var done := out[..at];
    SetOut(a, out, at, outlen - at);
    assert out[..] == done + todo + old(out[outlen..]) by { assert todo == a[..outlen - at]; }
  }

  /** All the blocks of the output that are whole. */
  method SqueezeBlocks(a: array<Byte>, p: seq<Byte> -> seq<Byte>, out: array<Byte>, outlen: nat, rate: nat)
    returns (at: nat, ghost todo: seq<Byte>)
    requires Permutation(p) && a.Length == PLEN && 0 < rate < PLEN && outlen <= out.Length && a != out
    modifies a, out
    ensures at <= outlen && outlen - at < rate && todo == a[..outlen - at]
    ensures Squeezed(p, old(a[..]), outlen, rate) == out[..at] + todo && out[at..] == old(out[at..])
  {
    ghost var all := Squeezed(p, a[..], outlen, rate);
    at, todo := 0, all;
    var left := outlen;
    while left >= rate
      invariant 0 <= left && at + left == outlen && out[at..] == old(out[at..])
      invariant all == out[..at] + todo && todo == Squeezed(p, a[..], left, rate)
    {
      ghost var done, before := out[..at], todo;
      ghost var block;
      block, todo := SqueezeBlock(a, p, out, at, left, rate);
      Regroup(done, block, todo, before);
      at := at + rate;
      left := left - rate;
    }
  }

  lemma Regroup(done: seq<Byte>, more: seq<Byte>, todo: seq<Byte>, before: seq<Byte>)
    requires before == more + todo
    ensures done + before == (done + more) + todo
  {
  }

  method SqueezeBlock(a: array<Byte>, p: seq<Byte> -> seq<Byte>, out: array<Byte>, at: nat, left: nat, rate: nat)
    returns (ghost block: seq<Byte>, ghost rest: seq<Byte>)
    requires Permutation(p) && a.Length == PLEN && 0 < rate < PLEN && rate <= left && at + left <= out.Length &&
      a != out
    modifies a, out
    ensures Squeezed(p, old(a[..]), left, rate) == block + rest && rest == Squeezed(p, a[..], left - rate, rate)
    ensures out[..at + rate] == old(out[..at]) + block && out[at + rate..] == old(out[at + rate..])
  {
    block := a[..rate];
    SetOut(a, out, at, rate);
    assert out[..at + rate] == old(out[..at]) + block;
    Permute(a, p);
    rest := Squeezed(p, a[..], left - rate, rate);
  }

  /** -1 for a missing buffer or a rate that leaves no capacity; else 0 and the first bytes of the sponge's output. */
  method Hash(out: array?<Byte>, outlen: nat, in_: array?<Byte>, inlen: nat, rate: nat, delim: Byte,
    p: seq<Byte> -> seq<Byte>)
    returns (r: int)
    requires Permutation(p) && rate > 0 && (out != null ==> outlen <= out.Length) &&
      (in_ != null ==> inlen <= in_.Length)
    modifies if out == null then {} else {out}
    ensures r == if out == null || (in_ == null && inlen != 0) || rate >= PLEN then -1 else 0
    ensures r == 0 ==>
      out[..] == Hashed(p, old(if in_ == null then [] else in_[..inlen]), rate, delim, outlen) + old(out[outlen..])
    ensures r == -1 && out != null ==> out[..] == old(out[..])
  {
    if out == null || (in_ == null && inlen != 0) || rate >= PLEN {
      return -1;
    }
    var m := if in_ == null then [] else in_[..inlen];
    var a := new Byte[PLEN](_ => 0);
    ghost var zeros := a[..];
    assert zeros == Zeros();
    var from := AbsorbBlocks(a, p, m, rate);
    AbsorbLast(a, p, m, from, rate, delim);
    Squeeze(a, p, out, outlen, rate);
    forall i | 0 <= i < PLEN { a[i] := 0; }
    r := 0;
  }

  /** SHA3-256 as this code has it: a rate of 136 and the delimiter 0x01. Only 32 bytes of output will do. */
  method Sha3(input: array<Byte>, output: array<Byte>, p: seq<Byte> -> seq<Byte>) returns (ok: bool)
    requires Permutation(p)
    modifies output
    ensures ok == (output.Length == 32)
    ensures output[..] == if ok then Hashed(p, old(input[..]), 136, 0x01, 32) else old(output[..])
  {
    if output.Length != 32 {
      return false;
    }
    assert input[..input.Length] == input[..];
    var r := Hash(output, 32, input, input.Length, 136, 0x01, p);
    ok := true;
  }

  // ---------------------------------------------- the pad in bits, section 5.1 of FIPS 202

  /** Bits are counted from the least significant. */
  function Bit(b: nat, k: nat): bool {
    if k == 0 then b % 2 == 1 else Bit(b / 2, k - 1)
  }

  function Bits(s: seq<Byte>): (b: seq<bool>)
    ensures |b| == 8 * |s|
  {
    seq(8 * |s|, i requires 0 <= i < 8 * |s| => Bit(s[i / 8], i % 8))
  }

  /** A delimiter byte is a suffix of bits and the one that begins the pad. */
  ghost predicate Delimits(delim: Byte, suffix: seq<bool>) {
    |suffix| <= 6 && forall k | 0 <= k < 8 :: Bit(delim, k) == if k < |suffix| then suffix[k] else k == |suffix|
  }

  lemma Delimiters()
    ensures Delimits(0x01, [])
    ensures Delimits(0x1f, [true, true, true, true])
  {
    assert Bit(1, 0) && !Bit(1, 1) && !Bit(1, 2) && !Bit(1, 3) && !Bit(1, 4) && !Bit(1, 5) && !Bit(1, 6) && !Bit(1, 7);
    assert Bit(0x1f, 0) && Bit(0x1f, 1) && Bit(0x1f, 2) && Bit(0x1f, 3) && Bit(0x1f, 4);
    assert !Bit(0x1f, 5) && !Bit(0x1f, 6) && !Bit(0x1f, 7);
  }

  lemma TopBit(k: nat)
    requires k < 8
    ensures Bit(0x80, k) == (k == 7)
  {
    assert !Bit(0x80, 0) && !Bit(0x80, 1) && !Bit(0x80, 2) && !Bit(0x80, 3) && !Bit(0x80, 4) && !Bit(0x80, 5) &&
      !Bit(0x80, 6);
    assert Bit(0x80, 7);
  }

  lemma {:induction false} XorBit(a: nat, b: nat, n: nat, k: nat)
    requires k < n
    ensures Bit(XorBits(a, b, n), k) == (Bit(a, k) != Bit(b, k))
  {
    LastBit(a, b, n);
    if k > 0 { XorBit(a / 2, b / 2, n - 1, k - 1); }
  }

  lemma {:induction false} NoBit(k: nat)
    ensures !Bit(0, k)
  {
    if k > 0 { NoBit(k - 1); }
  }

  /** A bit of the pad: the suffix, a one, zeros, and a one at the very end. */
  lemma PadBit(r: nat, rate: nat, delim: Byte, suffix: seq<bool>, i: nat)
    requires r < rate && Delimits(delim, suffix) && i < 8 * (rate - r)
    ensures Bit(Pad(r, rate, delim)[i / 8], i % 8) ==
      if i < |suffix| then suffix[i] else i == |suffix| || i == 8 * (rate - r) - 1
  {
    var q, k := i / 8, i % 8;
    var d, e := If(q == 0, delim), If(q == rate - r - 1, 0x80);
    assert Pad(r, rate, delim)[q] == Xor(d, e);
    assert Xor(d, e) == XorBits(d, e, 8);
    XorBit(d, e, 8, k);
    NoBit(k);
    TopBit(k);
  }

  /** The padded message is the message, the suffix, and the pad 1 0* 1 up to a whole number of blocks. */
  lemma PadIsTenStarOne(m: seq<Byte>, rate: nat, delim: Byte, suffix: seq<bool>)
    requires rate > 0 && Delimits(delim, suffix)
    ensures |Padded(m, rate, delim)| % rate == 0
    ensures var zeros := 8 * (rate - |m| % rate) - |suffix| - 2;
      && 0 <= zeros < 8 * rate
      && Bits(Padded(m, rate, delim)) == Bits(m) + suffix + [true] + seq(zeros, _ => false) + [true]
  {
    WholeBlocks(|m|, rate);
    var r := |m| % rate;
    var j := 8 * (rate - r) - |suffix| - 2;
    var tail := suffix + [true] + seq(j, _ => false) + [true];
    PadInBits(r, rate, delim, suffix, tail);
    BitsAppend(m, Pad(r, rate, delim));
    assert Bits(m) + tail == Bits(m) + suffix + [true] + seq(j, _ => false) + [true];
  }

  lemma PadInBits(r: nat, rate: nat, delim: Byte, suffix: seq<bool>, tail: seq<bool>)
    requires r < rate && Delimits(delim, suffix)
    requires tail == suffix + [true] + seq(8 * (rate - r) - |suffix| - 2, _ => false) + [true]
    ensures Bits(Pad(r, rate, delim)) == tail
  {
    forall i | 0 <= i < |tail| ensures Bits(Pad(r, rate, delim))[i] == tail[i] { PadBit(r, rate, delim, suffix, i); }
  }

  lemma BitsAppend(a: seq<Byte>, b: seq<Byte>)
    ensures Bits(a + b) == Bits(a) + Bits(b)
  {
    forall i | 0 <= i < 8 * |a + b| ensures Bits(a + b)[i] == (Bits(a) + Bits(b))[i] {
      if i >= 8 * |a| {
        var j := i - 8 * |a|;
        assert i / 8 == |a| + j / 8 && i % 8 == j % 8;
      }
    }
  }

  lemma WholeBlocks(n: nat, rate: nat)
    requires rate > 0
    ensures (n + (rate - n % rate)) % rate == 0
  {
    var q := n / rate;
    assert n == rate * q + n % rate && rate * (q + 1) == rate * q + rate;
    Unique(n + (rate - n % rate), rate, q + 1, 0);
  }
}
