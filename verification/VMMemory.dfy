/** Bytes and words: what the interpreter reads from memory and code, and writes to memory. */
module VMMemory {
  import opened Basics
  import opened VMPrices

  /** The bytes of a range, which may be empty anywhere. */
  function Range(m: seq<Byte>, at: nat, n: nat): seq<Byte> {
    if n == 0 || at + n > |m| then [] else m[at..at + n]
  }

  /** The index of the first bit that is set, or the number of bits. */
  method FirstBitSet(data: seq<Byte>) returns (ret: nat)
    ensures ret / 8 == Zeros(data)
  {
    ret := 0;
    var i := 0;
    while i < |data|
      invariant i <= |data| && ret == 8 * i && Zeros(data) == i + Zeros(data[i..])
    {
      var d := data[i];
      if d != 0 {
        ret := FirstBit(d, ret);
        return;
      }
      assert data[i..][1..] == data[i + 1..];
      ret := ret + 8;
      i := i + 1;
    }
  }

  /** On from `from`, within a byte. */
  method FirstBit(byte: Byte, from: nat) returns (ret: nat)
    requires byte > 0
    ensures from <= ret < from + 8
  {
    var d: nat := byte;
    ret := from;
    while d < 128
      invariant from <= ret <= from + 7 && Power2(ret - from) <= d < 256
      decreases 256 - d
    {
      SmallPower(ret - from);
      ret := ret + 1;
      d := d * 2;
    }
  }

  function Power2(n: nat): nat {
    if n == 0 then 1 else 2 * Power2(n - 1)
  }

  lemma SmallPower(n: nat)
    requires n <= 7 && Power2(n) < 128
    ensures n < 7
  {
    assert Power2(4) == 16 && Power2(7) == 2 * 2 * 2 * Power2(4);
  }

  /** How many zero bytes lead. */
  function Zeros(data: seq<Byte>): (n: nat)
    ensures n <= |data|
  {
    if data == [] || data[0] != 0 then 0 else 1 + Zeros(data[1..])
  }

  lemma {:induction false} ZerosSnoc(a: seq<Byte>, x: Byte)
    ensures Zeros(a + [x]) == if Zeros(a) < |a| then Zeros(a) else |a| + if x == 0 then 1 else 0
  {
    if a != [] {
      assert (a + [x])[1..] == a[1..] + [x];
      ZerosSnoc(a[1..], x);
    }
  }

  lemma {:induction false} ZerosOf(w: nat, n: nat)
    requires w < Pow256(n)
    ensures ByteLength(w) <= n && Zeros(BytesOf(w, n)) == n - ByteLength(w)
  {
    if n > 0 {
      ZerosOf(w / 256, n - 1);
      ZerosSnoc(BytesOf(w / 256, n - 1), w % 256);
    }
  }

  /** It is the least number of bytes that the number fits in. */
  lemma {:induction false} ByteLengthFits(w: nat, n: nat)
    ensures ByteLength(w) <= n <==> w < Pow256(n)
  {
    if w > 0 && n > 0 { ByteLengthFits(w / 256, n - 1); }
    PowIsPositive(n);
  }

  lemma {:induction false} PowIsPositive(n: nat)
    ensures Pow256(n) >= 1
  {
    if n > 0 { PowIsPositive(n - 1); }
  }

  /** A word has as many bytes as do not lead with zeros. */
  lemma LeadingBytes(w: Word)
    ensures Zeros(BytesOf(w, 32)) == 32 - ByteLength(w)
  {
    FourMore(0); FourMore(4); FourMore(8); FourMore(12);
    FourMore(16); FourMore(20); FourMore(24); FourMore(28);
    ZerosOf(w, 32);
  }

  function Stored(op: Byte, w: Word): (b: seq<Byte>)
    ensures |b| == if op == MSTORE then 32 else 1
  {
    if op == MSTORE then BytesOf(w, 32) else [w % 256]
  }

  function DataAt(data: seq<Byte>, k: nat): Byte {
    if k < |data| then data[k] else 0
  }

  /** m is `was` with what data holds from `index` on, zeros past its end, laid over it at `offset`. */
  ghost predicate Copied(was: seq<Byte>, data: seq<Byte>, offset: nat, index: nat, size: nat, m: seq<Byte>)
    requires |m| == |was|
  {
    forall k | 0 <= k < |m| ::
      m[k] == if offset <= k < offset + size then DataAt(data, index + (k - offset)) else was[k]
  }

  method CopyInto(m: seq<Byte>, data: seq<Byte>, offset: nat, bigIndex: nat, size: nat) returns (r: seq<Byte>)
    requires offset + size <= |m| && |data| < U64
    ensures |r| == |m| && Copied(m, data, offset, bigIndex, size, r)
  {
    var index := bigIndex % U64;
    var sizeToBeCopied :=
      if bigIndex + size > |data| then (if |data| < bigIndex then 0 else |data| - index) else size;
    r := m;
    if sizeToBeCopied > 0 {
      r := Poked(r, offset, data[index..index + sizeToBeCopied]);
    }
    if size > sizeToBeCopied {
      r := Poked(r, offset + sizeToBeCopied, seq(size - sizeToBeCopied, _ => 0));
    }
  }

  method ReadPush(code: seq<Byte>, first: nat, numBytes: nat) returns (v: Word)
    requires first + numBytes <= |code|
    ensures v == WordOf(code[first..first + numBytes]) % WORD
  {
    v := 0;
    var pc := first;
    while pc < first + numBytes
      invariant first <= pc <= first + numBytes && v == WordOf(code[first..pc]) % WORD
    {
      Snoc(code, first, pc);
      WordOfSnoc(code[first..pc], code[pc]);
      v := (v * 256 + code[pc]) % WORD;
      pc := pc + 1;
    }
  }

  /** Only the n bytes from `at` on may differ. */
  ghost predicate Outside(was: seq<Byte>, m: seq<Byte>, at: nat, n: nat) {
    |m| == |was| && forall k | 0 <= k < |m| && !(at <= k < at + n) :: m[k] == was[k]
  }

  function Extended(m: seq<Byte>, size: nat): seq<Byte> {
    if size <= |m| then m else m + seq(size - |m|, _ => 0)
  }

  function Poked(m: seq<Byte>, at: nat, b: seq<Byte>): (r: seq<Byte>)
    requires at + |b| <= |m|
    ensures |r| == |m| && forall k | 0 <= k < |m| :: r[k] == if at <= k < at + |b| then b[k - at] else m[k]
  {
    m[..at] + b + m[at + |b|..]
  }

  /** Big-endian. */
  function WordOf(b: seq<Byte>): nat {
    if b == [] then 0 else WordOf(b[..|b| - 1]) * 256 + b[|b| - 1]
  }

  function BytesOf(w: nat, n: nat): (b: seq<Byte>)
    ensures |b| == n
  {
    if n == 0 then [] else BytesOf(w / 256, n - 1) + [w % 256]
  }

  function Pow256(n: nat): nat {
    if n == 0 then 1 else Pow256(n - 1) * 256
  }

  /** Cutting the address makes no difference exactly when there is nothing to cut, or both places hold the bytes. */
  lemma CutAddress(m: seq<Byte>, at: nat, b: seq<Byte>)
    requires at + |b| <= |m| && |b| <= 32
    ensures Poked(m, at % U32, b) == Poked(m, at, b) <==>
      at < U32 || (m[at..at + |b|] == b && m[at % U32..at % U32 + |b|] == b)
  {
    var cut := at % U32;
    var x, y := Poked(m, cut, b), Poked(m, at, b);
    if at >= U32 {
      assert cut + |b| <= at;
      assert y[at..at + |b|] == b && x[at..at + |b|] == m[at..at + |b|];
      assert x[cut..cut + |b|] == b && y[cut..cut + |b|] == m[cut..cut + |b|];
      if m[at..at + |b|] == b && m[cut..cut + |b|] == b {
        forall k | 0 <= k < |m| ensures x[k] == y[k] {
          if at <= k < at + |b| { assert m[at..at + |b|][k - at] == b[k - at]; }
          if cut <= k < cut + |b| { assert m[cut..cut + |b|][k - cut] == b[k - cut]; }
        }
      }
    }
  }

  /** A word loaded at the cut address is the word at the address exactly when there is nothing to cut, or both places
      hold the same bytes. */
  lemma LoadAddress(m: seq<Byte>, at: nat)
    requires at + 32 <= |m|
    ensures WordOf(m[at % U32..at % U32 + 32]) % WORD == WordOf(m[at..at + 32]) % WORD <==>
      at < U32 || m[at % U32..at % U32 + 32] == m[at..at + 32]
  {
    var x, y := m[at % U32..at % U32 + 32], m[at..at + 32];
    WordsAreBelow(x);
    WordsAreBelow(y);
    WordsDiffer(x, y);
  }

  lemma WordsAreBelow(b: seq<Byte>)
    requires |b| == 32
    ensures WordOf(b) < WORD
  {
    FourMore(0); FourMore(4); FourMore(8); FourMore(12);
    FourMore(16); FourMore(20); FourMore(24); FourMore(28);
    WordBelow(b);
  }

  lemma {:induction false} WordBelow(b: seq<Byte>)
    ensures WordOf(b) < Pow256(|b|)
  {
    if b != [] { WordBelow(b[..|b| - 1]); }
  }

  lemma {:induction false} WordsDiffer(a: seq<Byte>, b: seq<Byte>)
    requires |a| == |b|
    ensures WordOf(a) == WordOf(b) <==> a == b
  {
    if a != [] {
      var n := |a| - 1;
      WordsDiffer(a[..n], b[..n]);
      assert a == a[..n] + [a[n]] && b == b[..n] + [b[n]];
    }
  }

  /** A word read back where it was stored is that word. */
  lemma {:induction false} StoredIsLoaded(w: nat, n: nat)
    requires w < Pow256(n)
    ensures WordOf(BytesOf(w, n)) == w
  {
    if n > 0 {
      StoredIsLoaded(w / 256, n - 1);
      assert BytesOf(w, n)[..n - 1] == BytesOf(w / 256, n - 1);
    }
  }

  lemma FourMore(n: nat)
    ensures Pow256(n + 4) == Pow256(n) * U32
  {
    assert Pow256(n + 2) == Pow256(n) * 65536;
    assert Pow256(n + 4) == Pow256(n + 2) * 65536;
  }

  lemma WordsFit(w: Word)
    ensures WordOf(BytesOf(w, 32)) == w
  {
    FourMore(0); FourMore(4); FourMore(8); FourMore(12);
    FourMore(16); FourMore(20); FourMore(24); FourMore(28);
    StoredIsLoaded(w, 32);
  }

  lemma Snoc(b: seq<Byte>, i: nat, j: nat)
    requires i <= j < |b|
    ensures b[i..j + 1] == b[i..j] + [b[j]]
  {
  }

  lemma {:induction false} WordOfSnoc(b: seq<Byte>, x: Byte)
    ensures WordOf(b + [x]) % WORD == (WordOf(b) % WORD * 256 + x) % WORD
  {
    assert (b + [x])[..|b|] == b;
    OneByteOn(WordOf(b), x);
  }

  lemma OneByteOn(v: nat, x: nat)
    ensures (v * 256 + x) % WORD == (v % WORD * 256 + x) % WORD
  {
    var q, r := v / WORD, v % WORD;
    assert v * 256 + x == r * 256 + x + WORD * (q * 256);
    Multiple(r * 256 + x, q * 256);
  }

  lemma Multiple(a: nat, k: nat)
    ensures (a + WORD * k) % WORD == a % WORD
  {
  }
}
