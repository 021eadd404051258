/** Hex-prefix encoding of nibble strings with a leaf flag (Appendix C of the Ethereum Yellow
    Paper): how the path of a two-item node is packed into bytes. */
module HexPrefix {
  import opened Basics
  import opened Nibbles

  /** The nibbles of a byte string, high half first. */
  function NibbleAt(data: seq<Byte>, i: nat): Nibble
    requires i < 2 * |data|
  {
    if i % 2 == 1 then data[i / 2] % 16 else data[i / 2] / 16
  }

  function NibblesOf(data: seq<Byte>): Path {
    seq(2 * |data|, i requires 0 <= i < 2 * |data| => NibbleAt(data, i))
  }

  /** A view of a byte string from some nibble on. */
  datatype NibbleSlice = NibbleSlice(data: seq<Byte>, offset: nat)
  {
    ghost predicate Valid() {
      offset <= 2 * |data|
    }

    function Size(): nat
      requires Valid()
    {
      2 * |data| - offset
    }

    function Nibbles(): (ns: Path)
      requires Valid()
      ensures |ns| == Size()
    {
      NibblesOf(data)[offset..]
    }
  }

  // ------------------------------------------------------------------ the format

  function ByteOf(high: nat, low: nat): Byte
    requires high < 16 && low < 16
  {
    16 * high + low
  }

  function Pairs(ns: Path): seq<Byte>
    requires |ns| % 2 == 0
  {
    if ns == [] then [] else [ByteOf(ns[0], ns[1])] + Pairs(ns[2..])
  }

  /** Flag nibble (2 for a leaf, plus 1 for an odd count), a padding nibble for an even count,
      then the nibbles. */
  function Flagged(ns: Path, leaf: bool): (r: Path)
    ensures |r| % 2 == 0
  {
    var flag := if leaf then 2 else 0;
    if |ns| % 2 == 1 then [flag + 1] + ns else [flag, 0] + ns
  }

  function Pack(ns: Path, leaf: bool): seq<Byte> {
    Pairs(Flagged(ns, leaf))
  }

  function KeyOf(hpe: seq<Byte>): (s: NibbleSlice)
    ensures s.Valid()
  {
    if hpe == [] then NibbleSlice(hpe, 0)
    else if hpe[0] / 16 % 2 == 1 then NibbleSlice(hpe, 1)
    else NibbleSlice(hpe, 2)
  }

  predicate IsLeaf(hpe: seq<Byte>)
    requires hpe != []
  {
    hpe[0] / 32 % 2 == 1
  }

  lemma {:induction false} PairsNibbles(ns: Path)
    requires |ns| % 2 == 0
    ensures |Pairs(ns)| == |ns| / 2 && NibblesOf(Pairs(ns)) == ns
  {
    if ns != [] {
      PairsNibbles(ns[2..]);
      var rest := Pairs(ns[2..]);
      forall i: nat | i < |ns| ensures NibblesOf(Pairs(ns))[i] == ns[i] {
        if i >= 2 {
          assert Pairs(ns)[i / 2] == rest[(i - 2) / 2];
          assert NibblesOf(rest)[i - 2] == ns[2..][i - 2];
        }
      }
    }
  }

  /** keyOf and isLeaf recover what was packed. */
  lemma PackRoundTrip(ns: Path, leaf: bool)
    ensures var hpe := Pack(ns, leaf); hpe != [] && KeyOf(hpe).Nibbles() == ns && IsLeaf(hpe) == leaf
  {
    var hpe, full := Pack(ns, leaf), Flagged(ns, leaf);
    PairsNibbles(full);
    assert NibblesOf(hpe)[0] == full[0] && hpe[0] / 16 == full[0];
    assert full[2 - |ns| % 2..] == ns;
  }

  /** The format on the bytes: bit 0x20 of the first is the leaf flag; bit 0x10 says that the count is odd, and then the
      first nibble stands in the lower half; all other bits there are clear. Two nibbles a byte follow. */
  ghost predicate HexPrefixed(hpe: seq<Byte>, ns: Path, leaf: bool) {
    var odd := |ns| % 2;
    && |hpe| == |ns| / 2 + 1
    && hpe[0] == (if leaf then 0x20 else 0) + (if odd == 1 then 0x10 + ns[0] as int else 0)
    && forall k | 1 <= k < |hpe| :: Follows(hpe, ns, k)
  }

  predicate Follows(hpe: seq<Byte>, ns: Path, k: nat)
    requires |hpe| == |ns| / 2 + 1 && 1 <= k < |hpe|
  {
    TwoNibbles(hpe[k], ns, |ns| % 2 + 2 * k - 2)
  }

  predicate TwoNibbles(x: Byte, ns: Path, i: int)
    requires 0 <= i && i + 1 < |ns|
  {
    x / 16 == ns[i] && x % 16 == ns[i + 1]
  }

  /** Packing gives these bytes, and no others have the format. */
  lemma {:induction false} PackedBytes(hpe: seq<Byte>, ns: Path, leaf: bool)
    ensures hpe == Pack(ns, leaf) <==> HexPrefixed(hpe, ns, leaf)
  {
    PackHasFormat(ns, leaf);
    if HexPrefixed(hpe, ns, leaf) { OneFormat(hpe, Pack(ns, leaf), ns, leaf); }
  }

  lemma {:induction false} PackHasFormat(ns: Path, leaf: bool)
    ensures HexPrefixed(Pack(ns, leaf), ns, leaf)
  {
    var full, packed, odd := Flagged(ns, leaf), Pack(ns, leaf), |ns| % 2;
    PairsNibbles(full);
    PairAt(packed, full, 0);
    forall k | 1 <= k < |packed| ensures Follows(packed, ns, k) {
      PairAt(packed, full, k);
      assert full[2 - odd..] == ns;
    }
  }

  lemma {:induction false} OneFormat(a: seq<Byte>, b: seq<Byte>, ns: Path, leaf: bool)
    requires HexPrefixed(a, ns, leaf) && HexPrefixed(b, ns, leaf)
    ensures a == b
  {
    forall k | 1 <= k < |a| ensures a[k] == b[k] {
      assert Follows(a, ns, k) && Follows(b, ns, k);
      SameByte(a[k], b[k]);
    }
  }

  lemma PairAt(b: seq<Byte>, ns: Path, k: nat)
    requires NibblesOf(b) == ns && k < |b|
    ensures TwoNibbles(b[k], ns, 2 * k)
  {
    assert ns[2 * k] == NibbleAt(b, 2 * k) && ns[2 * k + 1] == NibbleAt(b, 2 * k + 1);
  }

  lemma SameByte(x: Byte, y: Byte)
    requires x / 16 == y / 16 && x % 16 == y % 16
    ensures x == y
  {
  }

  /** So the packing loses nothing: a node with packed paths is a node with plain ones. */
  lemma PackInjective(a: Path, x: bool, b: Path, y: bool)
    requires Pack(a, x) == Pack(b, y)
    ensures a == b && x == y
  {
    PackRoundTrip(a, x);
    PackRoundTrip(b, y);
  }

  // ------------------------------------------------------------------- the loops

  function Pad(d: nat): Path {
    if d % 2 == 1 then [0] else []
  }

  /** `ret` holds the first d nibbles, the last byte's low half still empty when d is odd. */
  ghost predicate Standing(ret: seq<Byte>, full: Path, d: nat) {
    0 < d <= |full| && ret == Pairs(full[..d] + Pad(d))
  }

  lemma {:induction false} PairsSnoc(ns: Path, x: Nibble, y: Nibble)
    requires |ns| % 2 == 0
    ensures Pairs(ns + [x, y]) == Pairs(ns) + [ByteOf(x, y)]
  {
    if ns != [] {
      assert (ns + [x, y])[2..] == ns[2..] + [x, y];
      PairsSnoc(ns[2..], x, y);
    }
  }

  /** A nibble goes into the low half of the last byte. */
  lemma {:induction false} LowHalf(ret: seq<Byte>, full: Path, d: nat)
    requires Standing(ret, full, d) && d < |full| && d % 2 == 1
    ensures ret != [] && ret[|ret| - 1] % 16 == 0
    ensures Standing(ret[..|ret| - 1] + [ret[|ret| - 1] + full[d]], full, d + 1)
  {
    var front, x, y := full[..d - 1], full[d - 1], full[d];
    assert full[..d] + Pad(d) == front + [x, 0];
    assert full[..d + 1] + Pad(d + 1) == front + [x, y];
    PairsSnoc(front, x, 0);
    PairsSnoc(front, x, y);
  }

  /** A nibble goes into the high half of a new byte. */
  lemma {:induction false} HighHalf(ret: seq<Byte>, full: Path, d: nat)
    requires Standing(ret, full, d) && d < |full| && d % 2 == 0
    ensures Standing(ret + [ByteOf(full[d], 0)], full, d + 1)
  {
    assert full[..d] + Pad(d) == full[..d];
    assert full[..d + 1] + Pad(d + 1) == full[..d] + [full[d], 0];
    PairsSnoc(full[..d], full[d], 0);
  }

  /** The first byte: flags, and room for a nibble when the count is odd. */
  method Start(count: nat, leaf: bool, ghost ns: Path) returns (ret: seq<Byte>, d: nat, ghost full: Path)
    requires count == |ns|
    ensures full == Flagged(ns, leaf) && d == 2 - count % 2 && |ret| == 1 && Standing(ret, full, d)
    ensures |full| == d + count && full[d..] == ns && (Pairs(full) == Pack(ns, leaf))
  {
    var odd := count % 2;
    ret := [((if leaf then 2 else 0) + odd) * 16];
    d := if odd == 1 then 1 else 2;
    full := Flagged(ns, leaf);
    assert full[..d] + Pad(d) == [(if leaf then 2 else 0) + odd, 0];
    assert full[d..] == ns;
  }

  lemma {:induction false} Finish(ret: seq<Byte>, full: Path)
    requires |full| % 2 == 0 && Standing(ret, full, |full|)
    ensures ret == Pairs(full)
  {
    assert full[..|full|] + Pad(|full|) == full;
  }

  /** The loop that pushes nibbles begin..end of a byte string. */
  method EncodeRun(start: seq<Byte>, d0: nat, data: seq<Byte>, begin: nat, end: nat, ghost full: Path)
    returns (ret: seq<Byte>, d: nat)
    requires begin <= end <= 2 * |data| && Standing(start, full, d0) && d0 + end - begin <= |full|
    requires full[d0..d0 + end - begin] == NibblesOf(data)[begin..end]
    ensures d == d0 + end - begin && Standing(ret, full, d)
  {
    ret, d := start, d0;
    var i := begin;
    while i < end
      invariant begin <= i <= end && d == d0 + i - begin && Standing(ret, full, d)
    {
      var n := NibbleAt(data, i);
      assert full[d] == full[d0..d0 + end - begin][i - begin] == NibblesOf(data)[begin..end][i - begin];
      if d % 2 == 1 {
        LowHalf(ret, full, d);
        ret := ret[..|ret| - 1] + [ret[|ret| - 1] + n];
      } else {
        HighHalf(ret, full, d);
        ret := ret + [ByteOf(n, 0)];
      }
      i, d := i + 1, d + 1;
    }
  }

  /** Where a range ends: a negative end counts from the back. */
  function EndOf(size: nat, end: int): int {
    if end < 0 then size + 1 + end else end
  }

  /** hexPrefixEncode of nibbles begin..end of a byte string, counted from an offset. */
  method EncodeBytes(data: seq<Byte>, leaf: bool, beginNibble: nat, endNibble: int, offset: nat)
    returns (ret: seq<Byte>)
    requires offset <= 2 * |data| && beginNibble <= EndOf(2 * |data| - offset, endNibble) <= 2 * |data| - offset
    ensures ret == Pack(NibblesOf(data)[beginNibble + offset..EndOf(2 * |data| - offset, endNibble) + offset], leaf)
    ensures HexPrefixed(ret, NibblesOf(data)[beginNibble + offset..EndOf(2 * |data| - offset, endNibble) + offset],
      leaf)
  {
    var begin := beginNibble + offset;
    var end := EndOf(2 * |data| - offset, endNibble) + offset;
    ret := EncodeRange(data, leaf, begin, end);
  }

  method EncodeRange(data: seq<Byte>, leaf: bool, begin: nat, end: nat) returns (ret: seq<Byte>)
    requires begin <= end <= 2 * |data|
    ensures ret == Pack(NibblesOf(data)[begin..end], leaf) && HexPrefixed(ret, NibblesOf(data)[begin..end], leaf)
  {
    var d;
    ghost var full;
    ret, d, full := Start(end - begin, leaf, NibblesOf(data)[begin..end]);
    assert full[d..d + end - begin] == full[d..];
    ret, d := EncodeRun(ret, d, data, begin, end, full);
    Finish(ret, full);
    PackedBytes(ret, NibblesOf(data)[begin..end], leaf);
  }

  lemma Halves(full: Path, d: nat, a: Path, b: Path)
    requires d <= |full| && full[d..] == a + b
    ensures |full| == d + |a| + |b| && full[d..d + |a|] == a && full[d + |a|..d + |a| + |b|] == b
  {
    assert full[d..][..|a|] == a && full[d..][|a|..] == b;
  }

  /** hexPrefixEncode of two slices: the encoding of their concatenation. */
  method EncodeTwo(s1: NibbleSlice, s2: NibbleSlice, leaf: bool) returns (ret: seq<Byte>)
    requires s1.Valid() && s2.Valid()
    ensures ret == Pack(s1.Nibbles() + s2.Nibbles(), leaf)
    ensures HexPrefixed(ret, s1.Nibbles() + s2.Nibbles(), leaf)
  {
    ghost var n1, n2 := s1.Nibbles(), s2.Nibbles();
    var d;
    ghost var full;
    ret, d, full := Start(2 * |s1.data| - s1.offset + (2 * |s2.data| - s2.offset), leaf, n1 + n2);
    Halves(full, d, n1, n2);
    ret, d := EncodeWhole(ret, d, s1, full);
    ret, d := EncodeWhole(ret, d, s2, full);
    Finish(ret, full);
    PackedBytes(ret, n1 + n2, leaf);
  }

  method EncodeWhole(start: seq<Byte>, d0: nat, s: NibbleSlice, ghost full: Path) returns (ret: seq<Byte>, d: nat)
    requires s.Valid() && Standing(start, full, d0) && d0 + |s.Nibbles()| <= |full|
    requires full[d0..d0 + |s.Nibbles()|] == s.Nibbles()
    ensures d == d0 + |s.Nibbles()| && Standing(ret, full, d)
  {
    assert NibblesOf(s.data)[s.offset..2 * |s.data|] == s.Nibbles();
    ret, d := EncodeRun(start, d0, s.data, s.offset, 2 * |s.data|, full);
  }

  /** hexPrefixEncode of nibbles begin..end of a slice. */
  method EncodeSlice(s: NibbleSlice, leaf: bool, begin: nat, end: int) returns (ret: seq<Byte>)
    requires s.Valid() && begin <= EndOf(s.Size(), end) <= s.Size()
    ensures ret == Pack(s.Nibbles()[begin..EndOf(s.Size(), end)], leaf)
    ensures HexPrefixed(ret, s.Nibbles()[begin..EndOf(s.Size(), end)], leaf)
  {
    ret := EncodeBytes(s.data, leaf, begin, end, s.offset);
    SliceEncoded(ret, s, leaf, begin, EndOf(s.Size(), end));
  }

  lemma {:induction false} SliceEncoded(ret: seq<Byte>, s: NibbleSlice, leaf: bool, b: nat, e: nat)
    requires s.Valid() && b <= e <= s.Size()
    requires ret == Pack(NibblesOf(s.data)[b + s.offset..e + s.offset], leaf)
    ensures ret == Pack(s.Nibbles()[b..e], leaf) && HexPrefixed(ret, s.Nibbles()[b..e], leaf)
  {
    SliceRange(s, s.Nibbles(), b, e);
    PackedBytes(ret, s.Nibbles()[b..e], leaf);
  }

  lemma {:induction false} SliceRange(s: NibbleSlice, ns: Path, b: nat, e: nat)
    requires s.Valid() && ns == s.Nibbles() && b <= e <= s.Size()
    ensures NibblesOf(s.data)[b + s.offset..e + s.offset] == ns[b..e]
  {
  }

  /** hexPrefixEncode of a vector that holds one nibble a byte. */
  method EncodeVector(hexVector: Path, leaf: bool, begin: nat, end: int) returns (ret: seq<Byte>)
    requires begin <= EndOf(|hexVector|, end) <= |hexVector|
    ensures ret == Pack(hexVector[begin..EndOf(|hexVector|, end)], leaf)
    ensures HexPrefixed(ret, hexVector[begin..EndOf(|hexVector|, end)], leaf)
  {
    var e := EndOf(|hexVector|, end);
    var b := begin;
    var d;
    ghost var full;
    ret, d, full := Start(e - begin, leaf, hexVector[begin..e]);
    if d == 1 {
      assert full[1] == full[d..][0] == hexVector[b];
      LowHalf(ret, full, 1);
      ret := [ret[0] + hexVector[b]];
      b := b + 1;
    }
    ret := EncodePairs(ret, hexVector, b, e, full);
    Finish(ret, full);
    PackedBytes(ret, hexVector[begin..e], leaf);
  }

  /** The loop that pushes two nibbles at a time. */
  method EncodePairs(start: seq<Byte>, v: Path, b: nat, e: nat, ghost full: Path) returns (ret: seq<Byte>)
    requires b <= e <= |v| && (e - b) % 2 == 0 && |full| == 2 + e - b && full[2..] == v[b..e]
    requires Standing(start, full, 2)
    ensures Standing(ret, full, |full|)
  {
    ret := start;
    var i := b;
    while i < e
      invariant b <= i <= e && (e - i) % 2 == 0
      invariant Standing(ret, full, 2 + i - b)
    {
      TwoMore(ret, full, 2 + i - b);
      assert full[2 + i - b] == full[2..][i - b] == v[i] && full[3 + i - b] == full[2..][i + 1 - b] == v[i + 1];
      ret := ret + [ByteOf(v[i], v[i + 1])];
      i := i + 2;
    }
  }

  lemma TwoMore(ret: seq<Byte>, full: Path, d: nat)
    requires Standing(ret, full, d) && d + 2 <= |full| && d % 2 == 0
    ensures Standing(ret + [ByteOf(full[d], full[d + 1])], full, d + 2)
  {
    assert full[..d] + Pad(d) == full[..d];
    assert full[..d + 2] + Pad(d + 2) == full[..d] + [full[d], full[d + 1]];
    PairsSnoc(full[..d], full[d], full[d + 1]);
  }

  lemma OneMoreShared(x: Path, y: Path, n: nat)
    requires n < |x| && n < |y| && x[n] == y[n]
    ensures Shared(x[n..], y[n..]) == 1 + Shared(x[n + 1..], y[n + 1..])
  {
    assert x[n..][1..] == x[n + 1..] && y[n..][1..] == y[n + 1..];
  }

  lemma RangeAt(data: seq<Byte>, b: nat, e: nat, n: nat)
    requires b + n < e <= 2 * |data|
    ensures NibblesOf(data)[b..e][n] == NibbleAt(data, b + n)
  {
  }

  /** sharedNibbles: nibbles two ranges have in common at their beginning. */
  method SharedNibbles(first: seq<Byte>, b1: nat, e1: nat, second: seq<Byte>, b2: nat, e2: nat) returns (n: nat)
    requires b1 <= e1 <= 2 * |first| && b2 <= e2 <= 2 * |second|
    ensures n == Shared(NibblesOf(first)[b1..e1], NibblesOf(second)[b2..e2])
  {
    n := 0;
    var i, j := b1, b2;
    ghost var x, y := NibblesOf(first)[b1..e1], NibblesOf(second)[b2..e2];
    assert x[0..] == x && y[0..] == y;
    while i < e1 && j < e2 && NibbleAt(first, i) == NibbleAt(second, j)
      invariant i == b1 + n <= e1 && j == b2 + n <= e2
      invariant Shared(x, y) == n + Shared(x[n..], y[n..])
    {
      RangeAt(first, b1, e1, n);
      RangeAt(second, b2, e2, n);
      OneMoreShared(x, y, n);
      i, j, n := i + 1, j + 1, n + 1;
    }
    if i < e1 && j < e2 {
      RangeAt(first, b1, e1, n);
      RangeAt(second, b2, e2, n);
    }
    NoMoreShared(x, y, n);
  }

  lemma NoMoreShared(x: Path, y: Path, n: nat)
    requires n <= |x| && n <= |y| && (n < |x| && n < |y| ==> x[n] != y[n])
    ensures Shared(x[n..], y[n..]) == 0
  {
  }
}
