/** Bytes as text in base 64, and back. */
module Base64 {
  import opened Basics

  const PAD: Byte := 61

  predicate IsBase64(c: Byte) {
    (48 <= c <= 57) || (65 <= c <= 90) || (97 <= c <= 122) || c == 43 || c == 47
  }

  /** The 64 characters, in order. */
  function CharAt(i: Byte): Byte
    requires i < 64
  {
    if i < 26 then 65 + i
    else if i < 52 then 97 + (i - 26)
    else if i < 62 then 48 + (i - 52)
    else if i == 62 then 43
    else 47
  }

  /** 64 for what is not one of them. */
  function FindBase64CharIndex(c: Byte): (i: Byte)
    ensures IsBase64(c) ==> i < 64 && CharAt(i) == c
    ensures !IsBase64(c) ==> i == 64
  {
    if 65 <= c <= 90 then c - 65
    else if 97 <= c <= 122 then c - 97 + 1 + 25
    else if 48 <= c <= 57 then c - 48 + 1 + 51
    else if c == 43 then 1 + 61
    else if c == 47 then 1 + 62
    else 1 + 63
  }

  lemma IndexOfChar(i: Byte)
    requires i < 64
    ensures IsBase64(CharAt(i)) && FindBase64CharIndex(CharAt(i)) == i && CharAt(i) != PAD
  {
  }

  // ------------------------------------------------------ section 4 of RFC 4648

  /** Four six-bit numbers for three bytes; masks and shifts are remainders and quotients by powers of 2. */
  function First(a: Byte): (s: Byte)
    ensures s < 64
  {
    a / 4
  }

  function Second(a: Byte, b: Byte): (s: Byte)
    ensures s < 64
  {
    a % 4 * 16 + b / 16
  }

  function Third(b: Byte, c: Byte): (s: Byte)
    ensures s < 64
  {
    b % 16 * 4 + c / 64
  }

  function Fourth(c: Byte): (s: Byte)
    ensures s < 64
  {
    c % 64
  }

  /** Three bytes for four six-bit numbers. */
  function High(s: Byte, t: Byte): Byte {
    (s * 4 + t / 16 % 4) % 256
  }

  function Middle(t: Byte, u: Byte): Byte {
    (t % 16 * 16 + u / 4 % 16) % 256
  }

  function Low(u: Byte, v: Byte): Byte {
    (u % 4 * 64 + v) % 256
  }

  lemma HighBack(a: Byte, b: Byte)
    ensures High(First(a), Second(a, b)) == a
  {
    Apart16(a % 4, b / 16);
  }

  lemma MiddleBack(a: Byte, b: Byte, c: Byte)
    ensures Middle(Second(a, b), Third(b, c)) == b
  {
    Apart16(a % 4, b / 16);
    Apart4(b % 16, c / 64);
  }

  lemma LowBack(b: Byte, c: Byte)
    ensures Low(Third(b, c), Fourth(c)) == c
  {
    Apart4(b % 16, c / 64);
  }

  lemma Apart16(x: nat, y: nat)
    requires y < 16
    ensures (x * 16 + y) / 16 == x && (x * 16 + y) % 16 == y
  {
  }

  lemma Apart4(x: nat, y: nat)
    requires y < 4
    ensures (x * 4 + y) / 4 == x && (x * 4 + y) % 4 == y
  {
  }

  function Group(a: Byte, b: Byte, c: Byte): seq<Byte> {
    [CharAt(First(a)), CharAt(Second(a, b)), CharAt(Third(b, c)), CharAt(Fourth(c))]
  }

  /** The text for the bytes from k on; the last group is filled up with padding. */
  function Encode(x: seq<Byte>, k: nat): seq<Byte>
    decreases |x| - k
  {
    if k + 3 <= |x| then Group(x[k], x[k + 1], x[k + 2]) + Encode(x, k + 3)
    else if k + 2 == |x| then [CharAt(First(x[k])), CharAt(Second(x[k], x[k + 1])), CharAt(Third(x[k + 1], 0)), PAD]
    else if k + 1 == |x| then [CharAt(First(x[k])), CharAt(Second(x[k], 0)), PAD, PAD]
    else []
  }

  function Index(c: Byte): Byte {
    FindBase64CharIndex(c)
  }

  function Triple(s: Byte, t: Byte, u: Byte, v: Byte): seq<Byte> {
    [High(s, t), Middle(t, u), Low(u, v)]
  }

  predicate Counts(c: Byte) {
    c != PAD && IsBase64(c)
  }

  /** Where the characters of base 64 that begin at k end. */
  function End(s: seq<Byte>, k: nat): (e: nat)
    requires k <= |s|
    ensures k <= e <= |s| && forall j | k <= j < e :: Counts(s[j])
    decreases |s| - k
  {
    if k < |s| && Counts(s[k]) then End(s, k + 1) else k
  }

  /** The bytes of the characters from k to e; a single character over has none. */
  function Decode(s: seq<Byte>, k: nat, e: nat): seq<Byte>
    requires k <= e <= |s|
    decreases e - k
  {
    if k + 4 <= e then Triple(Index(s[k]), Index(s[k + 1]), Index(s[k + 2]), Index(s[k + 3])) + Decode(s, k + 4, e)
    else if k + 3 == e then [High(Index(s[k]), Index(s[k + 1])), Middle(Index(s[k + 1]), Index(s[k + 2]))]
    else if k + 2 == e then [High(Index(s[k]), Index(s[k + 1]))]
    else []
  }

  // ------------------------------------------------------------------- the loops

  lemma Regroup(done: seq<Byte>, more: seq<Byte>, todo: seq<Byte>, before: seq<Byte>)
    requires before == more + todo
    ensures done + before == (done + more) + todo
  {
  }

  method ToBase64(x: seq<Byte>) returns (ret: seq<Byte>)
    ensures ret == Encode(x, 0)
  {
    ret := [];
    var three: seq<Byte> := [0, 0, 0];
    var i, k := 0, 0;
    ghost var all := Encode(x, 0);
    ghost var todo := all;
    while k < |x|
      invariant |three| == 3 && 0 <= i < 3 && i <= k <= |x| && Pending(x, k, three, i)
      invariant all == ret + todo && todo == Encode(x, k - i)
    {
      three := three[i := x[k]];
      i := i + 1;
      k := k + 1;
      if i == 3 {
        ghost var before := todo;
        var four;
        four, todo := Four(x, k, three);
        Regroup(ret, four, todo, before);
        ret := ret + four;
        i := 0;
      }
    }
    var tail := EncodeTail(three, i);
    TailIs(x, three, i, tail);
    ret := ret + tail;
  }

  /** The first i in the buffer are the last i read. */
  predicate Pending(x: seq<Byte>, k: nat, buffer: seq<Byte>, i: nat) {
    i <= k <= |x| && i <= |buffer| && i <= 3
    && (i >= 1 ==> buffer[0] == x[k - i])
    && (i >= 2 ==> buffer[1] == x[k - i + 1])
    && (i >= 3 ==> buffer[2] == x[k - 1])
  }

  method Four(x: seq<Byte>, k: nat, three: seq<Byte>) returns (four: seq<Byte>, ghost todo: seq<Byte>)
    requires |three| == 3 && k >= 3 && Pending(x, k, three, 3)
    ensures Encode(x, k - 3) == four + todo && todo == Encode(x, k)
  {
    four := Characters(three, 4);
    todo := Encode(x, k);
  }

  lemma TailIs(x: seq<Byte>, three: seq<Byte>, i: nat, tail: seq<Byte>)
    requires |three| == 3 && i < 3 && Pending(x, |x|, three, i) && tail == TailOf(three, i)
    ensures tail == Encode(x, |x| - i)
  {
  }

  function TailOf(buffer: seq<Byte>, n: nat): seq<Byte>
    requires |buffer| == 3 && n < 3
  {
    if n == 0 then []
    else if n == 1 then [CharAt(First(buffer[0])), CharAt(Second(buffer[0], 0)), PAD, PAD]
    else [CharAt(First(buffer[0])), CharAt(Second(buffer[0], buffer[1])), CharAt(Third(buffer[1], 0)), PAD]
  }

  /** One or two bytes are filled up with zeros, and their characters with padding. */
  method EncodeTail(buffer: seq<Byte>, n: nat) returns (ret: seq<Byte>)
    requires |buffer| == 3 && n < 3
    ensures ret == TailOf(buffer, n)
  {
    if n == 0 {
      return [];
    }
    var three, j := buffer, n;
    while j < 3
      invariant n <= j <= 3 && |three| == 3 && forall m | 0 <= m < 3 :: three[m] == if n <= m < j then 0 else buffer[m]
    {
      three := three[j := 0];
      j := j + 1;
    }
    ret := Characters(three, n + 1);
    ghost var chars := ret;
    var i := n;
    while i < 3
      invariant n <= i <= 3 && ret == chars + if i == n then [] else if i == n + 1 then [PAD] else [PAD, PAD]
    {
      ret := ret + [PAD];
      i := i + 1;
    }
  }

  /** The first n of the four characters. */
  method Characters(three: seq<Byte>, n: nat) returns (r: seq<Byte>)
    requires |three| == 3 && 2 <= n <= 4
    ensures n == 4 ==> r == Group(three[0], three[1], three[2])
    ensures n == 3 ==>
      r == [CharAt(First(three[0])), CharAt(Second(three[0], three[1])), CharAt(Third(three[1], three[2]))]
    ensures n == 2 ==> r == [CharAt(First(three[0])), CharAt(Second(three[0], three[1]))]
  {
    r := Group(three[0], three[1], three[2])[..n];
  }

  method FromBase64(s: seq<Byte>) returns (ret: seq<Byte>)
    ensures ret == Decode(s, 0, End(s, 0))
  {
    ret := [];
    var four: seq<Byte> := [0, 0, 0, 0];
    var i, in_ := 0, 0;
    ghost var e := End(s, 0);
    ghost var all := Decode(s, 0, e);
    ghost var todo := all;
    while in_ < |s| && s[in_] != PAD && IsBase64(s[in_])
      invariant |four| == 4 && 0 <= i < 4 && i <= in_ <= e == End(s, in_) && Pending(s, in_, four, i)
      invariant all == ret + todo && todo == Decode(s, in_ - i, e)
    {
      OneMore(s, in_, four, i);
      four := four[i := s[in_]];
      i := i + 1;
      in_ := in_ + 1;
      if i == 4 {
        ghost var before := todo;
        var three := Decoded(four);
        GroupOf(s, in_, e, four, three);
        todo := Decode(s, in_, e);
        Regroup(ret, three, todo, before);
        ret := ret + three;
        i := 0;
      }
    }
    var tail := DecodeTail(four, i);
    RestIs(s, e, four, i, tail);
    ret := ret + tail;
  }

  /** One more character is read. */
  lemma OneMore(s: seq<Byte>, k: nat, four: seq<Byte>, i: nat)
    requires k < |s| && |four| == 4 && i < 4 && Pending(s, k, four, i) && Counts(s[k])
    ensures i < 3 ==> Pending(s, k + 1, four[i := s[k]], i + 1)
    ensures i == 3 ==> Pending(s, k, four[i := s[k]], 3)
    ensures End(s, k) == End(s, k + 1)
  {
  }

  lemma {:induction false} GroupOf(s: seq<Byte>, k: nat, e: nat, four: seq<Byte>, three: seq<Byte>)
    requires |four| == 4 && 4 <= k <= e <= |s| && Pending(s, k - 1, four, 3) && four[3] == s[k - 1]
    requires three == Triple(Index(four[0]), Index(four[1]), Index(four[2]), Index(four[3]))
    ensures Decode(s, k - 4, e) == three + Decode(s, k, e)
  {
  }

  lemma RestIs(s: seq<Byte>, e: nat, four: seq<Byte>, i: nat, tail: seq<Byte>)
    requires |four| == 4 && i < 4 && e <= |s| && Pending(s, e, four, i) && tail == RestOf(four, i)
    ensures tail == Decode(s, e - i, e)
  {
  }

  function RestOf(buffer: seq<Byte>, n: nat): seq<Byte>
    requires |buffer| == 4 && n < 4
  {
    if n <= 1 then []
    else if n == 2 then [High(Index(buffer[0]), Index(buffer[1]))]
    else [High(Index(buffer[0]), Index(buffer[1])), Middle(Index(buffer[1]), Index(buffer[2]))]
  }

  /** One to three characters are filled up with zeros; the bytes that zeros would reach are left out. */
  method DecodeTail(buffer: seq<Byte>, n: nat) returns (ret: seq<Byte>)
    requires |buffer| == 4 && n < 4
    ensures ret == RestOf(buffer, n)
  {
    if n == 0 {
      return [];
    }
    var four, j := buffer, n;
    while j < 4
      invariant n <= j <= 4 && |four| == 4 && forall m | 0 <= m < 4 :: four[m] == if n <= m < j then 0 else buffer[m]
    {
      four := four[j := 0];
      j := j + 1;
    }
    var three := Decoded(four);
    ret := three[..n - 1];
  }

  method Decoded(buffer: seq<Byte>) returns (three: seq<Byte>)
    requires |buffer| == 4
    ensures three == Triple(Index(buffer[0]), Index(buffer[1]), Index(buffer[2]), Index(buffer[3])) && |three| == 3
  {
    var four, i := buffer, 0;
    while i < 4
      invariant 0 <= i <= 4 && |four| == 4
      invariant forall k | 0 <= k < 4 :: four[k] == if k < i then Index(buffer[k]) else buffer[k]
    {
      four := four[i := FindBase64CharIndex(four[i])];
      i := i + 1;
    }
    three := [High(four[0], four[1]), Middle(four[1], four[2]), Low(four[2], four[3])];
  }

  // ------------------------------------------------------------------- properties

  /** Every sequence of bytes comes back. */
  lemma {:induction false} RoundTrip(x: seq<Byte>)
    ensures var s := Encode(x, 0); Decode(s, 0, End(s, 0)) == x
  {
    var s := Encode(x, 0);
    assert s[0..] == s && x[0..] == x;
    EncodedEnd(x, 0, s, 0);
    BackFrom(x, 0, s, 0);
  }

  /** How many characters the bytes from k on have, not counting padding. */
  function CharsFor(n: nat): nat {
    n / 3 * 4 + if n % 3 == 0 then 0 else n % 3 + 1
  }

  lemma {:induction false} EncodedEnd(x: seq<Byte>, k: nat, s: seq<Byte>, at: nat)
    requires k <= |x| && at <= |s| && s[at..] == Encode(x, k)
    ensures End(s, at) == at + CharsFor(|x| - k)
    decreases |x| - k
  {
    if k + 3 <= |x| {
      FourOn(x, k, s, at);
      EncodedEnd(x, k + 3, s, at + 4);
      assert CharsFor(|x| - k) == 4 + CharsFor(|x| - (k + 3));
    } else if k < |x| {
      TailChars(x, k, s, at);
    }
  }

  /** A whole group stands at `at`, and the rest four on. */
  lemma FourOn(x: seq<Byte>, k: nat, s: seq<Byte>, at: nat)
    requires k + 3 <= |x| && at <= |s| && s[at..] == Encode(x, k)
    ensures at + 4 <= |s| && s[at + 4..] == Encode(x, k + 3)
    ensures Index(s[at]) == First(x[k]) && Index(s[at + 1]) == Second(x[k], x[k + 1])
    ensures Index(s[at + 2]) == Third(x[k + 1], x[k + 2]) && Index(s[at + 3]) == Fourth(x[k + 2])
    ensures Counts(s[at]) && Counts(s[at + 1]) && Counts(s[at + 2]) && Counts(s[at + 3])
    ensures End(s, at) == End(s, at + 4)
  {
    var t := s[at..];
    assert s[at] == t[0] && s[at + 1] == t[1] && s[at + 2] == t[2] && s[at + 3] == t[3] && s[at + 4..] == t[4..];
    IndexOfChar(First(x[k]));
    IndexOfChar(Second(x[k], x[k + 1]));
    IndexOfChar(Third(x[k + 1], x[k + 2]));
    IndexOfChar(Fourth(x[k + 2]));
    assert End(s, at) == End(s, at + 1) && End(s, at + 1) == End(s, at + 2);
    assert End(s, at + 2) == End(s, at + 3) && End(s, at + 3) == End(s, at + 4);
  }

  lemma TailChars(x: seq<Byte>, k: nat, s: seq<Byte>, at: nat)
    requires k < |x| < k + 3 && at <= |s| && s[at..] == Encode(x, k)
    ensures at + 4 == |s| && Index(s[at]) == First(x[k])
    ensures k + 1 == |x| ==> Index(s[at + 1]) == Second(x[k], 0) && End(s, at) == at + 2
    ensures k + 2 == |x| ==>
      Index(s[at + 1]) == Second(x[k], x[k + 1]) && Index(s[at + 2]) == Third(x[k + 1], 0) && End(s, at) == at + 3
  {
    var t := s[at..];
    assert s[at] == t[0] && s[at + 1] == t[1] && s[at + 2] == t[2] && s[at + 3] == t[3];
    IndexOfChar(First(x[k]));
    if k + 1 == |x| {
      IndexOfChar(Second(x[k], 0));
      assert End(s, at) == End(s, at + 1) && End(s, at + 1) == End(s, at + 2);
    } else {
      IndexOfChar(Second(x[k], x[k + 1]));
      IndexOfChar(Third(x[k + 1], 0));
      assert End(s, at) == End(s, at + 1) && End(s, at + 1) == End(s, at + 2) && End(s, at + 2) == End(s, at + 3);
    }
  }

  lemma {:induction false} BackFrom(x: seq<Byte>, k: nat, s: seq<Byte>, at: nat)
    requires k <= |x| && at <= |s| && s[at..] == Encode(x, k) && End(s, at) == at + CharsFor(|x| - k)
    ensures Decode(s, at, End(s, at)) == x[k..]
    decreases |x| - k
  {
    if k + 3 <= |x| {
      FourOn(x, k, s, at);
      EncodedEnd(x, k + 3, s, at + 4);
      BackFrom(x, k + 3, s, at + 4);
      GroupBack(x[k], x[k + 1], x[k + 2], s[at], s[at + 1], s[at + 2], s[at + 3]);
      assert x[k..] == [x[k], x[k + 1], x[k + 2]] + x[k + 3..];
    } else if k + 2 == |x| {
      TailChars(x, k, s, at);
      HighBack(x[k], x[k + 1]);
      MiddleBack(x[k], x[k + 1], 0);
    } else if k + 1 == |x| {
      TailChars(x, k, s, at);
      HighBack(x[k], 0);
    }
  }

  lemma GroupBack(a: Byte, b: Byte, c: Byte, s: Byte, t: Byte, u: Byte, v: Byte)
    requires Index(s) == First(a) && Index(t) == Second(a, b) && Index(u) == Third(b, c) && Index(v) == Fourth(c)
    ensures Triple(Index(s), Index(t), Index(u), Index(v)) == [a, b, c]
  {
    HighBack(a, b);
    MiddleBack(a, b, c);
    LowBack(b, c);
  }

  /** The alphabet, and the padding. */
  lemma Alphabet(i: Byte)
    requires i < 64
    ensures i < 26 ==> CharAt(i) == "ABCDEFGHIJKLMNOPQRSTUVWXYZ"[i] as int
    ensures 26 <= i < 52 ==> CharAt(i) == "abcdefghijklmnopqrstuvwxyz"[i - 26] as int
    ensures 52 <= i < 62 ==> CharAt(i) == "0123456789"[i - 52] as int
    ensures CharAt(62) == '+' as int && CharAt(63) == '/' as int && PAD == '=' as int
  {
  }

  /** The number that characters stand for, six bits each, first to last. */
  function Number(s: seq<Byte>): int {
    if s == [] then 0 else Number(s[..|s| - 1]) * 64 + Index(s[|s| - 1])
  }

  lemma {:induction false} NumberOfFour(s: seq<Byte>)
    requires |s| == 4
    ensures Number(s) == ((Index(s[0]) as int * 64 + Index(s[1])) * 64 + Index(s[2])) * 64 + Index(s[3])
    ensures Number(s[..3]) == (Index(s[0]) as int * 64 + Index(s[1])) * 64 + Index(s[2])
    ensures Number(s[..2]) == Index(s[0]) as int * 64 + Index(s[1])
  {
    assert s[..3][..2] == s[..2] && s[..2][..1] == s[..1] && s[..1][..0] == [];
    assert Number(s[..1]) == Index(s[0]);
    assert Number(s[..2]) == Number(s[..1]) * 64 + Index(s[1]) && Number(s[..3]) == Number(s[..2]) * 64 + Index(s[2]);
    assert Number(s) == Number(s[..3]) * 64 + Index(s[3]);
  }

  /** Section 4 of RFC 4648: the four characters of a group have the 24 bits of its three bytes; of a last group of two
      bytes three characters have the bits, with two zeros, and of one byte two, with four; padding fills it up. */
  lemma {:induction false} GroupsHaveTheBits(x: seq<Byte>, k: nat)
    requires k < |x|
    ensures var s := Encode(x, k);
      && |s| >= 4
      && (k + 3 <= |x| ==>
            Number(s[..4]) == (x[k] as int * 256 + x[k + 1]) * 256 + x[k + 2] && s[4..] == Encode(x, k + 3))
      && (k + 2 == |x| ==> Number(s[..3]) == (x[k] as int * 256 + x[k + 1]) * 4 && s[3..] == [PAD])
      && (k + 1 == |x| ==> Number(s[..2]) == x[k] as int * 16 && s[2..] == [PAD, PAD])
  {
    var s := Encode(x, k);
    if k + 3 <= |x| {
      FourOn(x, k, s, 0);
      GroupBits(x[k], x[k + 1], x[k + 2]);
    } else {
      TailChars(x, k, s, 0);
      TailBits(x[k], if k + 1 < |x| then x[k + 1] else 0);
    }
    NumberOfFour(s[..4]);
    assert s[..4][..3] == s[..3] && s[..4][..2] == s[..2] && s[0..] == s;
  }

  lemma GroupBits(a: Byte, b: Byte, c: Byte)
    ensures ((First(a) as int * 64 + Second(a, b)) * 64 + Third(b,
      c)) * 64 + Fourth(c) == (a as int * 256 + b) * 256 + c
  {
  }

  lemma TailBits(a: Byte, b: Byte)
    ensures (First(a) as int * 64 + Second(a, b)) * 64 + Third(b, 0) == (a as int * 256 + b) * 4
    ensures First(a) as int * 64 + Second(a, 0) == a as int * 16
  {
  }

  /** The text is four characters for every three bytes, the last three counted whole. */
  lemma {:induction false} EncodedLength(x: seq<Byte>, k: nat)
    requires k <= |x|
    ensures |Encode(x, k)| == 4 * ((|x| - k + 2) / 3)
    decreases |x| - k
  {
    if k + 3 <= |x| { EncodedLength(x, k + 3); }
  }

  /** Whatever text is read, three bytes come from every four characters. */
  lemma {:induction false} DecodedLength(s: seq<Byte>, k: nat, e: nat)
    requires k <= e <= |s|
    ensures |Decode(s, k, e)| == 3 * (e - k) / 4
    decreases e - k
  {
    if k + 4 <= e { DecodedLength(s, k + 4, e); }
  }
}
