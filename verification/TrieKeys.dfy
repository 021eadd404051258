/** Families of keys of which none begins another, and the trie of a list. */
module TrieKeys {
  import opened Basics
  import opened Nibbles
  import opened MerkleTrie
  import opened TrieDelete
  import opened TrieCodec
  import opened TrieHash
  import opened TrieRuns
  import opened HexPrefix

  // ------------------------------------------------------------------ fixed width

  /** Keys of one width are prefix-free, so every removal among them is safe. */
  lemma FixedWidthIsPrefixFree(ops: seq<Op>, width: nat)
    requires forall i | 0 <= i < |ops| :: |ops[i].key| == width
    ensures PairwisePrefixFree(ops)
  {
    forall i, j | 0 <= i < |ops| && 0 <= j < |ops| && ops[i].key <= ops[j].key ensures ops[i].key == ops[j].key {
      assert ops[j].key[..width] == ops[j].key;
    }
  }

  // ------------------------------------------------------------- numbers as keys

  /** The shortest big-endian form. */
  function BigEndian(i: nat): seq<Byte> {
    if i == 0 then [] else BigEndian(i / 256) + [i % 256]
  }

  function Value256(b: seq<Byte>): nat {
    if b == [] then 0 else Value256(b[..|b| - 1]) * 256 + b[|b| - 1]
  }

  lemma {:induction false} BigEndianBack(i: nat)
    ensures Value256(BigEndian(i)) == i
  {
    if i > 0 {
      BigEndianBack(i / 256);
      assert BigEndian(i)[..|BigEndian(i)| - 1] == BigEndian(i / 256);
    }
  }

  lemma FourBytes(i: nat)
    requires i < U32
    ensures |BigEndian(i)| <= 4
  {
    assert i / 256 < 0x100_0000 && i / 256 / 256 < 0x1_0000 && i / 256 / 256 / 256 < 0x100 &&
      i / 256 / 256 / 256 / 256 == 0;
    var a, b, c := i / 256, i / 256 / 256, i / 256 / 256 / 256;
    assert |BigEndian(c)| <= 1 && |BigEndian(b)| <= 2 && |BigEndian(a)| <= 3;
  }

  /** A number in recursive length prefix form (Appendix B of the Ethereum Yellow Paper). */
  function RlpOf(i: nat): seq<Byte>
    requires i < U32
  {
    FourBytes(i);
    if i == 0 then [0x80] else if i < 0x80 then [i] else [0x80 + |BigEndian(i)|] + BigEndian(i)
  }

  /** What a string in recursive length prefix form holds, for strings of up to 55 bytes: a byte below 0x80 is itself,
      0x80 + n is followed by n bytes, and a single byte below 0x80 has the first form only. */
  function ReadString(b: seq<Byte>): Option<seq<Byte>> {
    if b == [] then None
    else if b[0] < 0x80 then if |b| == 1 then Some(b) else None
    else if b[0] <= 0xb7 && |b| == 1 + (b[0] - 0x80) && !(|b| == 2 && b[1] < 0x80) then Some(b[1..])
    else None
  }

  /** The form of a number is the one string that reads back as its shortest big-endian bytes. */
  lemma RlpReadsBack(i: nat, b: seq<Byte>)
    requires i < U32
    ensures b == RlpOf(i) <==> ReadString(b) == Some(BigEndian(i))
  {
    FourBytes(i);
    LeadingByte(i);
    if ReadString(b) == Some(BigEndian(i)) && b[0] >= 0x80 {
      assert b == [b[0]] + b[1..];
    }
  }

  /** Numbers below 0x80, and no others, are a single byte below 0x80. */
  lemma LeadingByte(i: nat)
    ensures BigEndian(i) == [] <==> i == 0
    ensures |BigEndian(i)| == 1 ==> BigEndian(i)[0] == i
    ensures 0 < i < 256 ==> BigEndian(i) == [i]
  {
    if i >= 256 { assert BigEndian(i / 256) != []; }
  }

  /** The first byte says how long the form is, so none begins another. */
  lemma RlpIsPrefixFree(i: nat, j: nat)
    requires i < U32 && j < U32 && RlpOf(i) <= RlpOf(j)
    ensures i == j
  {
    var x, y := RlpOf(i), RlpOf(j);
    FourBytes(i);
    FourBytes(j);
    assert x[0] == y[0];
    if i >= 0x80 && j >= 0x80 {
      assert x == y[..|x|] == y;
      assert BigEndian(i) == x[1..] == y[1..] == BigEndian(j);
      BigEndianBack(i);
      BigEndianBack(j);
    }
  }

  function Key(j: nat): Path
    requires j < U32
  {
    NibblesOf(RlpOf(j))
  }

  lemma NibblesPrefix(a: seq<Byte>, b: seq<Byte>)
    requires NibblesOf(a) <= NibblesOf(b)
    ensures a <= b
  {
    forall k | 0 <= k < |a| ensures a[k] == b[k] {
      assert NibblesOf(a)[2 * k] == NibblesOf(b)[2 * k] && NibblesOf(a)[2 * k + 1] == NibblesOf(b)[2 * k + 1];
    }
  }

  lemma KeysArePrefixFree(i: nat, j: nat)
    requires i < U32 && j < U32 && Key(i) <= Key(j)
    ensures i == j
  {
    NibblesPrefix(RlpOf(i), RlpOf(j));
    RlpIsPrefixFree(i, j);
  }

  /** Numbered keys are prefix-free, so every removal among them is safe. */
  lemma NumberedIsPrefixFree(ops: seq<Op>, numbers: seq<nat>)
    requires |numbers| == |ops| && forall i | 0 <= i < |ops| :: numbers[i] < U32 && ops[i].key == Key(numbers[i])
    ensures PairwisePrefixFree(ops)
  {
    forall i, j | 0 <= i < |ops| && 0 <= j < |ops| && ops[i].key <= ops[j].key ensures ops[i].key == ops[j].key {
      KeysArePrefixFree(numbers[i], numbers[j]);
    }
  }

  // ------------------------------------------------------------------- the order

  lemma {:induction false} LessTotal(a: Path, b: Path)
    ensures a == b || Less(a, b) || Less(b, a)
  {
    if a != [] && b != [] && a[0] == b[0] {
      LessTotal(a[1..], b[1..]);
      assert a == [a[0]] + a[1..] && b == [b[0]] + b[1..];
    }
  }

  lemma {:induction false} LessTransitive(a: Path, b: Path, c: Path)
    requires Less(a, b) && Less(b, c)
    ensures Less(a, c)
  {
    if a != [] && b != [] && c != [] && a[0] == b[0] == c[0] {
      LessTransitive(a[1..], b[1..], c[1..]);
    }
  }

  // ------------------------------------------------------------- the trie of a list

  /** The pairs of a map with one more, in order: what assigning to the ordered map does. */
  method Put(s: seq<Pair>, p: Pair) returns (r: seq<Pair>)
    requires Sorted(s) && p.value != [] && forall i | 0 <= i < |s| :: s[i].key != p.key
    ensures Sorted(r) && |r| == |s| + 1 && forall x :: x in r <==> x in s || x == p
  {
    var k := 0;
    while k < |s| && Less(s[k].key, p.key)
      invariant k <= |s| && forall i | 0 <= i < k :: Less(s[i].key, p.key)
    {
      k := k + 1;
    }
    forall i | k <= i < |s| ensures Less(p.key, s[i].key) {
      LessTotal(s[k].key, p.key);
      if i > k {
        assert Less(s[k].key, s[i].key);
        LessTransitive(p.key, s[k].key, s[i].key);
      }
    }
    r := s[..k] + [p] + s[k..];
    Inserted1(s, p, k);
  }

  lemma Inserted1(s: seq<Pair>, p: Pair, k: nat)
    requires k <= |s| && Sorted(s) && p.value != []
    requires (forall i | 0 <= i < k :: Less(s[i].key, p.key)) && forall i | k <= i < |s| :: Less(p.key, s[i].key)
    ensures var r := s[..k] + [p] + s[k..]; Sorted(r) && forall x :: x in r <==> x in s || x == p
  {
    var r := s[..k] + [p] + s[k..];
    assert s == s[..k] + s[k..];
    forall i | 0 <= i < |r| ensures r[i].value != [] { InsertedAt(s, p, k, i); }
    forall i, j | 0 <= i < j < |r| ensures Less(r[i].key, r[j].key) {
      InsertedAt(s, p, k, i);
      InsertedAt(s, p, k, j);
    }
  }

  lemma InsertedAt(s: seq<Pair>, p: Pair, k: nat, i: nat)
    requires k <= |s| && i <= |s|
    ensures (s[..k] + [p] + s[k..])[i] == if i < k then s[i] else if i == k then p else s[i - 1]
  {
  }

  /** k is the nibbles of the string that reads as j. */
  ghost predicate IsKeyOf(k: Path, j: nat) {
    exists b :: ReadString(b) == Some(BigEndian(j)) && NibblesOf(b) == k
  }

  lemma KeyIsKey(k: Path, j: nat)
    requires j < U32
    ensures IsKeyOf(k, j) <==> k == Key(j)
  {
    RlpReadsBack(j, RlpOf(j));
    if b :| ReadString(b) == Some(BigEndian(j)) && NibblesOf(b) == k { RlpReadsBack(j, b); }
  }

  /** t holds the list: item j under the form of j, and nothing else. */
  ghost predicate HoldsList(t: Trie, data: seq<Value>)
    requires Wf(t)
  {
    && (forall j, k | 0 <= j < |data| && IsKeyOf(k, j) :: Lookup(t, k) == data[j])
    && forall k | Stored(t, k) :: exists j | 0 <= j < |data| :: IsKeyOf(k, j)
  }

  /** m holds the first j items. */
  ghost predicate Listed(m: seq<Pair>, data: seq<Value>, j: nat)
    requires j <= |data| <= U32
  {
    forall x :: x in m <==> exists i | 0 <= i < j :: x == Pair(Key(i), data[i])
  }

  lemma KeyIsNew(m: seq<Pair>, data: seq<Value>, j: nat)
    requires j < |data| <= U32 && Listed(m, data, j)
    ensures forall i | 0 <= i < |m| :: m[i].key != Key(j)
  {
    forall i | 0 <= i < |m| ensures m[i].key != Key(j) {
      assert m[i] in m;
      var n :| 0 <= n < j && m[i] == Pair(Key(n), data[n]);
      if Key(n) == Key(j) { KeysArePrefixFree(n, j); }
    }
  }

  lemma ListedMore(had: seq<Pair>, m: seq<Pair>, data: seq<Value>, j: nat)
    requires j < |data| <= U32 && Listed(had, data, j)
    requires forall x :: x in m <==> x in had || x == Pair(Key(j), data[j])
    ensures Listed(m, data, j + 1)
  {
  }

  lemma KeysAreShort(m: seq<Pair>, data: seq<Value>)
    requires |data| <= U32 && Listed(m, data, |data|)
    ensures forall x | x in m :: |x.key| <= 10
  {
    forall x | x in m ensures |x.key| <= 10 {
      var i :| 0 <= i < |data| && x == Pair(Key(i), data[i]);
      FourBytes(i);
    }
  }

  /** The root of a list is that of every normal-form trie that holds it, however it came about. */
  method OrderedTrieRoot(c: Codec, data: seq<Value>) returns (h: Hash)
    requires c.Sound() && |data| <= U32 && forall j | 0 <= j < |data| :: data[j] != []
    ensures forall t :: Wf(t) && Normal(t) && HoldsList(t, data) ==> h == c.sha3(Enc(c, t))
  {
    var m: seq<Pair> := [];
    var j := 0;
    while j < |data|
      invariant j <= |data| && Sorted(m)
      invariant Listed(m, data, j)
    {
      KeyIsNew(m, data, j);
      ghost var had := m;
      m := Put(m, Pair(Key(j), data[j]));
      ListedMore(had, m, data, j);
      j := j + 1;
    }
    KeysAreShort(m, data);
    h := Hash256(c, m, 10);
    forall t | Wf(t) && Normal(t) && HoldsList(t, data) ensures h == c.sha3(Enc(c, t)) {
      ListPairs(t, m, data);
    }
  }

  lemma ListPairs(t: Trie, m: seq<Pair>, data: seq<Value>)
    requires Wf(t) && |data| <= U32 && HoldsList(t, data)
    requires Listed(m, data, |data|)
    ensures SamePairs(t, m)
  {
    forall i | 0 <= i < |m| ensures Lookup(t, m[i].key) == m[i].value {
      assert m[i] in m;
      var j :| 0 <= j < |data| && m[i] == Pair(Key(j), data[j]);
      KeyIsKey(Key(j), j);
    }
    forall k | Stored(t, k) ensures exists i | 0 <= i < |m| :: m[i].key == k {
      var j :| 0 <= j < |data| && IsKeyOf(k, j);
      KeyIsKey(k, j);
      assert Pair(Key(j), data[j]) in m;
    }
  }
}
