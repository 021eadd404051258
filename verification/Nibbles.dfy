/** Nibble strings: the keys of the trie, and the longest common prefix of two of them. */
module Nibbles {
  type Nibble = n: nat | n < 16
  type Path = seq<Nibble>

  /** Length of the longest common prefix. */
  function Shared(a: Path, b: Path): (n: nat)
    ensures n <= |a| && n <= |b|
  {
    if a == [] || b == [] || a[0] != b[0] then 0 else 1 + Shared(a[1..], b[1..])
  }

  lemma {:induction false} SharedSpec(a: Path, b: Path)
    ensures var n := Shared(a, b); a[..n] == b[..n] && (n < |a| && n < |b| ==> a[n] != b[n])
  {
    if a != [] && b != [] && a[0] == b[0] {
      var m := Shared(a[1..], b[1..]);
      SharedSpec(a[1..], b[1..]);
      assert a[..m + 1] == [a[0]] + a[1..][..m];
      assert b[..m + 1] == [b[0]] + b[1..][..m];
    }
  }

  /** Lexicographic order of byte strings, which is the order of their nibbles. */
  predicate Less(a: Path, b: Path) {
    var n := Shared(a, b);
    n < |b| && (n == |a| || a[n] < b[n])
  }

  /** What follows a prefix. */
  lemma PrefixSplit(p: Path, q: Path, k: Path)
    requires p + q <= k
    ensures p <= k && q <= k[|p|..] && k[|p|..][|q|..] == k[|p| + |q|..]
  {
    assert k[..|p|] == p;
    assert k[|p|..][..|q|] == q;
  }

  lemma PrefixBelow(p: Path, a: Path, b: Path)
    ensures p + a <= p + b <==> a <= b
    ensures p + a == p + b <==> a == b
  {
    assert (p + a)[|p|..] == a && (p + b)[|p|..] == b;
    if a <= b { assert b == a + b[|a|..]; assert p + b == (p + a) + b[|a|..]; }
    if p + a <= p + b { assert b[..|a|] == (p + b)[..|p + a|][|p|..]; }
  }
}
