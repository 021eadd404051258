/** A set of numbers inside a ground range, kept as an ordered map of disjoint ranges. */
module RangeMask {
  import opened Basics

  /** [first, second) */
  datatype Range = Range(first: int, second: int)

  predicate In(rs: seq<Range>, x: int) {
    exists k | 0 <= k < |rs| :: rs[k].first <= x < rs[k].second
  }

  /** Non-empty ranges inside [lo, hi), in order, with a strict gap between any two. */
  ghost predicate Proper(rs: seq<Range>, lo: int, hi: int) {
    && (forall k | 0 <= k < |rs| :: lo <= rs[k].first < rs[k].second <= hi)
    && forall j, k | 0 <= j < k < |rs| :: rs[j].second < rs[k].first
  }

  /** The entry after the last one whose key is at most i: `upper_bound`. */
  method UpperBound(rs: seq<Range>, i: int) returns (k: nat)
    requires forall j, k | 0 <= j < k < |rs| :: rs[j].first < rs[k].first
    ensures k <= |rs| && (forall j | 0 <= j < k :: rs[j].first <= i) && forall j | k <= j < |rs| :: rs[j].first > i
  {
    k := 0;
    while k < |rs| && rs[k].first <= i
      invariant k <= |rs| && forall j | 0 <= j < k :: rs[j].first <= i
    {
      k := k + 1;
    }
  }

  // ------------------------------------------------------- edits of the ordered map

  /** rs with entries a..b replaced by one range. */
  function Splice(rs: seq<Range>, a: nat, b: nat, r: Range): seq<Range>
    requires a <= b <= |rs|
  {
    rs[..a] + [r] + rs[b..]
  }

  lemma SpliceProper(rs: seq<Range>, a: nat, b: nat, r: Range, lo: int, hi: int)
    requires Proper(rs, lo, hi) && a <= b <= |rs| && lo <= r.first < r.second <= hi
    requires (a > 0 ==> rs[a - 1].second < r.first) && (b < |rs| ==> r.second < rs[b].first)
    ensures Proper(Splice(rs, a, b, r), lo, hi)
  {
    var s := Splice(rs, a, b, r);
    forall k | 0 <= k < |s| ensures lo <= s[k].first < s[k].second <= hi { SpliceAt(rs, a, b, r, k); }
    forall j, k | 0 <= j < k < |s| ensures s[j].second < s[k].first { SpliceApart(rs, a, b, r, lo, hi, j, k); }
  }

  lemma SpliceAt(rs: seq<Range>, a: nat, b: nat, r: Range, k: nat)
    requires a <= b <= |rs| && k < |Splice(rs, a, b, r)|
    ensures Splice(rs, a, b, r)[k] == if k < a then rs[k] else if k == a then r else rs[k - a - 1 + b]
  {
  }

  lemma SpliceApart(rs: seq<Range>, a: nat, b: nat, r: Range, lo: int, hi: int, j: nat, k: nat)
    requires Proper(rs, lo, hi) && a <= b <= |rs| && r.first < r.second && j < k < |Splice(rs, a, b, r)|
    requires (a > 0 ==> rs[a - 1].second < r.first) && (b < |rs| ==> r.second < rs[b].first)
    ensures Splice(rs, a, b, r)[j].second < Splice(rs, a, b, r)[k].first
  {
    SpliceAt(rs, a, b, r, j);
    SpliceAt(rs, a, b, r, k);
  }

  lemma {:induction false} SpliceIn(rs: seq<Range>, a: nat, b: nat, r: Range, x: int)
    requires a <= b <= |rs|
    ensures In(Splice(rs, a, b, r), x) <==>
      r.first <= x < r.second || In(rs[..a], x) || In(rs[b..], x)
    ensures In(rs, x) <==> In(rs[..a], x) || In(rs[a..b], x) || In(rs[b..], x)
  {
    var s := Splice(rs, a, b, r);
    assert s[a] == r;
    forall k | 0 <= k < a ensures s[k] == rs[..a][k] == rs[k] {}
    forall k | 0 <= k < |rs| - b ensures s[a + 1 + k] == rs[b..][k] == rs[b + k] {}
    forall k | 0 <= k < b - a ensures rs[a..b][k] == rs[a + k] {}
    if k :| 0 <= k < |rs| && rs[k].first <= x < rs[k].second {
      if k < a { assert rs[..a][k] == rs[k]; }
      else if k < b { assert rs[a..b][k - a] == rs[k]; }
      else { assert rs[b..][k - b] == rs[k]; }
    }
    if k :| 0 <= k < |s| && s[k].first <= x < s[k].second {
      if k > a { assert s[k] == rs[b..][k - a - 1]; }
    }
  }

  /** Equal sets have equal representations. */
  lemma {:induction false} Canonical(a: seq<Range>, b: seq<Range>, lo: int, hi: int)
    requires Proper(a, lo, hi) && Proper(b, lo, hi) && forall x :: In(a, x) <==> In(b, x)
    ensures a == b
  {
    if a == [] || b == [] {
      if a != [] { assert In(a, a[0].first); }
      if b != [] { assert In(b, b[0].first); }
    } else {
      FirstsAgree(a, b, lo, hi);
      FirstsAgree(b, a, lo, hi);
      forall x ensures In(a[1..], x) <==> In(b[1..], x) {
        TailIn(a, lo, hi, x);
        TailIn(b, lo, hi, x);
        assert In(a, x) <==> In(b, x);
      }
      Canonical(a[1..], b[1..], lo, hi);
    }
  }

  lemma FirstsAgree(a: seq<Range>, b: seq<Range>, lo: int, hi: int)
    requires Proper(a, lo, hi) && Proper(b, lo, hi) && a != [] && b != []
    requires forall x :: In(a, x) <==> In(b, x)
    ensures a[0].first >= b[0].first
    ensures a[0].first == b[0].first ==> a[0].second >= b[0].second
  {
    assert In(a, a[0].first);
    assert In(b, a[0].second) <==> In(a, a[0].second);
  }

  lemma TailIn(a: seq<Range>, lo: int, hi: int, x: int)
    requires Proper(a, lo, hi) && a != []
    ensures In(a[1..], x) <==> In(a, x) && x >= a[0].second
    ensures Proper(a[1..], lo, hi)
  {
    if k :| 0 <= k < |a| && a[k].first <= x < a[k].second {
      if k > 0 { assert a[1..][k - 1] == a[k]; }
    }
    if k :| 0 <= k < |a| - 1 && a[1..][k].first <= x < a[1..][k].second {
      assert a[k + 1] == a[1..][k];
    }
  }

  /** A range of the map is in the set. */
  lemma Holds(rs: seq<Range>, k: nat)
    requires k < |rs|
    ensures forall x | rs[k].first <= x < rs[k].second :: In(rs, x)
  {
  }

  // --------------------------------------------------------------------- the mask

  class Mask {
    var all: Range
    var ranges: seq<Range>

    constructor (all: Range)
      requires 0 <= all.first <= all.second < U32
      ensures Valid() && this.all == all && ranges == []
    {
      this.all := all;
      ranges := [];
    }

    ghost predicate Valid()
      reads this
    {
      0 <= all.first <= all.second < U32 && Proper(ranges, all.first, all.second)
    }

    /** Add the range m, which has to lie in the ground range. */
    method UnionWithRange(m: Range)
      requires Valid() && (m.first < m.second ==> all.first <= m.first && m.second <= all.second)
      modifies this`ranges
      ensures Valid()
      ensures forall x :: In(ranges, x) <==> In(old(ranges), x) || m.first <= x < m.second
    {
      var i := m.first;
      while i < m.second
        invariant m.first <= i && Valid()
        invariant forall x :: In(ranges, x) <==> In(old(ranges), x) || (m.first <= x < m.second && x < i)
      {
        assert all.first <= i < all.second;
        var done;
        done, i := Absorb(i, m);
        if done { break; }
      }
    }

    /** One round of `unionWith`: what m has from i to `next` is in. A range that begins at i is not
        after i, so the source's branch for it has no counterpart. */
    method Absorb(i: int, m: Range) returns (done: bool, next: int)
      requires Valid() && m.first <= i < m.second && all.first <= m.first && m.second <= all.second
      modifies this`ranges
      ensures Valid() && next > i && (done ==> next >= m.second)
      ensures forall x :: In(ranges, x) <==> In(old(ranges), x) || (i <= x < m.second && x < next)
    {
      var k := UpperBound(ranges, i);
      if k == 0 || ranges[k - 1].second < i {
        done, next := Reach(k, k, i, i, m);
      } else if ranges[k - 1].second == i {
        Holds(ranges, k - 1);
        done, next := Reach(k - 1, k, ranges[k - 1].first, i, m);
      } else {
        Holds(ranges, k - 1);
        done, next := false, ranges[k - 1].second;
      }
    }

    /** The entries a..k, and the one after them if m reaches it, become one range that begins at `from`. */
    method Reach(a: nat, k: nat, from: int, i: int, m: Range) returns (done: bool, next: int)
      requires Valid() && all.first <= m.first <= i < m.second <= all.second
      requires a <= k <= |ranges| && k - a <= 1 && (k < |ranges| ==> i < ranges[k].first)
      requires if a == k then from == i && (k > 0 ==> ranges[a - 1].second < i)
        else from == ranges[a].first && ranges[a].second == i
      modifies this`ranges
      ensures Valid() && next > i && (done ==> next >= m.second)
      ensures forall x :: In(ranges, x) <==> In(old(ranges), x) || (i <= x < m.second && x < next)
    {
      if a < k { Holds(ranges, a); }
      if k == |ranges| || ranges[k].first > m.second {
        done, next := true, m.second;
        Replace(a, k, Range(from, m.second));
      } else {
        Holds(ranges, k);
        done, next := false, ranges[k].second;
        Replace(a, k + 1, Range(from, next));
      }
    }

    /** Entries a..b of the map give way to one range. */
    method Replace(a: nat, b: nat, r: Range)
      requires Valid() && a <= b <= |ranges| && b - a <= 2 && all.first <= r.first < r.second <= all.second
      requires (a > 0 ==> ranges[a - 1].second < r.first) && (b < |ranges| ==> r.second < ranges[b].first)
      requires forall j | a <= j < b :: r.first <= ranges[j].first && ranges[j].second <= r.second
      modifies this`ranges
      ensures Valid()
      ensures forall x :: In(ranges, x) <==> In(old(ranges), x) || r.first <= x < r.second
    {
      SpliceProper(ranges, a, b, r, all.first, all.second);
      forall x ensures In(Splice(ranges, a, b, r), x) <==> In(ranges, x) || r.first <= x < r.second {
        SpliceIn(ranges, a, b, r, x);
        assert forall j | 0 <= j < b - a :: ranges[a..b][j] == ranges[a + j];
      }
      ranges := Splice(ranges, a, b, r);
    }

    /** Union with another mask; the ground range becomes the hull of the two. */
    method UnionWith(m: Mask)
      requires Valid() && m.Valid()
      modifies this
      ensures Valid()
      ensures all == Hull(old(all), old(m.all))
      ensures forall x :: In(ranges, x) <==> In(old(ranges), x) || In(old(m.ranges), x)
    {
      all := Hull(all, m.all);
      var k := 0;
      while k < |m.ranges|
        invariant k <= |m.ranges| && Valid() && all == Hull(old(all), old(m.all)) && m.ranges == old(m.ranges)
        invariant forall x :: In(ranges, x) <==> In(old(ranges), x) || In(m.ranges[..k], x)
      {
        forall x ensures In(m.ranges[..k + 1], x) <==>
          In(m.ranges[..k], x) || m.ranges[k].first <= x < m.ranges[k].second {
          Snoc(m.ranges, k, x);
        }
        UnionWithRange(m.ranges[k]);
        if m == this { Canonical(ranges, old(ranges), all.first, all.second); }
        k := k + 1;
      }
      assert m.ranges[..k] == m.ranges;
    }

    /** The complement relative to the ground range. */
    method Inverted() returns (r: Mask)
      requires Valid()
      ensures fresh(r) && r.Valid() && r.all == all && Complement(ranges, r.ranges, all)
    {
      r := new Mask(all);
      r.ranges := Gaps(ranges, all);
    }

    method Invert()
      requires Valid()
      modifies this
      ensures Valid() && all == old(all) && Complement(old(ranges), ranges, all)
    {
      var r := Inverted();
      all, ranges := r.all, r.ranges;
    }

    /** `-=` with a range: exact difference. */
    method SubtractRange(m: Range)
      requires Valid() && (m.first < m.second ==> all.first <= m.first && m.second <= all.second)
      modifies this
      ensures Valid() && all == old(all)
      ensures forall x :: In(ranges, x) <==> In(old(ranges), x) && !(m.first <= x < m.second)
    {
      Invert();
      UnionWithRange(m);
      Invert();
    }

    /** `-=` with a mask. The ground range may grow, and what it grows by comes out as in unless m covers it;
        taking a mask from itself in place leaves it as it was. */
    method Subtract(m: Mask)
      requires Valid() && m.Valid()
      modifies this
      ensures Valid() && (m == this ==> all == old(all) && ranges == old(ranges))
      ensures all == Hull(old(all), old(m.all))
      ensures m != this ==> forall x :: In(ranges, x) <==>
        !In(m.ranges, x) && (In(old(ranges), x) || (InRange(all, x) && !InRange(old(all), x)))
      ensures m != this ==> (Difference(old(ranges), m.ranges, ranges) <==> Covered(all, old(all), m.ranges))
    {
      Invert();
      ghost var not := ranges;
      UnionWith(m);
      ghost var sum := ranges;
      Invert();
      if m == this {
        Canonical(not, sum, all.first, all.second);
        ComplementTwice(old(ranges), not, ranges, all);
      }
    }

    /** The mask of the n smallest elements; `first + items` is unsigned arithmetic. */
    method Lowest(n: nat) returns (r: Mask)
      requires Valid() && n < U32
      ensures fresh(r) && r.all == all
      ensures NoWrap(ranges, n) ==> r.Valid()
      ensures Smallest(ranges, n, r.ranges) <==> NoWrap(ranges, n)
    {
      r := new Mask(all);
      r.ranges := Take(ranges, n, all);
    }

    method Contains(i: int) returns (b: bool)
      requires Valid()
      ensures b <==> In(ranges, i)
    {
      var k := UpperBound(ranges, i);
      if k == 0 {
        return false;
      }
      b := ranges[k - 1].second > i;
    }

    /** Full when nothing of the ground range is out. */
    method Full() returns (b: bool)
      requires Valid()
      ensures b <==> forall x | InRange(all, x) :: In(ranges, x)
    {
      b := all.first == all.second || (|ranges| == 1 && ranges[0] == all);
      if all.first < all.second {
        if forall x | InRange(all, x) :: In(ranges, x) {
          Canonical(ranges, [all], all.first, all.second) by {
            forall x ensures In([all], x) <==> InRange(all, x) { assert [all][0] == all; }
          }
        }
      }
    }

    /** The smallest element above t (from 0 again after the largest number), or the end of the ground range. */
    method Next(t: nat) returns (n: int)
      requires Valid() && t < U32
      ensures n == all.second || (In(ranges, n) && n >= AddUnsigned(t, 1))
      ensures forall x | x >= AddUnsigned(t, 1) && In(ranges, x) :: n <= x && n < all.second
    {
      var u := AddUnsigned(t, 1);
      var k := UpperBound(ranges, u);
      if k > 0 && ranges[k - 1].second > u {
        return u;
      }
      n := if k == |ranges| then all.second else ranges[k].first;
    }

    /** Walking from begin() to end() with ++ lists the elements, each once and in order. */
    method Walk() returns (xs: seq<int>)
      requires Valid()
      ensures forall j, k | 0 <= j < k < |xs| :: xs[j] < xs[k]
      ensures forall x :: x in xs <==> In(ranges, x)
    {
      var value := if ranges == [] then all.second else ranges[0].first;
      xs := [];
      while value != all.second
        invariant value <= all.second && (value == all.second || In(ranges, value))
        invariant forall j, k | 0 <= j < k < |xs| :: xs[j] < xs[k]
        invariant forall k | 0 <= k < |xs| :: xs[k] < value
        invariant forall x :: x in xs <==> In(ranges, x) && x < value
        decreases all.second - value
      {
        xs := xs + [value];
        value := Next(value);
      }
    }

    /** How many elements there are. */
    method Count() returns (c: nat)
      requires Valid()
      ensures c == |set x | all.first <= x < all.second && In(ranges, x)|
    {
      c := 0;
      var k := 0;
      while k < |ranges|
        invariant k <= |ranges| && c == Size(ranges[..k])
      {
        SizeSnoc(ranges, k);
        c := c + (ranges[k].second - ranges[k].first);
        k := k + 1;
      }
      assert ranges[..k] == ranges;
      BelowIsSize(ranges, all.first, all.second);
      BelowIsCount(ranges, all.second, all);
    }

    /** The smallest number of the ground range that is out, or its end. */
    method FirstOut() returns (n: int)
      requires Valid()
      ensures !In(ranges, n) && all.first <= n <= all.second
      ensures forall x | all.first <= x < n :: In(ranges, x)
    {
      n := if ranges == [] || ranges[0].first != all.first then all.first else ranges[0].second;
    }
  }

  predicate InRange(r: Range, x: int) {
    r.first <= x < r.second
  }

  ghost predicate Difference(a: seq<Range>, m: seq<Range>, out: seq<Range>) {
    forall x :: In(out, x) <==> In(a, x) && !In(m, x)
  }

  /** Everything the ground range grew by lies in m. */
  ghost predicate Covered(now: Range, before: Range, m: seq<Range>) {
    forall x | InRange(now, x) && !InRange(before, x) :: In(m, x)
  }

  /** Ground range [0, 1) less an empty mask over [0, 3): the ground range grows by what the mask does not cover,
      and what comes out holds 1, which was not in before. */
  lemma SubtractCanFail()
    ensures !Covered(Range(0, 3), Range(0, 1), [])
    ensures forall out: seq<Range> | In(out, 1) :: !Difference([], [], out)
  {
    assert InRange(Range(0, 3), 1) && !InRange(Range(0, 1), 1) && !In([], 1);
  }

  /** The subtraction itself on that input. */
  method SubtractMore() returns (a: Mask)
    ensures fresh(a) && In(a.ranges, 1)
  {
    a := new Mask(Range(0, 1));
    var m := new Mask(Range(0, 3));
    a.Subtract(m);
  }

  // ------------------------------------------------------------------ counting

  function Size(rs: seq<Range>): int {
    if rs == [] then 0 else rs[0].second - rs[0].first + Size(rs[1..])
  }

  /** How much of rs lies below x. */
  function Below(rs: seq<Range>, x: int): nat {
    if rs == [] then 0
    else (if x <= rs[0].first then 0 else if x < rs[0].second then x - rs[0].first
          else if rs[0].first < rs[0].second then rs[0].second - rs[0].first else 0) + Below(rs[1..], x)
  }

  /** out holds exactly the n smallest elements. */
  ghost predicate Smallest(rs: seq<Range>, n: nat, out: seq<Range>) {
    forall x :: In(out, x) <==> In(rs, x) && Below(rs, x) < n
  }

  /** No range that the n smallest reach makes `first + items` leave 32 bits. */
  ghost predicate NoWrap(rs: seq<Range>, n: nat) {
    forall k | 0 <= k < |rs| && Size(rs[..k]) < n :: rs[k].first + (n - Size(rs[..k])) < U32
  }

  lemma {:induction false} SizeSnoc(rs: seq<Range>, k: nat)
    requires k < |rs|
    ensures Size(rs[..k + 1]) == Size(rs[..k]) + (rs[k].second - rs[k].first)
  {
    if k > 0 {
      SizeSnoc(rs[1..], k - 1);
      assert rs[..k + 1][1..] == rs[1..][..k] && rs[..k][1..] == rs[1..][..k - 1];
    }
  }

  lemma {:induction false} BelowAt(rs: seq<Range>, k: nat, x: int, all: Range)
    requires Proper(rs, all.first, all.second) && k < |rs| && InRange(rs[k], x)
    ensures Below(rs, x) == Size(rs[..k]) + (x - rs[k].first)
  {
    TailIn(rs, all.first, all.second, x);
    if k == 0 {
      NoneBelow(rs[1..], x);
    } else {
      BelowAt(rs[1..], k - 1, x, all);
      assert rs[..k][1..] == rs[1..][..k - 1];
    }
  }

  lemma {:induction false} NoneBelow(rs: seq<Range>, x: int)
    requires forall k | 0 <= k < |rs| :: x <= rs[k].first
    ensures Below(rs, x) == 0
  {
    if rs != [] {
      NoneBelow(rs[1..], x);
    }
  }

  lemma {:induction false} BelowIsSize(rs: seq<Range>, lo: int, hi: int)
    requires Proper(rs, lo, hi)
    ensures Below(rs, hi) == Size(rs)
  {
    if rs != [] {
      TailIn(rs, lo, hi, hi);
      BelowIsSize(rs[1..], lo, hi);
    }
  }

  ghost function Chosen(rs: seq<Range>, n: nat, lo: int, x: int): set<int> {
    set y | lo <= y < x && In(rs, y) && Below(rs, y) < n
  }

  lemma {:induction false} ChosenStep(rs: seq<Range>, n: nat, lo: int, x: int)
    requires lo <= x
    ensures |Chosen(rs, n, lo, x + 1)| == |Chosen(rs, n, lo, x)| + if In(rs, x) && Below(rs, x) < n then 1 else 0
  {
    var s, t := Chosen(rs, n, lo, x + 1), Chosen(rs, n, lo, x);
    var more := if In(rs, x) && Below(rs, x) < n then {x} else {};
    forall y ensures y in s <==> y in t + more {}
    assert s == t + more && t !! more;
  }

  /** The n smallest are n, or all there are. */
  lemma {:induction false} SmallestCount(rs: seq<Range>, n: nat, x: int, all: Range)
    requires Proper(rs, all.first, all.second)
    ensures |Chosen(rs, n, all.first, x)| == if Below(rs, x) < n then Below(rs, x) else n
    decreases x - all.first
  {
    if x <= all.first {
      NoneBelow(rs, x);
      assert Chosen(rs, n, all.first, x) == {};
    } else {
      SmallestCount(rs, n, x - 1, all);
      BelowStep(rs, x - 1, all);
      ChosenStep(rs, n, all.first, x - 1);
    }
  }

  /** Below counts. */
  lemma BelowIsCount(rs: seq<Range>, x: int, all: Range)
    requires Proper(rs, all.first, all.second)
    ensures Below(rs, x) == |set y | all.first <= y < x && In(rs, y)|
  {
    var n := Below(rs, x) + 1;
    SmallestCount(rs, n, x, all);
    forall y | y <= x ensures Below(rs, y) <= Below(rs, x) { BelowGrows(rs, y, x, all); }
    assert Chosen(rs, n, all.first, x) == set y | all.first <= y < x && In(rs, y);
  }

  lemma {:induction false} BelowGrows(rs: seq<Range>, y: int, x: int, all: Range)
    requires Proper(rs, all.first, all.second) && y <= x
    ensures Below(rs, y) <= Below(rs, x)
    decreases x - y
  {
    if y < x {
      BelowStep(rs, x - 1, all);
      BelowGrows(rs, y, x - 1, all);
    }
  }

  lemma {:induction false} BelowStep(rs: seq<Range>, x: int, all: Range)
    requires Proper(rs, all.first, all.second)
    ensures Below(rs, x + 1) == Below(rs, x) + if In(rs, x) then 1 else 0
  {
    if rs != [] {
      TailIn(rs, all.first, all.second, x);
      if InRange(rs[0], x) { NoneBelow(rs[1..], x + 1); NoneBelow(rs[1..], x); }
      else { BelowStep(rs[1..], x, all); }
    }
  }

  /** A range whose `first + items` wraps is stored empty: its first element is missing. */
  lemma Wrapped(rs: seq<Range>, n: nat, k: nat, left: nat, out: seq<Range>, bad: Range, all: Range)
    requires Proper(rs, all.first, all.second) && Lowering(rs, n, k, left, out, all) && k < |rs| && left > 0
    requires rs[k].first + left >= U32 && bad.second <= bad.first
    ensures !Smallest(rs, n, out + [bad]) && !NoWrap(rs, n)
  {
    var x := rs[k].first;
    BelowAt(rs, k, x, all);
    assert In(rs, x) && Below(rs, x) < n;
    assert forall j | 0 <= j < k :: out[j].second < x;
    assert !In(out + [bad], x);
  }

  /** The first k ranges have been dealt with and `left` elements are still wanted. */
  ghost predicate Lowering(rs: seq<Range>, n: nat, k: nat, left: int, out: seq<Range>, all: Range) {
    && k == |out| <= |rs| && Proper(out, all.first, all.second)
    && (forall j | 0 <= j < k :: out[j].first == rs[j].first && out[j].second <= rs[j].second)
    && (if left > 0 then left == n - Size(rs[..k]) else n <= Size(rs[..k]))
    && (forall j | 0 <= j < k && Size(rs[..j]) < n :: rs[j].first + (n - Size(rs[..j])) < U32)
    && forall x :: In(out, x) <==> In(rs[..k], x) && Below(rs, x) < n
  }

  lemma LowerStart(rs: seq<Range>, n: nat, all: Range)
    ensures Lowering(rs, n, 0, n, [], all)
  {
  }

  lemma {:induction false} LowerStep(rs: seq<Range>, n: nat, k: nat, left: nat, out: seq<Range>, stop: int, all: Range)
    requires Proper(rs, all.first, all.second) && Lowering(rs, n, k, left, out, all) && k < |rs| && left > 0
    requires rs[k].first + left < U32
    requires stop == if rs[k].first + left < rs[k].second then rs[k].first + left else rs[k].second
    ensures Lowering(rs, n, k + 1, left - (stop - rs[k].first), out + [Range(rs[k].first, stop)], all)
  {
    var more := out + [Range(rs[k].first, stop)];
    SizeSnoc(rs, k);
    forall x ensures In(more, x) <==> In(rs[..k + 1], x) && Below(rs, x) < n {
      Snoc(more, k, x);
      assert more[..k] == out && more[..k + 1] == more;
      Snoc(rs, k, x);
      if InRange(rs[k], x) { BelowAt(rs, k, x, all); }
    }
  }

  lemma {:induction false} LowestDone(rs: seq<Range>, n: nat, k: nat, left: nat, out: seq<Range>, all: Range)
    requires Proper(rs, all.first, all.second) && Lowering(rs, n, k, left, out, all) && (k == |rs| || left == 0)
    ensures Smallest(rs, n, out) && NoWrap(rs, n)
  {
    forall j | k <= j < |rs| ensures Size(rs[..j]) >= n { SizeGrows(rs, k, j, all); }
    forall x ensures In(out, x) <==> In(rs, x) && Below(rs, x) < n {
      if j :| 0 <= j < |rs| && InRange(rs[j], x) {
        BelowAt(rs, j, x, all);
        if j < k { assert rs[..k][j] == rs[j]; }
      }
      if j :| 0 <= j < k && InRange(rs[..k][j], x) { assert InRange(rs[j], x); }
    }
  }

  lemma {:induction false} SizeGrows(rs: seq<Range>, k: nat, j: nat, all: Range)
    requires Proper(rs, all.first, all.second) && k <= j <= |rs|
    ensures Size(rs[..k]) <= Size(rs[..j])
  {
    if k < j {
      SizeGrows(rs, k, j - 1, all);
      SizeSnoc(rs, j - 1);
    }
  }

  /** A mask at the top of the number range for which `lowest(2)` misses its first element. */
  lemma LowestCanFail()
    ensures var rs := [Range(U32 - 2, U32 - 1)];
      Proper(rs, 0, U32 - 1) && !NoWrap(rs, 2)
  {
    var rs := [Range(U32 - 2, U32 - 1)];
    assert rs[..0] == [] && Size(rs[..0]) == 0;
    assert rs[0].first + (2 - Size(rs[..0])) == U32;
  }

  /** Complementing twice gives the same ranges back. */
  lemma ComplementTwice(a: seq<Range>, b: seq<Range>, c: seq<Range>, all: Range)
    requires Proper(a, all.first, all.second) && Proper(b, all.first, all.second) && Proper(c, all.first, all.second)
    requires Complement(a, b, all) && Complement(b, c, all)
    ensures a == c
  {
    forall x ensures In(a, x) <==> In(c, x) {
      if !InRange(all, x) { assert !In(a, x) && !In(c, x); }
    }
    Canonical(a, c, all.first, all.second);
  }

  /** The loop of `inverted`. */
  method Gaps(rs: seq<Range>, all: Range) returns (out: seq<Range>)
    requires Proper(rs, all.first, all.second) && all.first <= all.second
    ensures Proper(out, all.first, all.second) && Complement(rs, out, all)
  {
    var last, k := all.first, 0;
    out := [];
    while k < |rs|
      invariant k <= |rs| && last == (if k > 0 then rs[k - 1].second else all.first) <= all.second
      invariant Proper(out, all.first, all.second) && forall j | 0 <= j < |out| :: out[j].second < last
      invariant forall x | all.first <= x < last :: In(out, x) <==> !In(rs, x)
    {
      var i := rs[k];
      GapBefore(rs, k, last, all);
      if i.first != last {
        AddGap(out, last, i.first);
        out := out + [Range(last, i.first)];
      }
      last := i.second;
      k := k + 1;
    }
    forall x | last <= x < all.second ensures !In(rs, x) {}
    if last != all.second {
      AddGap(out, last, all.second);
      out := out + [Range(last, all.second)];
    }
  }

  lemma AddGap(out: seq<Range>, first: int, second: int)
    ensures forall x :: In(out + [Range(first, second)], x) <==> In(out, x) || first <= x < second
  {
    var more := out + [Range(first, second)];
    assert more[..|out|] == out && more[..|more|] == more;
    forall x ensures In(more, x) <==> In(out, x) || first <= x < second { Snoc(more, |out|, x); }
  }

  /** The loop of `lowest`. */
  method Take(rs: seq<Range>, n: nat, ghost all: Range) returns (out: seq<Range>)
    requires Proper(rs, all.first, all.second) && 0 <= all.first && all.second < U32 && n < U32
    ensures NoWrap(rs, n) ==> Proper(out, all.first, all.second)
    ensures Smallest(rs, n, out) <==> NoWrap(rs, n)
  {
    out := [];
    var left, k := n, 0;
    LowerStart(rs, n, all);
    while k < |rs| && left > 0
      invariant 0 <= left <= n && Lowering(rs, n, k, left, out, all)
    {
      var i := rs[k];
      var end := AddUnsigned(i.first, left);
      var stop := if end < i.second then end else i.second;
      if end < i.first {
        // the subtraction takes `left` to 0 here, which ends the loop
        Wrapped(rs, n, k, left, out, Range(i.first, stop), all);
        return out + [Range(i.first, stop)];
      }
      LowerStep(rs, n, k, left, out, stop, all);
      out := out + [Range(i.first, stop)];
      left := left - (stop - i.first);
      k := k + 1;
    }
    LowestDone(rs, n, k, left, out, all);
  }

  function AddUnsigned(a: nat, b: nat): (s: nat)
    requires a < U32 && b < U32
    ensures s < U32 && (s < a <==> a + b >= U32) && (s >= a ==> s == a + b)
  {
    (a + b) % U32
  }

  function Hull(a: Range, b: Range): Range {
    Range(if b.first < a.first then b.first else a.first, if b.second > a.second then b.second else a.second)
  }

  ghost predicate Complement(a: seq<Range>, b: seq<Range>, all: Range) {
    forall x | all.first <= x < all.second :: In(b, x) <==> !In(a, x)
  }

  lemma Snoc(rs: seq<Range>, k: nat, x: int)
    requires k < |rs|
    ensures In(rs[..k + 1], x) <==> In(rs[..k], x) || rs[k].first <= x < rs[k].second
  {
    var s := rs[..k + 1];
    assert s[k] == rs[k];
    forall j | 0 <= j < k ensures s[j] == rs[..k][j] {}
  }

  /** Between the end of one range and the next nothing is in, and what the next covers is. */
  lemma GapBefore(rs: seq<Range>, k: nat, last: int, all: Range)
    requires Proper(rs, all.first, all.second) && k < |rs|
    requires if k > 0 then last == rs[k - 1].second else last == all.first
    ensures last <= rs[k].first
    ensures forall x | last <= x < rs[k].second :: In(rs, x) <==> rs[k].first <= x
  {
  }
}
