/** Inter-exchange client address protocol: international bank account numbers over base 36. */
module ICAP {
  import opened Basics

  /** A `char`, which is signed. */
  type Char = c: int | -128 <= c < 128
  type Text = seq<Char>

  const ZERO: Char := 48
  const NINE: Char := 57
  const CAPITAL_A: Char := 65
  const CAPITAL_Z: Char := 90
  const SMALL_A: Char := 97
  const SMALL_Z: Char := 122

  const U160: nat := 0x1_0000000000000000_0000000000000000_00000000

  predicate Digit(c: Char) { ZERO <= c <= NINE }

  predicate Capital(c: Char) { CAPITAL_A <= c <= CAPITAL_Z }

  predicate Base36(s: Text) { forall k | 0 <= k < |s| :: Digit(s[k]) || Capital(s[k]) }

  function Up(c: Char): Char {
    if SMALL_A <= c <= SMALL_Z then c - 32 else c
  }

  function Upper(s: Text): (u: Text)
    ensures |u| == |s| && forall k | 0 <= k < |s| :: u[k] == Up(s[k])
  {
    seq(|s|, k requires 0 <= k < |s| => Up(s[k]))
  }

  // ------------------------------------------------------------------ the number of a text

  function Width(c: Char): nat {
    if c >= CAPITAL_A then 100 else 10
  }

  function Worth(c: Char): int {
    if c >= CAPITAL_A then c - CAPITAL_A + 10 else c - ZERO
  }

  /** Letters are two decimal digits, the rest one. */
  function Tot(s: Text): int {
    if s == [] then 0
    else
      var x := s[|s| - 1];
      if x >= CAPITAL_A then Tot(s[..|s| - 1]) * 100 + (x - CAPITAL_A + 10) else Tot(s[..|s| - 1]) * 10 + (x - ZERO)
  }

  function Scale(s: Text): nat {
    if s == [] then 1
    else if s[|s| - 1] >= CAPITAL_A then Scale(s[..|s| - 1]) * 100 else Scale(s[..|s| - 1]) * 10
  }

  lemma {:induction false} TotAppend(a: Text, b: Text)
    ensures Tot(a + b) == Tot(a) * Scale(b) + Tot(b)
  {
    if b == [] {
      assert a + b == a;
    } else {
      var init, x := b[..|b| - 1], b[|b| - 1];
      assert (a + b)[..|a + b| - 1] == a + init;
      TotAppend(a, init);
      Distribute(Tot(a), Scale(init), Width(x), Tot(init));
    }
  }

  lemma Distribute(a: int, s: int, w: int, t: int)
    ensures (a * s + t) * w == a * (s * w) + t * w
  {
  }

  /** The remainder of C++, which takes the sign of the dividend. */
  function Remainder(a: int): (r: int)
    ensures -97 < r < 97 && (a - r) % 97 == 0 && (a >= 0 ==> r == a % 97)
  {
    if a >= 0 then a % 97 else -(-a % 97)
  }

  function Check(c: Text, d: Text): (n: nat)
    ensures 2 <= n <= 194
  {
    98 - Remainder(Tot(d + c + [ZERO, ZERO]))
  }

  /** A number printed at least two wide. */
  function Decimal(n: nat): (s: Text)
    requires n < 1000
    ensures |s| == if n < 100 then 2 else 3
  {
    if n < 100 then [ZERO + n / 10, ZERO + n % 10] else [ZERO + n / 100, ZERO + n / 10 % 10, ZERO + n % 10]
  }

  lemma DecimalInjective(m: nat, n: nat)
    requires m < 1000 && n < 1000 && Decimal(m) == Decimal(n)
    ensures m == n
  {
    DecimalValue(m);
    DecimalValue(n);
  }

  lemma DecimalValue(n: nat)
    requires n < 1000
    ensures var s := Decimal(n);
      n == if |s| == 2 then (s[0] - ZERO) * 10 + (s[1] - ZERO)
        else (s[0] - ZERO) * 100 + (s[1] - ZERO) * 10 + (s[2] - ZERO)
  {
  }

  function IbanOf(c: Text, d: Text): Text {
    Upper(c) + Decimal(Check(Upper(c), Upper(d))) + Upper(d)
  }

  method Iban(c: Text, d: Text) returns (r: Text)
    ensures r == IbanOf(c, d)
  {
    var uc, ud := Upper(c), Upper(d);
    var totStr := ud + uc + [ZERO, ZERO];
    var tot := 0;
    var k := 0;
    while k < |totStr|
      invariant k <= |totStr| && tot == Tot(totStr[..k])
    {
      var x := totStr[k];
      assert totStr[..k + 1][..k] == totStr[..k];
      if x >= CAPITAL_A {
        tot := tot * 100 + x - CAPITAL_A + 10;
      } else {
        tot := tot * 10 + x - ZERO;
      }
      k := k + 1;
    }
    assert totStr[..k] == totStr;
    var check := 98 - Remainder(tot);
    r := uc + Decimal(check) + ud;
  }

  /** What `fromIBAN` accepts. */
  predicate Accepted(s: Text) {
    |s| >= 4 && IbanOf(Upper(s)[..2], Upper(s)[4..]) == Upper(s)
  }

  method FromIBAN(iban: Text) returns (c: Text, d: Text)
    ensures if Accepted(iban) then c == Upper(iban)[..2] && d == Upper(iban)[4..] else c == d == []
  {
    if |iban| < 4 {
      return [], [];
    }
    var u := Upper(iban);
    c, d := u[..2], u[4..];
    var again := Iban(c, d);
    if again != u {
      c, d := [], [];
    }
  }

  // ------------------------------------------------------------------ ISO 7064

  lemma UpperTwice(s: Text)
    ensures Upper(Upper(s)) == Upper(s)
  {
  }

  /** A text is accepted exactly when the check number of the rest stands in its places 2 and 3. */
  lemma AcceptedSpec(s: Text)
    requires |s| >= 4
    ensures var u := Upper(s); Accepted(s) <==> Check(u[..2], u[4..]) < 100 && u[2..4] == Decimal(Check(u[..2], u[4..]))
  {
    var u := Upper(s);
    var c, d := u[..2], u[4..];
    UpperTwice(s);
    assert Upper(c) == c && Upper(d) == d;
    var n := Check(c, d);
    var r := c + Decimal(n) + d;
    assert u == c + u[2..4] + d;
    if n < 100 {
      assert r[2..4] == Decimal(n);
    } else {
      assert |r| == |u| + 1;
    }
  }

  /** The number of the rearranged text leaves 1 on division by 97. */
  lemma RestIsOne(c: Text, d: Text)
    requires Base36(c) && Base36(d)
    ensures 2 <= Check(c, d) <= 98 && Tot(d + c + Decimal(Check(c, d))) % 97 == 1
  {
    CheckOfTot(c, d);
    BaseIsNatural(d + c);
    Complement97(Tot(d + c) * 100);
    WithDecimal(d + c, Check(c, d));
  }

  lemma CheckOfTot(c: Text, d: Text)
    ensures Check(c, d) == 98 - Remainder(Tot(d + c) * 100)
  {
    assert Decimal(0) == [ZERO, ZERO];
    WithDecimal(d + c, 0);
  }

  lemma WithDecimal(t: Text, n: nat)
    requires n < 100
    ensures Tot(t + Decimal(n)) == Tot(t) * 100 + n
  {
    TotAppend(t, Decimal(n));
    TwoDigits(n);
  }

  lemma Complement97(t: nat)
    ensures (t + (98 - Remainder(t))) % 97 == 1 && Remainder(t) >= 0
  {
  }

  lemma TwoDigits(n: nat)
    requires n < 100
    ensures Scale(Decimal(n)) == 100 && Tot(Decimal(n)) == n
  {
    var s := Decimal(n);
    assert s[..1] == [s[0]] && s[..1][..0] == [];
    assert Scale(s[..1]) == 10 && Tot(s[..1]) == n / 10;
  }

  lemma {:induction false} BaseIsNatural(s: Text)
    requires Base36(s)
    ensures Tot(s) >= 0
  {
    if s != [] { BaseIsNatural(s[..|s| - 1]); }
  }

  /** For letters and digits: accepted exactly when the check places hold digits, from 02 to 98, and the number of the
      rearranged text leaves 1 on division by 97. */
  lemma AcceptedIsOne(s: Text)
    requires |s| >= 4 && Base36(Upper(s))
    ensures var u := Upper(s); Accepted(s) <==>
      Digit(u[2]) && Digit(u[3]) && 2 <= (u[2] - ZERO) * 10 + (u[3] - ZERO) <= 98 && Tot(u[4..] + u[..4]) % 97 == 1
  {
    var u := Upper(s);
    AcceptedSpec(s);
    assert u[..4] == u[..2] + u[2..4];
    assert u[4..] + u[..4] == u[4..] + u[..2] + u[2..4];
    CheckIsThe(u[..2], u[4..], u[2..4]);
  }

  lemma {:induction false} CheckIsThe(c: Text, d: Text, two: Text)
    requires Base36(c) && Base36(d) && |two| == 2
    ensures two == Decimal(Check(c, d)) <==>
      Digit(two[0]) && Digit(two[1]) && 2 <= (two[0] - ZERO) * 10 + (two[1] - ZERO) <= 98 && Tot(d + c + two) % 97 == 1
  {
    RestIsOne(c, d);
    var n := (two[0] - ZERO) * 10 + (two[1] - ZERO);
    if Digit(two[0]) && Digit(two[1]) && 2 <= n <= 98 && Tot(d + c + two) % 97 == 1 {
      assert two == Decimal(n);
      OnlyCheck(c, d, n);
    }
  }

  lemma OnlyCheck(c: Text, d: Text, n: nat)
    requires Base36(c) && Base36(d) && 2 <= n <= 98 && Tot(d + c + Decimal(n)) % 97 == 1
    ensures n == Check(c, d)
  {
    RestIsOne(c, d);
    WithDecimal(d + c, n);
    WithDecimal(d + c, Check(c, d));
    CloseTogether(Tot(d + c) * 100, n, Check(c, d));
  }

  lemma CloseTogether(t: int, a: int, b: int)
    requires 2 <= a <= 98 && 2 <= b <= 98 && (t + a) % 97 == (t + b) % 97
    ensures a == b
  {
  }

  // ------------------------------------------------------------------ error detection

  /** 10 is invertible modulo 97, and so is every scale. */
  lemma {:induction false} ScaleKeeps(m: int, s: Text)
    requires (m * Scale(s)) % 97 == 0
    ensures m % 97 == 0
  {
    if s != [] {
      var init, w := s[..|s| - 1], Width(s[|s| - 1]);
      assert m * Scale(s) == (m * Scale(init)) * w by { Associate(m, Scale(init), w); }
      TenKeeps(m * Scale(init), w);
      ScaleKeeps(m, init);
    }
  }

  lemma Associate(a: int, b: int, c: int)
    ensures a * (b * c) == (a * b) * c
  {
  }

  lemma TenKeeps(m: int, w: nat)
    requires (w == 10 || w == 100) && (m * w) % 97 == 0
    ensures m % 97 == 0
  {
    if w == 100 {
      assert m * w == 10 * (10 * m);
      Ten(10 * m);
    }
    Ten(m);
  }

  lemma Ten(m: int)
    requires (10 * m) % 97 == 0
    ensures m % 97 == 0
  {
  }

  /** Changing a character to another of its width, by less than 97, changes the number modulo 97. */
  lemma ChangeShows(t: Text, j: nat, x: Char)
    requires j < |t| && Width(x) == Width(t[j]) && -97 < Worth(x) - Worth(t[j]) < 97 && x != t[j]
    ensures (Tot(t[j := x]) - Tot(t)) % 97 != 0
  {
    SplitAt(t, j, t[j]);
    SplitAt(t, j, x);
    assert t[j := t[j]] == t;
    ChangeOf(t[..j], x, t[j], t[j + 1..]);
    NotNothing(Worth(x) - Worth(t[j]), t[j + 1..]);
  }

  lemma ChangeOf(a: Text, x: Char, y: Char, b: Text)
    requires Width(x) == Width(y)
    ensures Tot(a + [x] + b) - Tot(a + [y] + b) == (Worth(x) - Worth(y)) * Scale(b)
  {
    TotSnoc(a, x);
    TotSnoc(a, y);
    TotAppend(a + [x], b);
    TotAppend(a + [y], b);
    Apart(Tot(a + [x]), Tot(a + [y]), Scale(b), Tot(b));
  }

  lemma TotSnoc(a: Text, x: Char)
    ensures Tot(a + [x]) == (if x >= CAPITAL_A then Tot(a) * 100 else Tot(a) * 10) + Worth(x)
  {
    assert (a + [x])[..|a|] == a;
  }

  lemma Apart(t: int, u: int, s: int, r: int)
    ensures (t * s + r) - (u * s + r) == (t - u) * s
  {
  }

  lemma NotNothing(m: int, b: Text)
    requires -97 < m < 97 && m != 0
    ensures (m * Scale(b)) % 97 != 0
  {
    if (m * Scale(b)) % 97 == 0 {
      ScaleKeeps(m, b);
      assert false;
    }
  }

  lemma SplitAt(t: Text, j: nat, x: Char)
    requires j < |t|
    ensures t[j := x] == t[..j] + [x] + t[j + 1..]
  {
  }

  predicate Alpha36(c: Char) { Digit(c) || Capital(c) }

  /** The digit and the letter whose exchange the check does not see: 1 and B, 2 and M, 3 and X. */
  predicate Blind(x: Char, y: Char) {
    BlindPair(x, y) || BlindPair(y, x)
  }

  predicate BlindPair(digit: Char, letter: Char) {
    1 <= digit - ZERO <= 3 && letter - CAPITAL_A + 10 == 11 * (digit - ZERO)
  }

  /** By how much exchanging two neighbours changes the number, before what follows scales it. */
  function Exchange(x: Char, y: Char): int {
    Worth(y) * (Width(x) - 1) - Worth(x) * (Width(y) - 1)
  }

  lemma {:induction false} ExchangeSees(x: Char, y: Char)
    requires Alpha36(x) && Alpha36(y) && x != y
    ensures Exchange(x, y) % 97 == 0 <==> Blind(x, y)
  {
    var v, w := Worth(x), Worth(y);
    if Digit(x) && Digit(y) {
      SmallKeeps(9, w - v);
    } else if Capital(x) && Capital(y) {
      LettersApart(w - v);
    } else if Digit(x) {
      Mixed(v, w);
    } else {
      Mixed(w, v);
    }
  }

  lemma LettersApart(d: int)
    requires -25 <= d <= 25 && d != 0
    ensures (99 * d) % 97 != 0
  {
    SmallKeeps(2, d);
    Shift(2 * d, d);
  }

  lemma Mixed(digit: int, letter: int)
    requires 0 <= digit <= 9 && 10 <= letter <= 35
    ensures (9 * letter - 99 * digit) % 97 == 0 <==> 1 <= digit <= 3 && letter == 11 * digit
    ensures (99 * digit - 9 * letter) % 97 == 0 <==> 1 <= digit <= 3 && letter == 11 * digit
  {
    OneOfThree(digit, letter);
    Shift(9 * letter - 2 * digit, -digit);
    Shift(2 * digit - 9 * letter, digit);
  }

  lemma Shift(a: int, k: int)
    ensures (a + 97 * k) % 97 == a % 97
  {
  }

  lemma {:induction false} OneOfThree(digit: int, letter: int)
    requires 0 <= digit <= 9 && 10 <= letter <= 35
    ensures (9 * letter - 2 * digit) % 97 == 0 <==> 1 <= digit <= 3 && letter == 11 * digit
    ensures (2 * digit - 9 * letter) % 97 == 0 <==> 1 <= digit <= 3 && letter == 11 * digit
  {
    var e := 9 * letter - 2 * digit;
    assert 72 <= e <= 315;
    assert e % 97 == 0 <==> e == 97 || e == 194 || e == 291;
    assert (-e) % 97 == 0 <==> e == 97 || e == 194 || e == 291;
  }

  lemma TimesAny(m: int, n: int)
    requires m % 97 == 0
    ensures (m * n) % 97 == 0
  {
    assert m * n == 97 * (m / 97 * n);
  }

  /** Exchanging two neighbours keeps the number modulo 97 exactly for the blind pairs. */
  lemma SwapShows(t: Text, j: nat)
    requires j + 1 < |t| && Alpha36(t[j]) && Alpha36(t[j + 1]) && t[j] != t[j + 1]
    ensures (Tot(t[j := t[j + 1]][j + 1 := t[j]]) - Tot(t)) % 97 == 0 <==> Blind(t[j], t[j + 1])
  {
    var a, b, x, y := t[..j], t[j + 2..], t[j], t[j + 1];
    assert t == a + [x, y] + b && t[j := y][j + 1 := x] == a + [y, x] + b;
    SwapOf(a, x, y, b);
    ExchangeSees(x, y);
    if Blind(x, y) {
      TimesAny(Exchange(x, y), Scale(b));
    } else if (Exchange(x, y) * Scale(b)) % 97 == 0 {
      ScaleKeeps(Exchange(x, y), b);
    }
  }

  lemma SwapOf(a: Text, x: Char, y: Char, b: Text)
    requires Alpha36(x) && Alpha36(y)
    ensures Tot(a + [y, x] + b) - Tot(a + [x, y] + b) == Exchange(x, y) * Scale(b)
  {
    assert a + [x, y] == a + [x] + [y] && a + [y, x] == a + [y] + [x];
    TotSnoc(a, x);
    TotSnoc(a + [x], y);
    TotSnoc(a, y);
    TotSnoc(a + [y], x);
    TotAppend(a + [x, y], b);
    TotAppend(a + [y, x], b);
    Apart(Tot(a + [y, x]), Tot(a + [x, y]), Scale(b), Tot(b));
  }

  /** The text whose number the check is made from. */
  function Body(u: Text): Text
    requires |u| >= 4
  {
    u[4..] + u[..2] + [ZERO, ZERO]
  }

  lemma {:induction false} OtherNumber(s: Text, v: Text)
    requires |s| == |v| && Accepted(s) && Upper(s)[2..4] == Upper(v)[2..4]
    requires (Tot(Body(Upper(v))) - Tot(Body(Upper(s)))) % 97 != 0
    ensures !Accepted(v)
  {
    var a, b := Upper(s), Upper(v);
    AcceptedSpec(s);
    AcceptedSpec(v);
    var m, n := Check(a[..2], a[4..]), Check(b[..2], b[4..]);
    SameRemainder(Tot(Body(a)), Tot(Body(b)));
    if Decimal(m) == Decimal(n) { DecimalInjective(m, n); }
  }

  lemma SameRemainder(x: int, y: int)
    ensures Remainder(x) == Remainder(y) ==> (y - x) % 97 == 0
  {
    Multiples(y - Remainder(y), x - Remainder(x));
  }

  lemma Multiples(a: int, b: int)
    requires a % 97 == 0 && b % 97 == 0
    ensures (a - b) % 97 == 0
  {
  }

  predicate SameKind(x: Char, y: Char) {
    (Digit(x) && Digit(y)) || (Capital(Up(x)) && Capital(Up(y)))
  }

  /** One wrong digit or one wrong letter, anywhere in a text of any length, is always found. */
  lemma {:induction false} DetectsChange(s: Text, i: nat, x: Char)
    requires Accepted(s) && i < |s| && SameKind(s[i], x) && Up(x) != Up(s[i])
    ensures !Accepted(s[i := x])
  {
    var v, a := s[i := x], Upper(s);
    UpperUpdate(s, i, x);
    if i == 2 || i == 3 {
      OtherCheck(s, v);
    } else {
      ChangedBody(a, i, Up(x));
      OtherNumber(s, v);
    }
  }

  lemma UpperUpdate(s: Text, i: nat, x: Char)
    requires i < |s|
    ensures Upper(s[i := x]) == Upper(s)[i := Up(x)] && (Digit(x) ==> Up(x) == x)
  {
  }

  lemma ChangedBody(u: Text, i: nat, x: Char)
    requires |u| >= 4 && i < |u| && (i < 2 || i >= 4) && SameKind(u[i], x) && Up(u[i]) == u[i] && Up(x) == x != u[i]
    ensures (Tot(Body(u[i := x])) - Tot(Body(u))) % 97 != 0 && u[i := x][2..4] == u[2..4]
  {
    BodyAt(u, i, x);
    ChangeShows(Body(u), Place(u, i), x);
  }

  lemma {:induction false} SwappedBody(u: Text, i: nat)
    requires |u| >= 4 && i + 1 < |u| && (i == 0 || i >= 4) && Alpha36(u[i]) && Alpha36(u[i + 1]) && u[i] != u[i + 1]
    ensures var v := u[i := u[i + 1]][i + 1 := u[i]];
      v[2..4] == u[2..4] && ((Tot(Body(v)) - Tot(Body(u))) % 97 == 0 <==> Blind(u[i], u[i + 1]))
  {
    BodyAt(u, i, u[i + 1]);
    BodyAt(u[i := u[i + 1]], i + 1, u[i]);
    var j := Place(u, i);
    assert Place(u, i + 1) == j + 1 && Body(u)[j] == u[i] && Body(u)[j + 1] == u[i + 1];
    SwapShows(Body(u), j);
  }

  lemma OtherCheck(s: Text, v: Text)
    requires Accepted(s) && |s| == |v| && Upper(v)[..2] == Upper(s)[..2] && Upper(v)[4..] == Upper(s)[4..] &&
      Upper(v) != Upper(s)
    ensures !Accepted(v)
  {
    AcceptedSpec(s);
    AcceptedSpec(v);
    var a, b := Upper(s), Upper(v);
    assert a == a[..2] + a[2..4] + a[4..] && b == b[..2] + b[2..4] + b[4..];
  }

  /** Where a character stands in the body. */
  function Place(u: Text, i: nat): (j: nat)
    requires |u| >= 4 && i < |u| && (i < 2 || i >= 4)
    ensures j < |Body(u)| && Body(u)[j] == u[i]
  {
    if i < 2 then |u| - 4 + i else i - 4
  }

  lemma BodyAt(u: Text, i: nat, x: Char)
    requires |u| >= 4 && i < |u| && (i < 2 || i >= 4)
    ensures Body(u[i := x]) == Body(u)[Place(u, i) := x] && u[i := x][2..4] == u[2..4]
  {
  }

  /** Two unequal letters or digits in the data, or in the first two places, that have changed places are found unless
      they are a blind pair; and in a text of letters and digits a blind pair is never found. */
  lemma {:induction false} DetectsSwap(s: Text, i: nat)
    requires Accepted(s) && i + 1 < |s| && (i == 0 || i >= 4)
    requires Alpha36(Up(s[i])) && Alpha36(Up(s[i + 1])) && Up(s[i]) != Up(s[i + 1])
    ensures var v := Swapped(s, i);
      && (!Blind(Up(s[i]), Up(s[i + 1])) ==> !Accepted(v))
      && (Base36(Upper(s)) ==> (Accepted(v) <==> Blind(Up(s[i]), Up(s[i + 1]))))
  {
    var v, a := Swapped(s, i), Upper(s);
    UpperUpdate(s, i, s[i + 1]);
    UpperUpdate(s[i := s[i + 1]], i + 1, s[i]);
    SwappedBody(a, i);
    if !Blind(a[i], a[i + 1]) {
      OtherNumber(s, v);
    } else if Base36(a) {
      SameNumber(s, v);
    }
  }

  /** The check number and everything behind it turned to the front: `AcceptedIsOne` on a text in capitals. */
  predicate Holds(u: Text)
    requires |u| >= 4
  {
    Digit(u[2]) && Digit(u[3]) && 2 <= (u[2] - ZERO) * 10 + (u[3] - ZERO) <= 98 && Tot(Turned(u)) % 97 == 1
  }

  function Turned(u: Text): Text
    requires |u| >= 4
  {
    u[4..] + u[..4]
  }

  function Swapped(s: Text, i: nat): Text
    requires i + 1 < |s|
  {
    s[i := s[i + 1]][i + 1 := s[i]]
  }

  lemma SwappedHolds(s: Text, i: nat)
    requires |s| >= 4 && i + 1 < |s| && Base36(Upper(s))
    ensures Accepted(s) == Holds(Upper(s)) && Accepted(Swapped(s, i)) == Holds(Swapped(Upper(s), i))
  {
    UpperUpdate(s, i, s[i + 1]);
    UpperUpdate(s[i := s[i + 1]], i + 1, s[i]);
    AcceptedIsOne(s);
    AcceptedIsOne(Swapped(s, i));
  }

  /** An exchange inside the check number, or with the character before it, is always found. */
  lemma DetectsCheckSwap(s: Text, i: nat)
    requires Accepted(s) && Base36(Upper(s)) && (i == 1 || i == 2) && Up(s[i]) != Up(s[i + 1])
    ensures !Accepted(Swapped(s, i))
  {
    SwappedHolds(s, i);
    CheckSwapShows(Upper(s), i);
  }

  lemma CheckSwapShows(u: Text, i: nat)
    requires |u| >= 4 && Base36(u) && Holds(u) && (i == 1 || i == 2) && u[i] != u[i + 1]
    ensures !Holds(Swapped(u, i))
  {
    if Digit(u[1]) || i == 2 {
      TurnedSwap(u, i);
      var t, j := Turned(u), |u| - 4 + i;
      SwapShows(t, j);
      OneApart(Tot(t), Tot(Swapped(t, j)), 1);
    }
  }

  lemma TurnedSwap(u: Text, i: nat)
    requires |u| >= 4 && (i == 1 || i == 2)
    ensures var t, j := Turned(u), |u| - 4 + i;
      t[j] == u[i] && t[j + 1] == u[i + 1] && Turned(Swapped(u, i)) == Swapped(t, j)
  {
  }

  /** An exchange of the last check digit with the character after it is missed exactly when that is a digit too, the
      new check number is one that `iban` makes, and the scale between the two places is 1 modulo 97. */
  lemma DetectsLastCheckSwap(s: Text)
    requires Accepted(s) && Base36(Upper(s)) && |s| >= 5 && Up(s[3]) != Up(s[4])
    ensures var u := Upper(s); Accepted(Swapped(s, 3)) <==>
      && Digit(u[4]) && 2 <= (u[2] - ZERO) * 10 + (u[4] - ZERO) <= 98 && Scale(u[5..] + u[..4]) % 97 == 1
  {
    SwappedHolds(s, 3);
    LastCheckSwapShows(Upper(s));
  }

  lemma LastCheckSwapShows(u: Text)
    requires |u| >= 5 && Base36(u) && Holds(u) && u[3] != u[4]
    ensures Holds(Swapped(u, 3)) <==>
      && Digit(u[4]) && 2 <= (u[2] - ZERO) * 10 + (u[4] - ZERO) <= 98 && Scale(u[5..] + u[..4]) % 97 == 1
  {
    if Digit(u[4]) {
      var m := u[5..] + u[..3];
      assert Turned(u) == [u[4]] + m + [u[3]] && Turned(Swapped(u, 3)) == [u[3]] + m + [u[4]];
      assert u[5..] + u[..4] == m + [u[3]];
      EndsExchanged(u[4], m, u[3]);
    }
  }

  lemma EndsExchanged(x: Char, m: Text, y: Char)
    requires Digit(x) && Digit(y) && x != y && Tot([x] + m + [y]) % 97 == 1
    ensures Tot([y] + m + [x]) % 97 == 1 <==> Scale(m + [y]) % 97 == 1
  {
    EndsNumber(x, m, y);
    EndsNumber(y, m, x);
    EndsApart(Worth(x), Worth(y), Scale(m), Tot(m));
  }

  lemma EndsNumber(x: Char, m: Text, y: Char)
    requires Digit(x) && Digit(y)
    ensures Tot([x] + m + [y]) == (Worth(x) * Scale(m) + Tot(m)) * 10 + Worth(y) && Scale(m + [y]) == 10 * Scale(m)
  {
    TotSnoc([x] + m, y);
    TotAppend([x], m);
    assert [] + [x] == [x];
    TotSnoc([], x);
    assert (m + [y])[..|m|] == m;
  }

  lemma EndsApart(x: int, y: int, k: int, t: int)
    requires -9 <= y - x <= 9 && x != y && ((x * k + t) * 10 + y) % 97 == 1
    ensures ((y * k + t) * 10 + x) % 97 == 1 <==> (10 * k) % 97 == 1
  {
    Apart10(y, x, k, t);
    SmallKeeps(y - x, 10 * k - 1);
    OneApart((x * k + t) * 10 + y, (y * k + t) * 10 + x, 10 * k);
  }

  lemma Apart10(y: int, x: int, k: int, t: int)
    ensures (y * k + t) * 10 + x - ((x * k + t) * 10 + y) == (y - x) * (10 * k - 1)
  {
  }

  lemma OneApart(a: int, b: int, k: int)
    requires a % 97 == 1
    ensures (b % 97 == 1 <==> (b - a) % 97 == 0) && ((k - 1) % 97 == 0 <==> k % 97 == 1)
  {
  }

  lemma SmallKeeps(d: int, k: int)
    requires -9 <= d <= 9 && d != 0
    ensures (d * k) % 97 == 0 <==> k % 97 == 0
  {
    if k % 97 == 0 {
      TimesAny(k, d);
    } else if d > 0 {
      Positive(d, k);
    } else {
      Positive(-d, k);
      assert d * k == -(-d * k);
    }
  }

  lemma Positive(d: int, k: int)
    requires 1 <= d <= 9 && k % 97 != 0
    ensures (d * k) % 97 != 0
  {
    if (d * k) % 97 == 0 {
      var e := Inverse97(d);
      TimesAny(d * k, e);
      var q := d * e / 97;
      assert d * k * e == k + 97 * (q * k) by { Associate(k, d, e); assert d * e == 97 * q + 1; }
      Shift(k, q * k);
    }
  }

  function Inverse97(d: int): (e: int)
    requires 1 <= d <= 9
    ensures (d * e) % 97 == 1
  {
    [1, 49, 65, 73, 39, 81, 14, 85, 54][d - 1]
  }

  lemma SameNumber(s: Text, v: Text)
    requires |s| == |v| && Accepted(s) && Upper(s)[2..4] == Upper(v)[2..4] && Base36(Upper(s)) && Base36(Upper(v))
    requires (Tot(Body(Upper(v))) - Tot(Body(Upper(s)))) % 97 == 0
    ensures Accepted(v)
  {
    AcceptedSpec(s);
    AcceptedSpec(v);
    SameCheck(Upper(s), Upper(v));
  }

  lemma SameCheck(u: Text, w: Text)
    requires |u| == |w| >= 4 && Base36(u) && Base36(w) && (Tot(Body(w)) - Tot(Body(u))) % 97 == 0
    ensures Check(u[..2], u[4..]) == Check(w[..2], w[4..])
  {
    BaseIsNatural(Body(u));
    BaseIsNatural(Body(w));
    Together(Tot(Body(u)), Tot(Body(w)));
  }

  lemma Together(x: nat, y: nat)
    requires (y - x) % 97 == 0
    ensures Remainder(x) == Remainder(y)
  {
  }

  // ----------------------------------------------------------------------- base 36

  function Alpha(r: nat): Char
    requires r < 36
  {
    if r < 10 then ZERO + r else CAPITAL_A + (r - 10)
  }

  /** The digits of base 36, and the names that addresses begin with. */
  lemma Letters(r: nat)
    requires r < 36
    ensures Alpha(r) == "0123456789ABCDEFGHIJKLMNOPQRSTUVWXYZ"[r] as int && Worth36(Alpha(r)) == Worth(Alpha(r)) == r
    ensures XE == ['X' as int, 'E' as int]
    ensures XET == ['X' as int, 'E' as int, 'T' as int] && ETH == ['E' as int, 'T' as int, 'H' as int]
  {
  }

  function Digits36(n: nat): (s: Text)
    ensures Base36(s)
  {
    if n == 0 then [] else Digits36(n / 36) + [Alpha(n % 36)]
  }

  function Value36(s: Text): int {
    if s == [] then 0
    else Value36(s[..|s| - 1]) * 36 + Worth36(s[|s| - 1])
  }

  function Worth36(c: Char): int {
    if c < CAPITAL_A then c - ZERO else c - CAPITAL_A + 10
  }

  method ToBase36(n: nat) returns (ret: Text)
    ensures ret == Digits36(n)
  {
    var a := n;
    ret := [];
    while a > 0
      invariant Digits36(n) == Digits36(a) + ret
    {
      var r := a - a / 36 * 36;
      assert r == a % 36;
      ret := [Alpha(r)] + ret;
      a := a / 36;
    }
  }

  /** 160 bits are kept. */
  method FromBase36(s: Text) returns (ret: nat)
    ensures ret == Value36(s) % U160
  {
    ret := 0;
    var k := 0;
    while k < |s|
      invariant k <= |s| && ret == Value36(s[..k]) % U160
    {
      assert s[..k + 1][..k] == s[..k];
      Wraps(Value36(s[..k]), Worth36(s[k]));
      ret := (ret * 36 + (if s[k] < CAPITAL_A then s[k] - ZERO else s[k] - CAPITAL_A + 10)) % U160;
      k := k + 1;
    }
    assert s[..k] == s;
  }

  lemma Wraps(v: int, w: int)
    ensures (v * 36 + w) % U160 == (v % U160 * 36 + w) % U160
  {
    assert v == v / U160 * U160 + v % U160;
    assert v * 36 + w == (v / U160 * 36) * U160 + (v % U160 * 36 + w);
  }

  lemma {:induction false} ValueOfDigits(n: nat)
    ensures Value36(Digits36(n)) == n
  {
    if n > 0 {
      ValueOfDigits(n / 36);
      assert Digits36(n)[..|Digits36(n)| - 1] == Digits36(n / 36);
    }
  }

  function Pow36(k: nat): nat {
    if k == 0 then 1 else 36 * Pow36(k - 1)
  }

  lemma {:induction false} DigitsAreFew(n: nat, k: nat)
    requires n < Pow36(k)
    ensures |Digits36(n)| <= k
  {
    if n > 0 { DigitsAreFew(n / 36, k - 1); }
  }

  lemma Powers()
    ensures Pow36(30) < U160 < Pow36(31)
  {
    SixMore(0); SixMore(6); SixMore(12); SixMore(18); SixMore(24);
  }

  lemma SixMore(k: nat)
    ensures Pow36(k + 6) == 2176782336 * Pow36(k)
  {
    assert Pow36(k + 2) == 1296 * Pow36(k);
    assert Pow36(k + 4) == 1296 * Pow36(k + 2);
    assert Pow36(k + 6) == 1296 * Pow36(k + 4);
  }

  function Zeros(n: nat): (z: Text)
    ensures |z| == n && forall k | 0 <= k < n :: z[k] == ZERO
  {
    seq(n, _ => ZERO)
  }

  lemma {:induction false} ZerosAreNothing(n: nat, s: Text)
    ensures Value36(Zeros(n) + s) == Value36(s)
  {
    var t := Zeros(n) + s;
    if s != [] {
      assert t[..|t| - 1] == Zeros(n) + s[..|s| - 1];
      ZerosAreNothing(n, s[..|s| - 1]);
    } else if n > 0 {
      assert t[..|t| - 1] == Zeros(n - 1) + s;
      ZerosAreNothing(n - 1, s);
    }
  }

  /** A base-36 text is the digits of its value with zeros in front. */
  lemma {:induction false} DigitsOfValue(s: Text)
    requires Base36(s)
    ensures Value36(s) >= 0 && |Digits36(Value36(s))| <= |s|
    ensures s == Zeros(|s| - |Digits36(Value36(s))|) + Digits36(Value36(s))
  {
    if s != [] {
      var init, w := s[..|s| - 1], Worth36(s[|s| - 1]);
      DigitsOfValue(init);
      var v0 := Value36(init);
      assert Value36(s) / 36 == v0 && Value36(s) % 36 == w && Alpha(w) == s[|s| - 1];
      assert s == init + [Alpha(w)];
      if Value36(s) > 0 {
        assert Digits36(Value36(s)) == Digits36(v0) + [Alpha(w)];
      }
    }
  }

  // -------------------------------------------------------------------------- ICAP

  datatype Icap = Invalid | Direct(address: nat) | Indirect(asset: Text, institution: Text, client: Text)

  const XE: Text := [88, 69]
  const XET: Text := [88, 69, 84]
  const ETH: Text := [69, 84, 72]

  predicate Alnum(s: Text) {
    forall k | 0 <= k < |s| :: Digit(s[k]) || Capital(s[k]) || SMALL_A <= s[k] <= SMALL_Z
  }

  predicate Encodable(x: Icap) {
    match x
    case Invalid => false
    case Direct(_) => true
    case Indirect(asset, institution, client) =>
      && Alnum(asset) && Alnum(institution) && Alnum(client)
      && (Upper(asset) == XET || Upper(asset) == ETH) && |institution| == 4 && |client| == 9
  }

  function PaddedTo(d: Text, n: nat): Text {
    Zeros(if |d| < n then n - |d| else 0) + d
  }

  function Padded(d: Text): Text {
    PaddedTo(d, 30)
  }

  function DataOf(x: Icap): Text
    requires Encodable(x)
  {
    match x
    case Direct(a) => Padded(Digits36(a))
    case Indirect(asset, institution, client) => asset + institution + client
  }

  function EncodedOf(x: Icap): Option<Text> {
    if Encodable(x) then Some(IbanOf(XE, DataOf(x))) else None
  }

  method Pad(s: Text) returns (d: Text)
    ensures d == Padded(s)
  {
    d := s;
    while |d| < 30
      invariant |s| <= |d| && d == Zeros(|d| - |s|) + s && (|d| > 30 ==> d == s)
    {
      assert [ZERO] + Zeros(|d| - |s|) == Zeros(|d| + 1 - |s|);
      d := [ZERO] + d;
    }
  }

  /** None where the source throws InvalidICAP. */
  method Encoded(x: Icap) returns (r: Option<Text>)
    ensures r == EncodedOf(x)
  {
    match x {
      case Invalid =>
        r := None;
      case Direct(a) =>
        var d := ToBase36(a);
        d := Pad(d);
        var e := Iban(XE, d);
        r := Some(e);
      case Indirect(asset, institution, client) =>
        if !Alnum(asset) || !Alnum(institution) || !Alnum(client) || |asset| != 3
           || (Upper(asset) != XET && Upper(asset) != ETH) || |institution| != 4 || |client| != 9 {
          return None;
        }
        var e := Iban(XE, asset + institution + client);
        r := Some(e);
    }
  }

  function DecodedOf(s: Text): Option<Icap> {
    if !Accepted(s) || Upper(s)[..2] != XE then None
    else
      var d := Upper(s)[4..];
      if |d| == 30 || |d| == 31 then Some(Direct(Value36(d) % U160))
      else if |d| == 16 && (d[..3] == XET || d[..3] == ETH) then Some(Indirect(d[..3], d[3..7], d[7..]))
      else None
  }

  method Decoded(s: Text) returns (r: Option<Icap>)
    ensures r == DecodedOf(s)
  {
    var country, data := FromIBAN(s);
    if country != XE {
      return None;
    }
    if |data| == 30 || |data| == 31 {
      var a := FromBase36(data);
      r := Some(Direct(a));
    } else if |data| == 16 {
      var asset := data[..3];
      if asset == XET || asset == ETH {
        r := Some(Indirect(asset, data[3..7], data[7..]));
      } else {
        r := None;
      }
    } else {
      r := None;
    }
  }

  /** What `iban` makes of letters and digits, `fromIBAN` takes apart again. */
  lemma IbanIsAccepted(c: Text, d: Text)
    requires |c| == 2 && Base36(c) && Base36(d)
    ensures Accepted(IbanOf(c, d)) && Upper(IbanOf(c, d)) == IbanOf(c, d)
    ensures IbanOf(c, d)[..2] == c && IbanOf(c, d)[4..] == d && |IbanOf(c, d)| == 4 + |d|
  {
    assert Upper(c) == c && Upper(d) == d;
    RestIsOne(c, d);
    var s := IbanOf(c, d);
    assert s[..2] == c && s[4..] == d;
    assert Upper(s) == s;
  }

  /** An address as it comes back: indirect ones in capitals. */
  function InUpper(x: Icap): Icap {
    if x.Indirect? then Indirect(Upper(x.asset), Upper(x.institution), Upper(x.client)) else x
  }

  /** Every address that can be encoded comes back in capitals, so it comes back as it was exactly when it is in
      capitals; a direct one takes 34 or 35 characters. */
  lemma {:induction false} RoundTrip(x: Icap)
    requires Encodable(x)
    requires x.Direct? ==> x.address < U160
    ensures DecodedOf(EncodedOf(x).value) == Some(InUpper(x))
    ensures x.Indirect? ==> (DecodedOf(EncodedOf(x).value) == Some(x) <==>
      InCapitals(x.asset) && InCapitals(x.institution) && InCapitals(x.client))
    ensures x.Direct? ==> 34 <= |EncodedOf(x).value| <= 35
  {
    match x {
      case Direct(a) =>
        DirectData(a);
      case Indirect(asset, institution, client) =>
        UpperTwice(asset + institution + client);
        assert Upper(asset + institution + client) == Upper(asset) + Upper(institution) + Upper(client);
        IndirectData(Upper(asset), Upper(institution), Upper(client));
    }
  }

  lemma DirectData(a: nat)
    requires a < U160
    ensures var e := IbanOf(XE, Padded(Digits36(a))); 34 <= |e| <= 35 && DecodedOf(e) == Some(Direct(a))
  {
    FewDigits(a);
    PaddedValue(a, 30);
    DecodedDirect(Padded(Digits36(a)), a);
    Below(a);
  }

  lemma DecodedDirect(d: Text, v: int)
    requires Base36(d) && (|d| == 30 || |d| == 31) && v == Value36(d)
    ensures DecodedOf(IbanOf(XE, d)) == Some(Direct(v % U160)) && IbanOf(XE, d)[4..] == d && |IbanOf(XE, d)| == 4 + |d|
  {
    IbanIsAccepted(XE, d);
  }

  lemma Below(a: nat)
    requires a < U160
    ensures a % U160 == a == (a + U160) % U160
  {
  }

  lemma FewDigits(a: nat)
    requires a < U160
    ensures |Digits36(a)| <= 31
  {
    Powers();
    DigitsAreFew(a, 31);
  }

  lemma PaddedValue(a: nat, n: nat)
    ensures var d := PaddedTo(Digits36(a), n); Base36(d) && Value36(d) == a && |d| == if |Digits36(a)| < n then n
      else |Digits36(a)|
  {
    var t := Digits36(a);
    ValueOfDigits(a);
    ZerosAreNothing(if |t| < n then n - |t| else 0, t);
  }

  lemma IndirectData(asset: Text, institution: Text, client: Text)
    requires Base36(asset) && Base36(institution) && Base36(client)
    requires (asset == XET || asset == ETH) && |institution| == 4 && |client| == 9
    ensures DecodedOf(IbanOf(XE, asset + institution + client)) == Some(Indirect(asset, institution, client))
  {
    var d := asset + institution + client;
    assert d[..3] == asset && d[3..7] == institution && d[7..] == client;
    IbanIsAccepted(XE, d);
  }

  predicate InCapitals(s: Text) {
    Upper(s) == s
  }

  /** The other way round a direct address comes back exactly when its data is below 2^160 and its 31 characters, if
      it has 31, do not begin with a zero. */
  lemma EncodedAgain(s: Text)
    requires Accepted(s) && Upper(s)[..2] == XE && (|s| == 34 || |s| == 35) && Base36(Upper(s))
    ensures EncodedOf(DecodedOf(s).value) == Some(Upper(s)) <==>
      var d := Upper(s)[4..]; Value36(d) < U160 && (|d| == 30 || d[0] != ZERO)
  {
    var u := Upper(s);
    var d := u[4..];
    var v := Value36(d) % U160;
    assert Base36(d);
    DirectIsPadded(d);
    BothIban(s, Padded(Digits36(v)));
  }

  /** Padding the digits of a value to 30 gives the text back, or it was too long. */
  lemma {:induction false} DirectIsPadded(d: Text)
    requires Base36(d) && (|d| == 30 || |d| == 31)
    ensures Value36(d) >= 0 &&
      (Padded(Digits36(Value36(d) % U160)) == d <==> Value36(d) < U160 && (|d| == 30 || d[0] != ZERO))
  {
    DigitsOfValue(d);
    var n := Value36(d);
    if n < U160 {
      Below(n);
      FirstDigit(n);
      Unpadded(d, Digits36(n));
    } else {
      PaddedValue(n % U160, 30);
    }
  }

  lemma Unpadded(d: Text, t: Text)
    requires (|d| == 30 || |d| == 31) && |t| <= |d| && d == Zeros(|d| - |t|) + t && (t != [] ==> t[0] != ZERO)
    ensures Padded(t) == d <==> |d| == 30 || d[0] != ZERO
  {
    if |d| == 31 && |t| < 31 { assert d[0] == ZERO; }
  }

  lemma BothIban(s: Text, d: Text)
    requires Accepted(s) && Upper(s)[..2] == XE && Base36(d)
    ensures IbanOf(XE, d) == Upper(s) <==> Upper(s)[4..] == d
  {
    IbanIsAccepted(XE, d);
  }

  lemma {:induction false} FirstDigit(n: nat)
    ensures n > 0 ==> Digits36(n) != [] && Digits36(n)[0] != ZERO
  {
    if n >= 36 { FirstDigit(n / 36); }
  }

  /** Two texts that are both accepted and stand for the same address: 160 bits do not hold 31 characters. */
  lemma TwoForOne(a: nat)
    requires a < U160 && a < Pow36(31) && a + U160 < Pow36(31)
    ensures var d, e := PaddedTo(Digits36(a), 31), PaddedTo(Digits36(a + U160), 31);
      IbanOf(XE, d) != IbanOf(XE, e) && DecodedOf(IbanOf(XE, d)) == DecodedOf(IbanOf(XE, e)) == Some(Direct(a))
  {
    PaddedDecodes(a);
    PaddedDecodes(a + U160);
    Below(a);
    if IbanOf(XE, PaddedTo(Digits36(a), 31)) == IbanOf(XE, PaddedTo(Digits36(a + U160), 31)) {
      PaddedValue(a, 31);
      PaddedValue(a + U160, 31);
      assert false;
    }
  }

  lemma PaddedDecodes(a: nat)
    requires a < Pow36(31)
    ensures var d := PaddedTo(Digits36(a), 31);
      IbanOf(XE, d)[4..] == d && DecodedOf(IbanOf(XE, d)) == Some(Direct(a % U160))
  {
    DigitsAreFew(a, 31);
    PaddedValue(a, 31);
    DecodedDirect(PaddedTo(Digits36(a), 31), a);
  }
}
