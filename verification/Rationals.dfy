/** Exact rational arithmetic: fractions in lowest terms, their text keys, comparison and rounding. */
module Rationals {
  import opened Grid
  import opened Lists
  import opened Sorting
  import Text

  datatype Rational = Rational(numerator: int, denominator: int)

  function Integer(value: int): Rational {
    Rational(value, 1)
  }

  /** Integer division and remainder as the big-integer type has them: truncated towards zero. */
  function Quotient(a: int, b: int): int
    requires b > 0
  {
    if a >= 0 then a / b else -((-a) / b)
  }

  function Remainder(a: int, b: int): int
    requires b > 0
  {
    if a >= 0 then a % b else -((-a) % b)
  }

  // ----- Euclid's algorithm

  function Gcd(a: nat, b: nat): nat
    decreases b
  {
    if b == 0 then a else Gcd(b, a % b)
  }

  /** The divisor that fractions are reduced by: 1 instead of 0. */
  function CommonDivisor(a: nat, b: nat): nat {
    if Gcd(a, b) == 0 then 1 else Gcd(a, b)
  }

  method GreatestCommonDivisor(first: nat, second: nat) returns (divisor: nat)
    ensures divisor == CommonDivisor(first, second) > 0
  {
    var a: nat, b: nat := first, second;
    while b != 0
      invariant Gcd(a, b) == Gcd(first, second)
      decreases b
    {
      var remainder := Remainder(a, b);
      a := b;
      b := remainder;
    }
    divisor := if a == 0 then 1 else a;
  }

  ghost predicate Divides(d: int, n: int) {
    exists k {:trigger d * k} :: n == d * k
  }

  ghost predicate Coprime(a: int, b: int) {
    forall d | d > 1 :: !(Divides(d, a) && Divides(d, b))
  }

  lemma DivMod(a: nat, b: nat)
    requires b > 0
    ensures a == b * (a / b) + a % b && 0 <= a % b < b
  {
  }

  lemma Combined(g: int, j: int, k: int, q: int)
    ensures (g * j) * q + g * k == g * (j * q + k)
  {
  }

  /** The algorithm's result divides both arguments. */
  lemma {:induction false} GcdDivides(a: nat, b: nat) returns (j: nat, k: nat)
    ensures a == Gcd(a, b) * j && b == Gcd(a, b) * k
    decreases b
  {
    if b == 0 {
      j, k := 1, 0;
    } else {
      var g, q := Gcd(a, b), a / b;
      var j', k' := GcdDivides(b, a % b);
      DivMod(a, b);
      Combined(g, j', k', q);
      j, k := j' * q + k', j';
    }
  }

  /** The result is a combination of the arguments, so every common divisor divides it. */
  lemma {:induction false} Bezout(a: nat, b: nat) returns (s: int, t: int)
    ensures s * a + t * b == Gcd(a, b)
    decreases b
  {
    if b == 0 {
      s, t := 1, 0;
    } else {
      var s', t' := Bezout(b, a % b);
      DivMod(a, b);
      BezoutStep(a, b, a / b, a % b, s', t');
      s, t := t', s' - t' * (a / b);
    }
  }

  lemma BezoutStep(a: int, b: int, q: int, r: int, s: int, t: int)
    requires a == b * q + r
    ensures t * a + (s - t * q) * b == s * b + t * r
  {
  }

  lemma GcdIsPositive(a: nat, b: nat)
    requires b > 0
    ensures Gcd(a, b) > 0
  {
    var j, k := GcdDivides(a, b);
    assert b == Gcd(a, b) * k;
  }

  /** The greatest common divisor is one, and divided by every common divisor. */
  lemma GcdIsGreatest(a: nat, b: nat, d: int)
    requires d > 0 && Divides(d, a) && Divides(d, b)
    ensures Divides(Gcd(a, b), a) && Divides(Gcd(a, b), b) && Divides(d, Gcd(a, b))
  {
    var j, k := GcdDivides(a, b);
    assert a == Gcd(a, b) * j && b == Gcd(a, b) * k;
    var u :| a == d * u;
    var v :| b == d * v;
    var s, t := Bezout(a, b);
    CombinedDivisor(d, u, v, s, t);
    assert Gcd(a, b) == d * (s * u + t * v);
  }

  lemma CombinedDivisor(d: int, u: int, v: int, s: int, t: int)
    ensures s * (d * u) + t * (d * v) == d * (s * u + t * v)
  {
  }

  // ----- lowest terms

  ghost predicate LowestTerms(r: Rational) {
    r.denominator > 0 && Coprime(r.numerator, r.denominator)
  }

  ghost function Value(r: Rational): real
    requires r.denominator != 0
  {
    r.numerator as real / r.denominator as real
  }

  function MakeRational(numerator: int, denominator: int): Rational {
    if denominator == 0 then Integer(0)
    else
      var sign := if denominator < 0 then -1 else 1;
      Reduced(numerator * sign, denominator * sign)
  }

  function Reduced(numerator: int, denominator: int): Rational
    requires denominator > 0
  {
    var divisor := CommonDivisor(Abs(numerator), denominator);
    Rational(Quotient(numerator, divisor), Quotient(denominator, divisor))
  }

  lemma ExactQuotient(g: int, j: int)
    requires g > 0
    ensures Quotient(g * j, g) == j
  {
    Multiples(g, j);
    if j >= 0 {
      OnlyQuotient(g * j, g, j);
    } else {
      OnlyQuotient(-(g * j), g, -j);
    }
  }

  lemma OnlyQuotient(a: nat, g: int, n: int)
    requires g > 0 && a == g * n
    ensures a / g == n
  {
    DivMod(a, g);
    SameQuotient(g, n, a / g, a % g);
  }

  lemma SameQuotient(g: int, n: int, q: int, r: int)
    requires g * n == g * q + r && 0 <= r < g
    ensures q == n
  {
    assert g * (n - q) == r;
    Multiples(g, n - q);
  }

  lemma Multiples(g: int, w: int)
    requires g > 0
    ensures w >= 1 ==> g * w >= g
    ensures w >= 2 ==> g * w >= 2 * g
    ensures w <= 0 ==> g * w <= 0
    ensures w <= -1 ==> g * w <= -g
    ensures w <= -2 ==> g * w <= -2 * g
  {
  }

  /** Coprime by a combination that gives 1. */
  lemma CombinationIsCoprime(a: int, b: int, s: int, t: int)
    requires s * a + t * b == 1
    ensures Coprime(a, b)
  {
    forall d | d > 1 ensures !(Divides(d, a) && Divides(d, b)) {
      if Divides(d, a) && Divides(d, b) {
        var u :| a == d * u;
        var v :| b == d * v;
        CombinedDivisor(d, u, v, s, t);
        NoUnit(d, s * u + t * v);
      }
    }
  }

  lemma NoUnit(d: int, w: int)
    requires d > 1
    ensures d * w != 1
  {
  }

  lemma CoprimeCombination(a: int, b: int) returns (s: int, t: int)
    requires b > 0 && Coprime(a, b)
    ensures s * a + t * b == 1
  {
    var g := Gcd(Abs(a), b);
    var j, k := GcdDivides(Abs(a), b);
    GcdIsPositive(Abs(a), b);
    assert b == g * k;
    SignedFactor(a, g, j);
    assert Divides(g, a) && Divides(g, b);
    var s', t' := Bezout(Abs(a), b);
    s, t := if a < 0 then -s' else s', t';
    assert (-s') * a == s' * -a;
  }

  lemma SignedFactor(a: int, g: int, j: int)
    requires Abs(a) == g * j
    ensures a == g * (if a < 0 then -j else j)
  {
  }

  /** Reducing keeps the value and gives lowest terms. */
  lemma ReducedIsLowest(numerator: int, denominator: int)
    requires denominator > 0
    ensures var r := Reduced(numerator, denominator);
            LowestTerms(r) && r.numerator * denominator == numerator * r.denominator
  {
    var n := Abs(numerator);
    var g := Gcd(n, denominator);
    GcdIsPositive(n, denominator);
    var j, k := GcdDivides(n, denominator);
    var s, t := Bezout(n, denominator);
    ReducedParts(numerator, denominator, g, j, k, s, t);
  }

  lemma ReducedParts(numerator: int, denominator: int, g: int, j: int, k: int, s: int, t: int)
    requires g > 0 && denominator > 0 && Abs(numerator) == g * j && denominator == g * k
    requires s * Abs(numerator) + t * denominator == g
    ensures var r := Rational(Quotient(numerator, g), Quotient(denominator, g));
            LowestTerms(r) && r.numerator * denominator == numerator * r.denominator
  {
    var i := if numerator < 0 then -j else j;
    var s' := if numerator < 0 then -s else s;
    SignedFactor(numerator, g, j);
    ExactQuotient(g, i);
    ExactQuotient(g, k);
    Multiples(g, k);
    CombinedDivisor(g, j, k, s, t);
    CancelFactor(g, s * j + t * k);
    assert (-s) * -j == s * j;
    CombinationIsCoprime(i, k, s', t);
    assert i * (g * k) == (g * i) * k;
  }

  lemma CancelFactor(g: int, w: int)
    requires g > 0 && g * w == g
    ensures w == 1
  {
  }

  /** A normalised fraction has lowest terms and the value of its parts; over zero it is 0/1. */
  lemma MakeRationalIsLowest(numerator: int, denominator: int)
    ensures var r := MakeRational(numerator, denominator);
            && LowestTerms(r)
            && (denominator != 0 ==> r.numerator * denominator == numerator * r.denominator)
            && (denominator == 0 ==> r == Integer(0))
  {
    if denominator == 0 {
      CombinationIsCoprime(0, 1, 0, 1);
    } else {
      var sign := if denominator < 0 then -1 else 1;
      var r := MakeRational(numerator, denominator);
      ReducedIsLowest(numerator * sign, denominator * sign);
      SignedProducts(r.numerator, denominator, numerator, r.denominator, sign);
    }
  }

  lemma SignedProducts(a: int, b: int, c: int, d: int, sign: int)
    requires (sign == 1 || sign == -1) && a * (b * sign) == (c * sign) * d
    ensures a * b == c * d
  {
  }

  /** Lowest terms are unique: equal values have equal parts. */
  lemma LowestTermsAreUnique(a: Rational, b: Rational)
    requires LowestTerms(a) && LowestTerms(b)
    requires a.numerator * b.denominator == b.numerator * a.denominator
    ensures a == b
  {
    DenominatorDivides(a, b);
    DenominatorDivides(b, a);
    var u :| a.denominator == b.denominator * u;
    var v :| b.denominator == a.denominator * v;
    MutualDivisors(a.denominator, b.denominator, u, v);
    EqualFactors(a.numerator, b.numerator, a.denominator);
  }

  lemma EqualFactors(a: int, b: int, d: int)
    requires d > 0 && a * d == b * d
    ensures a == b
  {
  }

  lemma MutualDivisors(a: int, b: int, u: int, v: int)
    requires a > 0 && b > 0 && a == b * u && b == a * v
    ensures a == b
  {
  }

  lemma DenominatorDivides(a: Rational, b: Rational)
    requires LowestTerms(a) && LowestTerms(b)
    requires a.numerator * b.denominator == b.numerator * a.denominator
    ensures Divides(b.denominator, a.denominator)
  {
    var s, t := CoprimeCombination(b.numerator, b.denominator);
    EuclidStep(a.numerator, a.denominator, b.numerator, b.denominator, s, t);
    assert a.denominator == b.denominator * (s * a.numerator + t * a.denominator);
  }

  lemma EuclidStep(n: int, d: int, m: int, e: int, s: int, t: int)
    requires n * e == m * d && s * m + t * e == 1
    ensures d == e * (s * n + t * d)
  {
  }

  // ----- arithmetic and comparison

  function Add(first: Rational, second: Rational): Rational {
    MakeRational(first.numerator * second.denominator + second.numerator * first.denominator,
                 first.denominator * second.denominator)
  }

  function Subtract(first: Rational, second: Rational): Rational {
    MakeRational(first.numerator * second.denominator - second.numerator * first.denominator,
                 first.denominator * second.denominator)
  }

  /** -1, 0 or 1. */
  function Compare(first: Rational, second: Rational): int {
    var left, right := first.numerator * second.denominator, second.numerator * first.denominator;
    if left < right then -1 else if left == right then 0 else 1
  }

  lemma Fraction(n: int, d: int, v: real)
    requires d > 0
    ensures n as real == v * d as real <==> n as real / d as real == v
  {
  }

  /** Values are equal exactly when the cross products are. */
  lemma EqualValues(a: Rational, b: Rational)
    requires a.denominator > 0 && b.denominator > 0
    ensures Value(a) == Value(b) <==> a.numerator * b.denominator == b.numerator * a.denominator
  {
  }

  lemma SumOfFractions(n: int, d: int, m: int, e: int, x: real, y: real)
    requires n as real == x * d as real && m as real == y * e as real
    ensures (n * e + m * d) as real == (x + y) * (d * e) as real
    ensures (n * e - m * d) as real == (x - y) * (d * e) as real
  {
  }

  lemma MakeRationalValue(n: int, d: int, v: real)
    requires d > 0 && n as real == v * d as real
    ensures LowestTerms(MakeRational(n, d)) && Value(MakeRational(n, d)) == v
  {
    var r := MakeRational(n, d);
    MakeRationalIsLowest(n, d);
    EqualValues(r, Rational(n, d));
    Fraction(n, d, v);
  }

  /** The operations compute the real sum and difference, in lowest terms. */
  lemma ArithmeticIsExact(a: Rational, b: Rational)
    requires a.denominator > 0 && b.denominator > 0
    ensures LowestTerms(Add(a, b)) && Value(Add(a, b)) == Value(a) + Value(b)
    ensures LowestTerms(Subtract(a, b)) && Value(Subtract(a, b)) == Value(a) - Value(b)
  {
    Fraction(a.numerator, a.denominator, Value(a));
    Fraction(b.numerator, b.denominator, Value(b));
    SumOfFractions(a.numerator, a.denominator, b.numerator, b.denominator, Value(a), Value(b));
    PositiveProduct(a.denominator, b.denominator);
    MakeRationalValue(a.numerator * b.denominator + b.numerator * a.denominator,
      a.denominator * b.denominator, Value(a) + Value(b));
    MakeRationalValue(a.numerator * b.denominator - b.numerator * a.denominator,
      a.denominator * b.denominator, Value(a) - Value(b));
  }

  lemma PositiveProduct(a: int, b: int)
    requires a > 0 && b > 0
    ensures a * b > 0
  {
  }

  /** Comparison by cross products is comparison of the values. */
  lemma CompareIsExact(a: Rational, b: Rational)
    requires a.denominator > 0 && b.denominator > 0
    ensures Compare(a, b) == -1 <==> Value(a) < Value(b)
    ensures Compare(a, b) == 0 <==> Value(a) == Value(b)
    ensures Compare(a, b) == 1 <==> Value(a) > Value(b)
  {
  }

  // ----- text

  function RationalText(r: Rational): string {
    Text.IntText(r.numerator) + ['/'] + Text.IntText(r.denominator)
  }

  lemma RationalTextInjective(a: Rational, b: Rational)
    requires RationalText(a) == RationalText(b)
    ensures a == b
  {
    Text.IntTextIsNumeral(a.numerator);
    Text.IntTextIsNumeral(b.numerator);
    Text.SplitIsUnique(Text.IntText(a.numerator), Text.IntText(a.denominator),
      Text.IntText(b.numerator), Text.IntText(b.denominator), '/');
    Text.IntTextInjective(a.numerator, b.numerator);
    Text.IntTextInjective(a.denominator, b.denominator);
  }

  lemma RationalTextHasNoComma(r: Rational)
    ensures ',' !in RationalText(r)
  {
  }

  /** For fractions in lowest terms the texts are equal exactly when the values are. */
  lemma TextsAreValues(a: Rational, b: Rational)
    requires LowestTerms(a) && LowestTerms(b)
    ensures RationalText(a) == RationalText(b) <==> Value(a) == Value(b)
  {
    EqualValues(a, b);
    if RationalText(a) == RationalText(b) {
      RationalTextInjective(a, b);
    } else if Value(a) == Value(b) {
      LowestTermsAreUnique(a, b);
    }
  }

  // ----- rounding to the grid

  function RoundRational(value: Rational): int
    requires value.denominator > 0
  {
    var quotient := Quotient(value.numerator, value.denominator);
    var remainder := Remainder(value.numerator, value.denominator);
    if remainder == 0 then quotient
    else if Abs(remainder) * 2 >= value.denominator then quotient + (if value.numerator < 0 then -1 else 1)
    else quotient
  }

  /** The denominator times the distance between `k` and the value. */
  function ScaledDistance(value: Rational, k: int): nat {
    Abs(value.numerator - k * value.denominator)
  }

  lemma TruncatedParts(a: int, b: int)
    requires b > 0
    ensures a == Quotient(a, b) * b + Remainder(a, b)
    ensures if a >= 0 then 0 <= Remainder(a, b) < b else -b < Remainder(a, b) <= 0
  {
  }

  /** Rounding is to a nearest integer, and a tie goes away from zero. */
  lemma RoundIsNearest(value: Rational)
    requires value.denominator > 0
    ensures var r, d := RoundRational(value), ScaledDistance(value, RoundRational(value));
            && 2 * d <= value.denominator
            && (2 * d == value.denominator ==> Abs(r * value.denominator) > Abs(value.numerator))
  {
    var n, b := value.numerator, value.denominator;
    TruncatedParts(n, b);
    var q := Quotient(n, b);
    assert (q + 1) * b == q * b + b && (q - 1) * b == q * b - b;
  }

  /** The rounded value with the floor and the ceiling, without repetitions and sorted. */
  method CanonicalGridAlternatives(value: Rational) returns (unique: seq<int>)
    requires value.denominator > 0
    ensures forall i, j | 0 <= i < j < |unique| :: unique[i] < unique[j]
    ensures forall k :: k in unique <==> ScaledDistance(value, k) < value.denominator
    ensures RoundRational(value) in unique
  {
    var quotient := Quotient(value.numerator, value.denominator);
    var remainder := Remainder(value.numerator, value.denominator);
    var floor := if remainder < 0 then quotient - 1 else quotient;
    var ceil := if remainder > 0 then quotient + 1 else quotient;
    var rounded := RoundRational(value);
    var candidates := [rounded, floor, ceil];
    var kept := [];
    for i := 0 to 3
      invariant forall k :: k in kept <==> k in candidates[..i]
      invariant forall i, j | 0 <= i < j < |kept| :: kept[i] != kept[j]
    {
      assert candidates[..i + 1] == candidates[..i] + [candidates[i]];
      if candidates[i] !in kept {
        kept := kept + [candidates[i]];
      }
    }
    assert candidates[..3] == candidates;
    unique := Sort(kept, (a: int, b: int) => a <= b);
    SortedDistinct(kept);
    forall k ensures k in unique <==> ScaledDistance(value, k) < value.denominator {
      TruncatedParts(value.numerator, value.denominator);
      CloseIntegers(value.denominator, quotient, remainder, k);
      assert k in candidates <==> k == floor || k == ceil;
    }
  }

  /** The integers at a distance below one are the floor and the ceiling. */
  lemma CloseIntegers(b: int, q: int, r: int, k: int)
    requires b > 0 && -b < r < b
    ensures Abs(q * b + r - k * b) < b <==> k == q || (r < 0 && k == q - 1) || (r > 0 && k == q + 1)
  {
    var d := k - q;
    assert q * b + r - k * b == r - d * b;
    Multiples(b, d);
    assert b * d == d * b;
  }

  lemma SortedDistinct(items: seq<int>)
    requires NoRepeats(items)
    ensures var sorted := Sort(items, (a: int, b: int) => a <= b);
            && (forall i, j | 0 <= i < j < |sorted| :: sorted[i] < sorted[j])
            && (forall k :: k in sorted <==> k in items)
  {
    var le := (a: int, b: int) => a <= b;
    var sorted := Sort(items, le);
    SortSorts(items, le);
    SortKeeps(items, le);
    SameItems(sorted, items);
    RearrangedHasNoRepeats(items, sorted);
    forall i, j | 0 <= i < j < |sorted| ensures sorted[i] < sorted[j] {
      assert le(sorted[i], sorted[j]);
    }
  }
}
