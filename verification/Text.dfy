/** Decimal text of integers, and when joined text determines its parts. */
module Text {
  import opened Grid

  const DIGITS := "0123456789"

  predicate IsDigit(c: char) {
    '0' <= c <= '9'
  }

  function Digits(n: nat): (text: string)
    ensures text != [] && forall c | c in text :: IsDigit(c)
    ensures |text| == 1 <==> n < 10
  {
    if n < 10 then [DIGITS[n]] else Digits(n / 10) + [DIGITS[n % 10]]
  }

  /** The number that decimal digits denote. */
  function Denoted(text: string): nat
    requires forall c | c in text :: IsDigit(c)
  {
    if text == [] then 0
    else
      var last := text[|text| - 1];
      assert IsDigit(last);
      10 * Denoted(text[..|text| - 1]) + (last as int - '0' as int)
  }

  /** The digits denote the number, and a number from ten on has no leading zero. */
  lemma {:induction false} DigitsDenote(n: nat)
    ensures Denoted(Digits(n)) == n
    ensures n > 0 ==> Digits(n)[0] != '0'
  {
    if n >= 10 {
      DigitsDenote(n / 10);
      assert Digits(n)[..|Digits(n)| - 1] == Digits(n / 10);
    }
  }

  /** The decimal text of an integer, as the standard formatter prints it. */
  function IntText(n: int): string {
    if n < 0 then "-" + Digits(-n) else Digits(n)
  }

  predicate IsNumeral(text: string) {
    text != [] && forall c | c in text :: IsDigit(c) || c == '-'
  }

  lemma IntTextIsNumeral(n: int)
    ensures IsNumeral(IntText(n))
  {
  }

  lemma {:induction false} DigitsInjective(a: nat, b: nat)
    requires Digits(a) == Digits(b)
    ensures a == b
  {
    var s, t := Digits(a), Digits(b);
    assert forall i, j | 0 <= i < 10 && 0 <= j < 10 && DIGITS[i] == DIGITS[j] :: i == j;
    if a >= 10 && b >= 10 {
      assert s[..|s| - 1] == Digits(a / 10) && t[..|t| - 1] == Digits(b / 10);
      DigitsInjective(a / 10, b / 10);
      assert s[|s| - 1] == DIGITS[a % 10] && t[|t| - 1] == DIGITS[b % 10];
    } else {
      assert s[0] == DIGITS[a] && t[0] == DIGITS[b];
    }
  }

  lemma IntTextInjective(a: int, b: int)
    requires IntText(a) == IntText(b)
    ensures a == b
  {
    SignShows(a);
    SignShows(b);
    if a < 0 {
      assert IntText(a)[1..] == Digits(-a) && IntText(b)[1..] == Digits(-b);
      DigitsInjective(-a, -b);
    } else {
      DigitsInjective(a, b);
    }
  }

  lemma SignShows(n: int)
    ensures IntText(n)[0] == '-' <==> n < 0
  {
    if n >= 0 {
      assert Digits(n)[0] in Digits(n);
    }
  }

  /** A separator that occurs in neither first part splits the text in one way only. */
  lemma SplitIsUnique(a: string, b: string, c: string, d: string, separator: char)
    requires a + [separator] + b == c + [separator] + d
    requires separator !in a && separator !in c
    ensures a == c && b == d
  {
    SeparatorPosition(a, b, separator);
    SeparatorPosition(c, d, separator);
    var whole := a + [separator] + b;
    assert |a| == |c|;
    assert a == whole[..|a|] && c == whole[..|a|];
    assert b == whole[|a| + 1..] && d == whole[|a| + 1..];
  }

  lemma SeparatorPosition(a: string, b: string, separator: char)
    requires separator !in a
    ensures var whole := a + [separator] + b;
            whole[|a|] == separator && forall i | 0 <= i < |a| :: whole[i] != separator
  {
  }

  function Join(parts: seq<string>, separator: char): string {
    if parts == [] then ""
    else if |parts| == 1 then parts[0]
    else parts[0] + [separator] + Join(parts[1..], separator)
  }

  ghost predicate Free(parts: seq<string>, separator: char) {
    forall i | 0 <= i < |parts| :: separator !in parts[i]
  }

  lemma {:induction false} JoinInjective(a: seq<string>, b: seq<string>, separator: char)
    requires a != [] && b != [] && Free(a, separator) && Free(b, separator)
    requires Join(a, separator) == Join(b, separator)
    ensures a == b
  {
    JoinShowsSeparator(a, separator);
    JoinShowsSeparator(b, separator);
    if |a| > 1 {
      SplitIsUnique(a[0], Join(a[1..], separator), b[0], Join(b[1..], separator), separator);
      JoinInjective(a[1..], b[1..], separator);
      assert a == [a[0]] + a[1..] && b == [b[0]] + b[1..];
    }
  }

  lemma JoinShowsSeparator(parts: seq<string>, separator: char)
    requires parts != [] && Free(parts, separator)
    ensures separator in Join(parts, separator) <==> |parts| > 1
  {
  }

  lemma {:induction false} JoinAvoids(parts: seq<string>, separator: char, c: char)
    requires c != separator && forall i | 0 <= i < |parts| :: c !in parts[i]
    ensures c !in Join(parts, separator)
  {
    if |parts| > 1 {
      JoinAvoids(parts[1..], separator, c);
    }
  }

  /** The text of a grid point, as keys and tokens use it. */
  function PointText(p: Point): string {
    IntText(p.x) + [','] + IntText(p.y)
  }

  lemma PointTextInjective(a: Point, b: Point)
    requires PointText(a) == PointText(b)
    ensures a == b
  {
    IntTextIsNumeral(a.x);
    IntTextIsNumeral(b.x);
    SplitIsUnique(IntText(a.x), IntText(a.y), IntText(b.x), IntText(b.y), ',');
    IntTextInjective(a.x, b.x);
    IntTextInjective(a.y, b.y);
  }
}
