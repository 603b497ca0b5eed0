/** The string operations that source and key identifiers need. */
module Text {

  /** White space as `strings.TrimSpace` sees it: Unicode's White_Space property. */
  predicate IsSpace(c: char) {
    || c in {' ', '\t', '\n', '\r', '\U{0B}', '\U{0C}', '\U{85}', '\U{A0}'}
    || '\U{2000}' <= c <= '\U{200A}'
    || c in {'\U{1680}', '\U{2028}', '\U{2029}', '\U{202F}', '\U{205F}', '\U{3000}'}
  }

  /** `strings.TrimSpace(id) == ""` */
  predicate Blank(id: string) { forall i | 0 <= i < |id| :: IsSpace(id[i]) }

  function Digit(d: nat): char
    requires d < 10
  {
    '0' + d as char
  }

  /** The decimal digits of `n`, without leading zeros. */
  function Digits(n: nat): string {
    if n < 10 then [Digit(n)] else Digits(n / 10) + [Digit(n % 10)]
  }

  /** `%d` of `fmt.Sprintf`. */
  function Decimal(z: int): string { if z < 0 then "-" + Digits(-z) else Digits(z) }

  /** The number that decimal digits spell. */
  function Spelled(s: string): int {
    if s == "" then 0 else 10 * Spelled(s[..|s| - 1]) + (s[|s| - 1] as int - '0' as int)
  }

  lemma {:induction false} DigitsSpell(n: nat)
    ensures Spelled(Digits(n)) == n
    ensures n > 0 ==> Digits(n)[0] != '0'
  {
    if n >= 10 {
      DigitsSpell(n / 10);
      DigitsAreDigits(n / 10);
      assert Digits(n)[..|Digits(n)| - 1] == Digits(n / 10);
    } else {
      assert Digits(n)[..0] == "";
    }
  }

  /** An ID is not blank exactly when some character is none of Unicode's 25 white-space characters. */
  lemma BlankExactly(id: string)
    ensures !Blank(id) <==> exists i | 0 <= i < |id| ::
      var c := id[i] as int;
      c !in {9, 10, 11, 12, 13, 32, 0x85, 0xA0, 0x1680, 0x2028, 0x2029, 0x202F, 0x205F, 0x3000}
      && !(0x2000 <= c <= 0x200A)
  {
    forall i | 0 <= i < |id|
      ensures var c := id[i] as int;
        IsSpace(id[i]) <==>
          || c in {9, 10, 11, 12, 13, 32, 0x85, 0xA0, 0x1680, 0x2028, 0x2029, 0x202F, 0x205F, 0x3000}
          || 0x2000 <= c <= 0x200A
    {
    }
  }

  lemma {:induction false} DigitsAreDigits(n: nat)
    ensures Digits(n) != [] && forall i | 0 <= i < |Digits(n)| :: '0' <= Digits(n)[i] <= '9'
    ensures |Digits(n)| == 1 <==> n < 10
  {
    if n >= 10 { DigitsAreDigits(n / 10); }
  }

  lemma {:induction false} DigitsInjective(m: nat, n: nat)
    requires Digits(m) == Digits(n)
    ensures m == n
  {
    DigitsAreDigits(m);
    DigitsAreDigits(n);
    var a, b := Digits(m), Digits(n);
    assert a[|a| - 1] == Digit(m % 10) && b[|b| - 1] == Digit(n % 10);
    if m >= 10 && n >= 10 {
      assert Digits(m / 10) == a[..|a| - 1] == b[..|b| - 1] == Digits(n / 10);
      DigitsInjective(m / 10, n / 10);
    }
  }

  lemma DecimalInjective(y: int, z: int)
    requires Decimal(y) == Decimal(z)
    ensures y == z
  {
    DigitsAreDigits(if y < 0 then -y else y);
    DigitsAreDigits(if z < 0 then -z else z);
    assert y < 0 <==> Decimal(y)[0] == '-';
    assert z < 0 <==> Decimal(z)[0] == '-';
    if y < 0 {
      assert Digits(-y) == Decimal(y)[1..] == Decimal(z)[1..] == Digits(-z);
      DigitsInjective(-y, -z);
    } else {
      DigitsInjective(y, z);
    }
  }
}
