/** What every module shares: optional values, and numbers as the program spells them. */
module Wrappers {
  datatype Option<+T> = None | Some(value: T) {
    predicate IsFailure() {
      None?
    }

    function PropagateFailure<U>(): Option<U>
      requires None?
    {
      None
    }

    function Extract(): T
      requires Some?
    {
      value
    }
  }

  const DIGITS := "0123456789"

  /** `String(n)` of a natural number. */
  function Decimal(n: nat): string {
    (if n < 10 then "" else Decimal(n / 10)) + [DIGITS[n % 10]]
  }

  lemma DigitsDiffer(i: nat, j: nat)
    requires i < 10 && j < 10 && DIGITS[i] == DIGITS[j]
    ensures i == j
  {
  }

  lemma LastDigit(n: nat)
    ensures var text := Decimal(n);
            && text != [] && text[|text| - 1] == DIGITS[n % 10]
            && text[..|text| - 1] == if n < 10 then "" else Decimal(n / 10)
  {
  }

  lemma {:induction false} DecimalInjective(m: nat, n: nat)
    requires Decimal(m) == Decimal(n)
    ensures m == n
  {
    var text := Decimal(m);
    assert text[|text| - 1] == DIGITS[m % 10] && text[..|text| - 1] == if m < 10 then "" else Decimal(m / 10) by {
      LastDigit(m);
    }
    assert text[|text| - 1] == DIGITS[n % 10] && text[..|text| - 1] == if n < 10 then "" else Decimal(n / 10) by {
      LastDigit(n);
    }
    DigitsDiffer(m % 10, n % 10);
    if m >= 10 && n >= 10 { DecimalInjective(m / 10, n / 10); }
  }
}
