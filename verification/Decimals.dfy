/** Decimal numbers and the normal form under which they are encoded (contracts/typed_values.py). */
module Decimals {

  /** The number coefficient * 10 ^ exponent. */
  datatype Dec = Dec(coefficient: int, exponent: int)

  /** coefficient * 10 ^ n */
  function Scale(coefficient: int, n: nat): int {
    if n == 0 then coefficient else 10 * Scale(coefficient, n - 1)
  }

  /** Numeric equality, whatever the exponents. */
  predicate SameNumber(a: Dec, b: Dec) {
    if a.exponent >= b.exponent then Scale(a.coefficient, a.exponent - b.exponent) == b.coefficient
    else a.coefficient == Scale(b.coefficient, b.exponent - a.exponent)
  }

  function Size(c: int): nat {
    if c < 0 then -c else c
  }

  /** Trailing zeros go into the exponent; zero has one form. */
  function Normalize(d: Dec): Dec
    decreases Size(d.coefficient)
  {
    if d.coefficient == 0 then Dec(0, 0)
    else if d.coefficient % 10 == 0 then Normalize(Dec(d.coefficient / 10, d.exponent + 1))
    else d
  }

  predicate IsNormal(d: Dec) {
    if d.coefficient == 0 then d.exponent == 0 else d.coefficient % 10 != 0
  }

  lemma {:induction false} NormalFormOf(d: Dec)
    ensures IsNormal(Normalize(d))
    ensures d.coefficient == 0 <==> Normalize(d).coefficient == 0
    ensures d.coefficient != 0 ==>
              && Normalize(d).exponent >= d.exponent
              && Scale(Normalize(d).coefficient, Normalize(d).exponent - d.exponent) == d.coefficient
    decreases Size(d.coefficient)
  {
    if d.coefficient != 0 && d.coefficient % 10 == 0 {
      var tenth := Dec(d.coefficient / 10, d.exponent + 1);
      NormalFormOf(tenth);
      var n := Normalize(tenth);
      assert Scale(n.coefficient, n.exponent - d.exponent) == 10 * Scale(n.coefficient, n.exponent - tenth.exponent);
    }
  }

  lemma {:induction false} ScaleAdds(c: int, m: nat, n: nat)
    ensures Scale(Scale(c, m), n) == Scale(c, m + n)
    decreases n
  {
    if n > 0 {
      ScaleAdds(c, m, n - 1);
    }
  }

  lemma {:induction false} ScaleIsInjective(a: int, b: int, n: nat)
    ensures Scale(a, n) == Scale(b, n) <==> a == b
    decreases n
  {
    if n > 0 {
      ScaleIsInjective(a, b, n - 1);
    }
  }

  /** A number not divisible by ten has one scaled form. */
  lemma {:induction false} ScaledFormIsUnique(a: int, m: nat, b: int, n: nat)
    requires a % 10 != 0 && b % 10 != 0 && Scale(a, m) == Scale(b, n)
    ensures m == n && a == b
    decreases m
  {
    if m > 0 && n > 0 {
      ScaledFormIsUnique(a, m - 1, b, n - 1);
    }
  }

  lemma {:induction false} ScaleOfZero(n: nat)
    ensures Scale(0, n) == 0
  {
    if n > 0 {
      ScaleOfZero(n - 1);
    }
  }

  lemma {:induction false} ScaleIsZero(c: int, n: nat)
    ensures Scale(c, n) == 0 <==> c == 0
  {
    ScaleOfZero(n);
    ScaleIsInjective(c, 0, n);
  }

  /** What two decimals are scaled to a common exponent. */
  lemma CommonExponent(a: Dec, b: Dec, low: int)
    requires low <= a.exponent && low <= b.exponent
    ensures SameNumber(a, b) <==> Scale(a.coefficient, a.exponent - low) == Scale(b.coefficient, b.exponent - low)
  {
    if a.exponent >= b.exponent {
      ScaleAdds(a.coefficient, a.exponent - b.exponent, b.exponent - low);
      ScaleIsInjective(Scale(a.coefficient, a.exponent - b.exponent), b.coefficient, b.exponent - low);
    } else {
      ScaleAdds(b.coefficient, b.exponent - a.exponent, a.exponent - low);
      ScaleIsInjective(a.coefficient, Scale(b.coefficient, b.exponent - a.exponent), a.exponent - low);
    }
  }

  /** The normal form is canonical: two decimals share it exactly when they are the same number. */
  lemma NormalFormIsCanonical(a: Dec, b: Dec)
    ensures Normalize(a) == Normalize(b) <==> SameNumber(a, b)
  {
    NormalFormOf(a);
    NormalFormOf(b);
    var low := if a.exponent <= b.exponent then a.exponent else b.exponent;
    CommonExponent(a, b, low);
    ScaleIsZero(a.coefficient, a.exponent - low);
    ScaleIsZero(b.coefficient, b.exponent - low);
    var n, m := Normalize(a), Normalize(b);
    if a.coefficient != 0 && b.coefficient != 0 {
      ScaleAdds(n.coefficient, n.exponent - a.exponent, a.exponent - low);
      ScaleAdds(m.coefficient, m.exponent - b.exponent, b.exponent - low);
      if SameNumber(a, b) {
        ScaledFormIsUnique(n.coefficient, n.exponent - low, m.coefficient, m.exponent - low);
      }
    }
  }

  lemma {:induction false} NormalizeTwice(d: Dec)
    ensures Normalize(Normalize(d)) == Normalize(d)
    decreases Size(d.coefficient)
  {
    NormalFormOf(d);
  }
}
