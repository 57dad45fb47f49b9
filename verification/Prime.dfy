// mathlib_is_prime of mathlib_advanced.c: trial division by 2, 3 and the numbers next to a multiple of 6.
module Prime {

  const INT_MAX := 0x7FFF_FFFF

  // The result of the call. Squaring the loop variable past INT_MAX is undefined in C.
  datatype Verdict = Answer(value: int) | SignedOverflow

  predicate Divides(d: int, n: int)
    requires d > 0
  {
    n % d == 0
  }

  function Square(i: int): int { i * i }

  ghost predicate IsPrime(n: int) {
    n >= 2 && forall d :: 2 <= d < n ==> !Divides(d, n)
  }

  ghost predicate NoDivisorBelow(n: int, i: int) {
    forall d :: 2 <= d < i ==> !Divides(d, n)
  }

  lemma SquareMonotone(a: int, b: int)
    requires 0 <= a <= b
    ensures Square(a) <= Square(b)
  {
  }

  lemma MultiplesOf(k: int, e: int)
    requires e > 0
    ensures k == 0 || k * e >= e || k * e <= -e
  {
    if k >= 1 {
      assert (k - 1) * e >= 0;
    } else if k <= -1 {
      assert (-k - 1) * e >= 0;
    }
  }

  lemma NoMultipleBetween(k: int, e: int, r: int)
    requires 0 <= r < e && k * e == r
    ensures r == 0
  {
    MultiplesOf(k, e);
  }

  lemma Factor(a: int, b: int, e: int)
    ensures (a - b) * e == a * e - b * e
  {
  }

  lemma MultipleOf(q: int, e: int)
    requires e > 0
    ensures Divides(e, q * e)
  {
    var n := q * e;
    var q', r := n / e, n % e;
    assert n == e * q' + r && 0 <= r < e;
    Factor(q, q', e);
    NoMultipleBetween(q - q', e, r);
  }

  lemma Quotient(d: int, n: int) returns (q: int)
    requires d > 0 && Divides(d, n)
    ensures n == d * q
  {
    q := n / d;
  }

  lemma CofactorSize(d: int, e: int)
    requires 2 <= d < d * e
    ensures 2 <= e < d * e
  {
    MultiplesOf(e, d);
    assert e != 1;
    assert d * e >= 2 * e;
  }

  // d divides n: so does the quotient.
  lemma Cofactor(n: int, d: int) returns (e: int)
    requires 2 <= d < n && Divides(d, n)
    ensures 2 <= e < n && n == d * e && Divides(e, n)
  {
    hide Divides;
    e := Quotient(d, n);
    CofactorSize(d, e);
    MultipleOf(d, e);
  }

  lemma ProductAtLeast(d: int, e: int, i: int)
    requires 0 <= i <= d && i <= e
    ensures Square(i) <= d * e
  {
    assert i * i <= i * e && i * e <= d * e;
  }

  // A composite number has a divisor at or below its root.
  lemma RootSuffices(n: int, i: int)
    requires n >= 2 && i >= 2 && n < Square(i) && NoDivisorBelow(n, i)
    ensures IsPrime(n)
  {
    hide Divides, Square;
    forall d | 2 <= d < n ensures !Divides(d, n) {
      if Divides(d, n) {
        var e := Cofactor(n, d);
        if d >= i && e >= i {
          ProductAtLeast(d, e, i);
        }
      }
    }
  }

  lemma Associate(q: int, r: int, p: int)
    ensures (p * r) * q == (q * r) * p
  {
  }

  lemma DivisorDivides(n: int, d: int, p: int)
    requires d > 0 && p > 0 && Divides(d, n) && Divides(p, d)
    ensures Divides(p, n)
  {
    hide Divides;
    var q := Quotient(d, n);
    var r := Quotient(p, d);
    Associate(q, r, p);
    MultipleOf(q * r, p);
  }

  // Of i .. i + 5 only i and i + 2 need trying: the others are even or divisible by 3.
  lemma SkippedFactor(i: int, d: int) returns (p: int)
    requires i >= 5 && i % 6 == 5 && (d == i + 1 || d == i + 3 || d == i + 4 || d == i + 5)
    ensures (p == 2 || p == 3) && Divides(p, d)
  {
    p := if d == i + 4 then 3 else 2;
  }

  lemma StepOfSix(n: int, i: int)
    requires i >= 5 && i % 6 == 5 && !Divides(2, n) && !Divides(3, n)
    requires NoDivisorBelow(n, i) && !Divides(i, n) && !Divides(i + 2, n)
    ensures NoDivisorBelow(n, i + 6)
  {
    hide Divides;
    forall d | 2 <= d < i + 6 ensures !Divides(d, n) {
      if d >= i && d != i && d != i + 2 && Divides(d, n) {
        var p := SkippedFactor(i, d);
        DivisorDivides(n, d, p);
      }
    }
  }

  // 46343 is the first number of the loop whose square does not fit.
  lemma LargestSquare(i: int)
    requires i >= 5 && i % 6 == 5
    ensures Square(i) > INT_MAX <==> i >= 46343
    ensures Square(i) <= INT_MAX <==> Square(i) <= 2147117569
  {
    assert Square(46337) == 2147117569 && Square(46343) == 2147673649;
    if i <= 46337 {
      SquareMonotone(i, 46337);
    } else {
      SquareMonotone(46343, i);
    }
  }

  // It is only reached from 46337.
  lemma OverflowFrom(i: int, n: int)
    requires i >= 5 && i % 6 == 5 && Square(i) > INT_MAX && (i == 5 || Square(i - 6) <= n)
    ensures n >= 2147117569
  {
    LargestSquare(i);
    SquareMonotone(46337, i - 6);
  }

  lemma FitsBelow(i: int, n: int)
    requires i >= 5 && i % 6 == 5 && n < Square(i) <= INT_MAX
    ensures n < 2147117569
  {
    LargestSquare(i);
  }

  lemma BothBelow(i: int, n: int)
    requires i >= 5 && Square(i) <= n
    ensures i + 2 < n
  {
    assert i * i >= 5 * i;
  }

  lemma UpToFour(n: int)
    requires n > 0 && !Divides(2, n) && !Divides(3, n)
    ensures NoDivisorBelow(n, 5)
  {
    if Divides(4, n) {
      DivisorDivides(n, 4, 2);
    }
  }

  lemma TwoAndThree(n: int)
    requires 2 <= n <= 3
    ensures IsPrime(n)
  {
    assert !Divides(2, 3);
  }

  // 1 exactly for primes, and undefined exactly for the primes from 46337 squared on.
  method MathlibIsPrime(n: int) returns (r: Verdict)
    requires -INT_MAX - 1 <= n <= INT_MAX
    ensures r.SignedOverflow? <==> IsPrime(n) && n >= 2147117569
    ensures r.Answer? ==> r.value == if IsPrime(n) then 1 else 0
  {
    hide Divides, Square, NoDivisorBelow;
    if n <= 1 {
      return Answer(0);
    }
    if n <= 3 {
      TwoAndThree(n);
      return Answer(1);
    }
    if Divides(2, n) || Divides(3, n) {
      return Answer(0);
    }
    UpToFour(n);
    var i := 5;
    while true
      invariant i >= 5 && i % 6 == 5 && NoDivisorBelow(n, i)
      invariant i == 5 || Square(i - 6) <= n
      decreases n - i
    {
      if Square(i) > INT_MAX {
        RootSuffices(n, i);
        OverflowFrom(i, n);
        return SignedOverflow;
      }
      if Square(i) > n {
        break;
      }
      BothBelow(i, n);
      if Divides(i, n) || Divides(i + 2, n) {
        return Answer(0);
      }
      StepOfSix(n, i);
      i := i + 6;
    }
    RootSuffices(n, i);
    FitsBelow(i, n);
    return Answer(1);
  }
}
