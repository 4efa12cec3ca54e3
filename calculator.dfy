/** A model of the numeric function library of the demo calculator module:
    exact integer arithmetic, a guarded division, an iterative factorial,
    a list-building Fibonacci generator and a trial-division primality test.
    Each loop of the library is a method proved against a reference
    definition: the recursive `Fact` and `Fib`/`FirstFibs`, and the
    quantified predicates `TrialDivision` and `Prime`. */
module Calculator {

  /** The outcome of an operation that may raise `ValueError`: either a value
      or the error's message. */
  datatype Result<T> = Ok(value: T) | Err(message: string)

  const DivideByZeroMessage: string := "Cannot divide by zero"
  const NegativeFactorialMessage: string := "Factorial not defined for negative numbers"

  // ---------------------------------------------------------------------------
  // Arithmetic
  // ---------------------------------------------------------------------------

  /** `add`: the sum, so that taking either operand away gives back the other. */
  function Add(a: int, b: int): (r: int)
    ensures r - b == a && r - a == b
  {
    a + b
  }

  /** `subtract`: the difference, so that adding `b` back gives `a`. */
  function Subtract(a: int, b: int): (r: int)
    ensures r + b == a
  {
    a - b
  }

  /** `multiply`: the product; it is zero exactly when one factor is. */
  function Multiply(a: int, b: int): (r: int)
    ensures r == 0 <==> a == 0 || b == 0
  {
    a * b
  }

  /** `divide`: fails exactly on a zero divisor; otherwise the exact quotient,
      which multiplied by the divisor gives back the dividend. */
  function Divide(a: int, b: int): (r: Result<real>)
    ensures r.Err? <==> b == 0
    ensures r.Err? ==> r.message == DivideByZeroMessage
    ensures r.Ok? ==> r.value * (b as real) == a as real
  {
    if b == 0 then Err(DivideByZeroMessage) else Ok((a as real) / (b as real))
  }

  lemma AddCommutative(a: int, b: int)
    ensures Add(a, b) == Add(b, a)
  {
  }

  lemma SubtractUndoesAdd(a: int, b: int)
    ensures Subtract(Add(a, b), b) == a
  {
  }

  /** Dividing a product by a nonzero factor gives back the other factor. */
  lemma DivideUndoesMultiply(a: int, b: int)
    requires b != 0
    ensures Divide(Multiply(a, b), b) == Ok(a as real)
  {
    var q := Divide(Multiply(a, b), b).value;
    assert q * (b as real) == (a as real) * (b as real);
  }

  /** `a` added to itself `n` times. */
  function RepeatedSum(a: int, n: nat): (r: int)
  {
    if n == 0 then 0 else Add(RepeatedSum(a, n - 1), a)
  }

  /** The product agrees with repeated addition, for either sign of `b`. */
  lemma {:induction false} MultiplyIsRepeatedSum(a: int, b: int)
    ensures b >= 0 ==> Multiply(a, b) == RepeatedSum(a, b)
    ensures b < 0 ==> Multiply(a, b) == -RepeatedSum(a, -b)
  {
    var n: nat := if b >= 0 then b else -b;
    RepeatedSumIsProduct(a, n);
  }

  lemma {:induction false} RepeatedSumIsProduct(a: int, n: nat)
    ensures RepeatedSum(a, n) == a * n
  {
    if n > 0 {
      RepeatedSumIsProduct(a, n - 1);
      assert a * n == a * (n - 1) + a;
    }
  }

  // ---------------------------------------------------------------------------
  // Factorial
  // ---------------------------------------------------------------------------

  /** The recursive definition: 0! = 1 and n! = n * (n-1)!. */
  function Fact(n: nat): (r: nat)
    ensures r >= 1
    ensures r >= n
  {
    if n == 0 then 1 else n * Fact(n - 1)
  }

  /** `factorial`: rejects negative input, otherwise multiplies the accumulator
      by 2, 3, ..., n in turn, keeping it equal to (i-1)!. */
  method Factorial(n: int) returns (r: Result<int>)
    ensures r.Err? <==> n < 0
    ensures r.Err? ==> r.message == NegativeFactorialMessage
    ensures r.Ok? ==> r.value == Fact(n)
  {
    if n < 0 {
      return Err(NegativeFactorialMessage);
    }
    if n <= 1 {
      return Ok(1);
    }
    var result := 1;
    for i := 2 to n + 1
      invariant result == Fact(i - 1)
    {
      result := result * i;
    }
    return Ok(result);
  }

  // ---------------------------------------------------------------------------
  // Fibonacci
  // ---------------------------------------------------------------------------

  /** The i-th Fibonacci number, counting from Fib(0) = 0. */
  function Fib(i: nat): (r: nat)
  {
    if i == 0 then 0 else if i == 1 then 1 else Fib(i - 1) + Fib(i - 2)
  }

  /** The first `n` Fibonacci numbers. */
  function FirstFibs(n: nat): (r: seq<nat>)
    ensures |r| == n
    ensures forall i :: 0 <= i < n ==> r[i] == Fib(i)
  {
    if n == 0 then [] else FirstFibs(n - 1) + [Fib(n - 1)]
  }

  /** The shape the library builds: starts 0, 1 and each later element is the
      sum of the two before it. */
  predicate IsFibonacciPrefix(s: seq<int>)
  {
    (|s| >= 1 ==> s[0] == 0) &&
    (|s| >= 2 ==> s[1] == 1) &&
    (forall i :: 2 <= i < |s| ==> s[i] == s[i - 1] + s[i - 2])
  }

  /** The shape alone fixes every element: a sequence of that shape holds
      exactly the Fibonacci numbers. */
  lemma {:induction false} FibonacciPrefixIsFirstFibs(s: seq<int>)
    requires IsFibonacciPrefix(s)
    ensures s == FirstFibs(|s|)
  {
    if |s| > 0 {
      var t := s[..|s| - 1];
      assert IsFibonacciPrefix(t);
      FibonacciPrefixIsFirstFibs(t);
      assert s == t + [s[|s| - 1]];
    }
  }

  /** The Fibonacci numbers have the shape the library builds. */
  lemma FibsArePrefix(s: seq<int>)
    requires forall i :: 0 <= i < |s| ==> s[i] == Fib(i)
    ensures IsFibonacciPrefix(s)
  {
  }

  /** `fibonacci`: empty for n <= 0, [0] for n == 1, otherwise starts from
      [0, 1] and appends the sum of the last two until it holds n numbers. */
  method Fibonacci(n: int) returns (fib: seq<int>)
    ensures |fib| == if n <= 0 then 0 else n
    ensures IsFibonacciPrefix(fib)
    ensures forall i :: 0 <= i < |fib| ==> fib[i] == Fib(i)
  {
    if n <= 0 {
      return [];
    }
    if n == 1 {
      return [0];
    }
    fib := [0, 1];
    for i := 2 to n
      invariant fib == FirstFibs(i)
    {
      fib := fib + [fib[i - 1] + fib[i - 2]];
    }
    FibsArePrefix(fib);
  }

  // ---------------------------------------------------------------------------
  // Primality
  // ---------------------------------------------------------------------------

  /** `d` is a (nonzero) divisor of `n`. */
  predicate Divides(d: int, n: int)
  {
    d != 0 && n % d == 0
  }

  /** Mathematical primality: at least 2 and no divisor strictly between 1 and n. */
  predicate Prime(n: int)
  {
    n >= 2 && forall d :: 2 <= d < n ==> !Divides(d, n)
  }

  /** The decision `is_prime` makes: below 2 is not prime, 2 is, other even
      numbers are not, and an odd number is prime when no odd i >= 3 with
      i * i <= n divides it. */
  ghost predicate TrialDivision(n: int)
  {
    n >= 2 &&
    (n == 2 ||
     (n % 2 != 0 && forall i :: 3 <= i && i * i <= n && i % 2 == 1 ==> !Divides(i, n)))
  }

  /** A divisor of an odd number is odd. */
  lemma DivisorOfOddIsOdd(d: int, n: int)
    requires d >= 1 && Divides(d, n) && n % 2 == 1
    ensures d % 2 == 1
  {
    var q := n / d;
    var h := d / 2;
    assert n == d * q;
    assert d == 2 * h + d % 2;
    assert n == 2 * (h * q) + (d % 2) * q;
  }

  lemma MultiplyMonotone(c: int, x: int, y: int)
    requires 0 <= c && x <= y
    ensures c * x <= c * y
  {
  }

  /** A proper divisor d of n has a cofactor q >= 2 with d * q == n. */
  lemma Cofactor(n: int, d: int) returns (q: int)
    requires 2 <= d < n && Divides(d, n)
    ensures q >= 2 && d * q == n
  {
    q := n / d;
    assert d * q == n;
    if q <= 1 {
      MultiplyMonotone(d, q, 1);
    }
  }

  /** Any factor of a product is a divisor of it. */
  lemma FactorDivides(x: int, y: int)
    requires x >= 1
    ensures Divides(x, x * y)
  {
  }

  /** A composite number has a divisor no larger than its square root. */
  lemma {:induction false} SmallDivisor(n: int, d: int) returns (m: int)
    requires 2 <= d < n && Divides(d, n)
    ensures 2 <= m && m * m <= n && Divides(m, n)
  {
    var q := Cofactor(n, d);
    if d <= q {
      MultiplyMonotone(d, d, q);
      m := d;
    } else {
      MultiplyMonotone(q, q, d);
      assert q * d == n;
      FactorDivides(q, d);
      m := q;
    }
  }

  /** Trial division by odd numbers up to the square root decides primality. */
  lemma {:induction false} TrialDivisionIsPrimality(n: int)
    ensures TrialDivision(n) <==> Prime(n)
  {
    if Prime(n) && n > 2 {
      assert n % 2 != 0 by {
        assert !Divides(2, n);
      }
      forall i | 3 <= i && i * i <= n && i % 2 == 1
        ensures !Divides(i, n)
      {
        MultiplyMonotone(i, 1, i);
      }
    }
    if TrialDivision(n) && n > 2 {
      forall d | 2 <= d < n
        ensures !Divides(d, n)
      {
        if Divides(d, n) {
          var m := SmallDivisor(n, d);
          DivisorOfOddIsOdd(m, n);
          assert false;
        }
      }
    }
  }

  /** Once i * i exceeds n, every odd candidate whose square is at most n
      lies below i. */
  lemma CandidatesExhausted(n: int, i: int)
    requires 0 <= i && n < i * i
    requires forall j :: 3 <= j < i && j % 2 == 1 ==> !Divides(j, n)
    ensures forall j :: 3 <= j && j * j <= n && j % 2 == 1 ==> !Divides(j, n)
  {
  }

  /** `is_prime`: the early answers for n < 2, n == 2 and even n, then a loop
      over odd i = 3, 5, ... while i * i <= n that returns false at the first
      divisor. */
  method IsPrime(n: int) returns (b: bool)
    ensures n < 2 ==> !b
    ensures n == 2 ==> b
    ensures n > 2 && n % 2 == 0 ==> !b
    ensures b == TrialDivision(n)
    ensures b <==> Prime(n)
  {
    if n < 2 {
      return false;
    }
    if n == 2 {
      return true;
    }
    if n % 2 == 0 {
      assert Divides(2, n);
      return false;
    }
    var i := 3;
    while i * i <= n
      invariant i >= 3 && i % 2 == 1
      invariant forall j :: 3 <= j < i && j % 2 == 1 ==> !Divides(j, n)
      decreases n - i
    {
      MultiplyMonotone(i, 1, i);
      if n % i == 0 {
        assert Divides(i, n);
        TrialDivisionIsPrimality(n);
        return false;
      }
      i := i + 2;
    }
    CandidatesExhausted(n, i);
    TrialDivisionIsPrimality(n);
    return true;
  }
}
