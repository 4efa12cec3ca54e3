/** The expected values of the calculator's test suite. Those of `factorial`,
    `fibonacci` and `is_prime` follow from the method contracts of `Calculator`
    and the reference definitions `Fact`, `Fib` and `Prime`; those of the
    arithmetic functions follow from their contracts and bodies. */
module CalculatorTests {
  import opened Calculator

  lemma BasicOperationExamples()
    ensures Add(5, 3) == 8
    ensures Add(-5, -3) == -8
    ensures Subtract(10, 4) == 6
    ensures Multiply(6, 7) == 42
    ensures Divide(20, 4) == Ok(5.0)
    ensures Divide(10, 0) == Err("Cannot divide by zero")
  {
  }

  /** factorial(0), factorial(1), factorial(5) and factorial(-1). */
  method FactorialExamples() returns (f0: Result<int>, f1: Result<int>, f5: Result<int>, fNeg: Result<int>)
    ensures f0 == Ok(1) && f1 == Ok(1) && f5 == Ok(120)
    ensures fNeg == Err("Factorial not defined for negative numbers")
  {
    f0 := Factorial(0);
    f1 := Factorial(1);
    f5 := Factorial(5);
    fNeg := Factorial(-1);
  }

  /** fibonacci(0), fibonacci(1) and fibonacci(10). */
  method FibonacciExamples() returns (s0: seq<int>, s1: seq<int>, s10: seq<int>)
    ensures s0 == [] && s1 == [0]
    ensures s10 == [0, 1, 1, 2, 3, 5, 8, 13, 21, 34]
  {
    s0 := Fibonacci(0);
    s1 := Fibonacci(1);
    s10 := Fibonacci(10);
    assert Fib(9) == 34;
  }

  /** 17 is prime. */
  lemma SeventeenIsPrime()
    ensures Prime(17)
  {
  }

  /** is_prime(2), is_prime(17), is_prime(4), is_prime(1) and is_prime(-5). */
  method IsPrimeExamples() returns (p2: bool, p17: bool, p4: bool, p1: bool, pNeg: bool)
    ensures p2 && p17
    ensures !p4 && !p1 && !pNeg
  {
    p2 := IsPrime(2);
    SeventeenIsPrime();
    p17 := IsPrime(17);
    assert Divides(2, 4);
    p4 := IsPrime(4);
    p1 := IsPrime(1);
    pNeg := IsPrime(-5);
  }

  function Sum(s: seq<int>): (r: int)
  {
    if s == [] then 0 else Sum(s[..|s| - 1]) + s[|s| - 1]
  }

  /** 0! + 1! + 1! + 2! + 3! == 11. */
  lemma SumOfFirstFiveFactorials()
    ensures Sum([Fact(0), Fact(1), Fact(1), Fact(2), Fact(3)]) == 11
  {
    assert [Fact(0), Fact(1), Fact(1), Fact(2), Fact(3)] == [1, 1, 1, 2, 6];
    assert [1][..0] == [] && Sum([1]) == 1;
    assert [1, 1][..1] == [1] && Sum([1, 1]) == 2;
    assert [1, 1, 1][..2] == [1, 1] && Sum([1, 1, 1]) == 3;
    assert [1, 1, 1, 2][..3] == [1, 1, 1] && Sum([1, 1, 1, 2]) == 5;
    assert [1, 1, 1, 2, 6][..4] == [1, 1, 1, 2];
  }

  /** The sum of the factorials of the first five Fibonacci numbers,
      0! + 1! + 1! + 2! + 3!, accumulated with `add`. */
  method ComplexCalculation() returns (total: int)
    ensures total == 11
  {
    var fibNumbers := Fibonacci(5);
    assert fibNumbers == [0, 1, 1, 2, 3] by {
      FibonacciPrefixIsFirstFibs(fibNumbers);
    }
    var factorials: seq<int> := [];
    for k := 0 to |fibNumbers|
      invariant factorials == [1, 1, 1, 2, 6][..k]
    {
      var fact := Factorial(fibNumbers[k]);
      factorials := factorials + [fact.value];
    }
    total := 0;
    for k := 0 to |factorials|
      invariant total == Sum(factorials[..k])
    {
      assert factorials[..k + 1] == factorials[..k] + [factorials[k]];
      total := Add(total, factorials[k]);
    }
    assert factorials[..5] == [Fact(0), Fact(1), Fact(1), Fact(2), Fact(3)];
    SumOfFirstFiveFactorials();
  }
}
