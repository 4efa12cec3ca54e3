# Calculator numeric library, modelled in Dafny

This project models the numeric function library of the demo calculator
module (`demo/calculator.py`). It has seven stateless functions:

- `add`, `subtract` and `multiply`: exact integer arithmetic.
- `divide`: raises `ValueError("Cannot divide by zero")` on a zero divisor.
- `factorial`: rejects negative input and builds `n!` in an accumulator loop.
- `fibonacci`: builds the first `n` Fibonacci numbers by appending to a list.
- `is_prime`: trial division by odd numbers up to the square root.

`calculator.dfy` (module `Calculator`) holds the model.

- Each Python function is a Dafny function (the pure ones) or a method with a loop (the three loops).
- Each loop is proved against a reference definition. `Fact` and `Fib`/`FirstFibs` are recursive. `Prime` is a quantified predicate: no divisor strictly between 1 and `n`.
- A raised `ValueError` becomes `Err(message)` of the `Result` datatype, with the source's exact message.

`calculator_tests.dfy` (module `CalculatorTests`) holds the values the test suite
`demo/tests/test_calculator.py` expects. The values for `factorial`,
`fibonacci` and `is_prime` are derived from the method contracts of
`Calculator` and the reference definitions `Fact`, `Fib` and `Prime`.
The values for `add`, `subtract`, `multiply` and `divide` follow from those
functions' contracts and bodies.

The source has two misleading comments:

- The docstring of `factorial` says it has a bug. The code is a correct factorial, and the model follows the code.
- The comment on `test_complex_calculation` says the test uses `fibonacci(4)`. The test calls `fibonacci(5)` and expects 11. `ComplexCalculation` follows the test code and proves 11.

## Model

| member | source | states |
|---|---|---|
| `Calculator.Add` | demo/calculator.py:8-10 | subtracting either operand from the result gives back the other operand |
| `Calculator.Subtract` | demo/calculator.py:13-15 | adding `b` back to the result gives `a` |
| `Calculator.Multiply` | demo/calculator.py:18-20 | the product is zero exactly when one of the factors is zero |
| `Calculator.Divide` | demo/calculator.py:23-27 | fails exactly when `b == 0`, with the message "Cannot divide by zero"; otherwise the quotient times `b` is `a` (for quotients within the float range; see Left out) |
| `Calculator.AddCommutative` | demo/calculator.py:8-10 | `add(a, b) == add(b, a)` |
| `Calculator.SubtractUndoesAdd` | demo/calculator.py:8-15 | `subtract(add(a, b), b) == a` |
| `Calculator.DivideUndoesMultiply` | demo/calculator.py:18-27 | for `b != 0`, dividing `multiply(a, b)` by `b` succeeds with `a` |
| `Calculator.MultiplyIsRepeatedSum` | demo/calculator.py:18-20 | the product equals `a` added `abs(b)` times, negated when `b < 0` |
| `Calculator.RepeatedSumIsProduct` | demo/calculator.py:18-20 | adding `a` to itself `n` times gives `a * n` (induction on `n`) |
| `Calculator.Fact` | demo/calculator.py:34-40 | the recursive factorial `0! = 1`, `n! = n * (n-1)!` is at least 1 and at least `n` |
| `Calculator.Factorial` | demo/calculator.py:30-40 | fails exactly when `n < 0`, with "Factorial not defined for negative numbers"; otherwise returns `Fact(n)`; the loop keeps `result == (i-1)!` |
| `Calculator.FirstFibs` | demo/calculator.py:43-53 | the reference list has length `n` and holds `Fib(i)` at each index `i` |
| `Calculator.FibsArePrefix` | demo/calculator.py:50-52 | a list holding `Fib(i)` at each index starts `0, 1` and each later element is the sum of the two before it |
| `Calculator.FibonacciPrefixIsFirstFibs` | demo/calculator.py:50-52 | conversely, any list that starts `0, 1` and obeys that recurrence is exactly the first Fibonacci numbers |
| `Calculator.Fibonacci` | demo/calculator.py:43-53 | the result has length `max(n, 0)`, starts `0, 1`, obeys the recurrence, and holds `Fib(i)` at each index |
| `Calculator.DivisorOfOddIsOdd` | demo/calculator.py:62-67 | an odd number has only odd divisors, so skipping even candidates loses nothing |
| `Calculator.SmallDivisor` | demo/calculator.py:65-67 | a number with a divisor in `[2, n-1]` has one `m >= 2` with `m * m <= n`, so stopping at the square root loses nothing |
| `Calculator.CandidatesExhausted` | demo/calculator.py:65-68 | once `i * i > n` with no odd divisor in `[3, i)`, no odd `j >= 3` with `j * j <= n` divides `n`, so leaving the loop and returning true is justified |
| `Calculator.TrialDivisionIsPrimality` | demo/calculator.py:56-68 | the decision `is_prime` makes (below 2 no, 2 yes, even no, odd: no odd `i >= 3` with `i * i <= n` divides `n`) holds exactly when `n` is prime |
| `Calculator.IsPrime` | demo/calculator.py:56-68 | false for `n < 2`, true for 2, false for even `n > 2`; the result equals `TrialDivision(n)`, the predicate stating the source's decision, and mathematical primality (for `n` whose square root the float conversion can take; see Left out) |
| `CalculatorTests.BasicOperationExamples` | demo/tests/test_calculator.py:23-51 | `add(5,3) == 8`, `add(-5,-3) == -8`, `subtract(10,4) == 6`, `multiply(6,7) == 42`, `divide(20,4) == 5`, `divide(10,0)` fails |
| `CalculatorTests.FactorialExamples` | demo/tests/test_calculator.py:57-74 | `factorial` of 0, 1 and 5 is 1, 1 and 120; `factorial(-1)` fails |
| `CalculatorTests.FibonacciExamples` | demo/tests/test_calculator.py:80-92 | `fibonacci(0) == []`, `fibonacci(1) == [0]`, `fibonacci(10) == [0,1,1,2,3,5,8,13,21,34]` |
| `CalculatorTests.SeventeenIsPrime` | demo/tests/test_calculator.py:102-104 | 17 is prime |
| `CalculatorTests.IsPrimeExamples` | demo/tests/test_calculator.py:98-116 | `is_prime` is true for 2 and 17 and false for 4, 1 and -5 |
| `CalculatorTests.SumOfFirstFiveFactorials` | demo/tests/test_calculator.py:127-143 | `0! + 1! + 1! + 2! + 3! == 11` |
| `CalculatorTests.ComplexCalculation` | demo/tests/test_calculator.py:120-143 | the factorials of `fibonacci(5)`, summed with `add`, give 11 |

## Left out

- The `__main__` demo block (demo/calculator.py:71-79) only prints to the console.
- Divide: returns the exact quotient as a Dafny `real`, not an IEEE double. Python's rounding of `a / b` to the nearest float is not modelled.
- Divide: `a / b` (demo/calculator.py:27) raises `OverflowError` when the quotient is beyond the double range, for example `divide(10**400, 1)`. The model returns `Ok` there, so `r.Err? <==> b == 0` holds only for quotients within the float range.
- IsPrime: uses the integer bound `i * i <= n` where the source uses `int(n**0.5)`. For `n` below `2**52` the source's bound `int(n**0.5)` is the integer square root, so the two loops try the same candidates. For larger `n`, rounding of `n**0.5` can move the source's bound by one, which the model does not capture; a bound one too low could make the source report the square of a large odd prime as prime, where the model answers `Prime(n)`.
- IsPrime: `n**0.5` (demo/calculator.py:65) raises `OverflowError` for an odd `n` too large to convert to a float (about `2**1024` and above), for example `is_prime(10**400 + 1)`. The model returns `Prime(n)` there instead of an error.
- `add`, `subtract` and `multiply` accept any Python numbers; the model covers integers only, as their type hints declare.
- The pytest harness and its `pytest.raises` checks are not modelled. The expected values are stated as lemmas and methods in `CalculatorTests` instead.
