/**
 The three scenarios exercised alongside `switchlike`, restated as lemmas
 about the model.

 The first two scenarios use `void` bodies whose only effect is to report a
 passing or failing check; such a body is modelled by the report it makes.
 */
module SwitchlikeScenarios {
  import opened Switchlike

  /** The effect of a `void` case body: a pass or fail report, or nothing at all. */
  datatype Report = Pass(message: string) | Fail(message: string) | Nothing

  /**
   The quotient of C++'s `/` on `int`: it truncates toward zero, where
   Dafny's `/` is Euclidean.
   */
  function CppQuot(a: int, b: int): (q: int)
    requires b != 0
  {
    var m := if b > 0 then b else -b;
    var qm := if a >= 0 then a / m else -((-a) / m);
    if b > 0 then qm else -qm
  }

  /**
   The remainder of C++'s `%` on `int`: it takes the sign of the dividend and
   is smaller in magnitude than the divisor. Dafny's `%` is Euclidean instead.
   */
  function CppRem(a: int, b: int): (r: int)
    requires b != 0
    ensures a >= 0 ==> 0 <= r < if b > 0 then b else -b
    ensures a < 0 ==> -(if b > 0 then b else -b) < r <= 0
  {
    var m := if b > 0 then b else -b;
    if a >= 0 then a % m else -((-a) % m)
  }

  /**
   C++'s `/` and `%` fit together: `(a / b) * b + a % b == a`. With the sign
   and magnitude bounds of `CppRem`, this fixes both as truncating division.
   */
  lemma CppDivision(a: int, b: int)
    requires b != 0
    ensures a == b * CppQuot(a, b) + CppRem(a, b)
  {
  }

  /**
   The custom predicate of the integer scenario, `a % b == 0`: the input is a
   whole multiple of the key. Division by zero is undefined in C++; here a
   zero key never matches.
   */
  function Divides(input: int, key: int): (r: bool)
    ensures r <==> key != 0 && input == key * CppQuot(input, key)
    ensures key == 0 ==> !r
  {
    if key == 0 then false
    else
      CppDivision(input, key);
      CppRem(input, key) == 0
  }

  /** String input "foo" with cases "bar", "foo": the second case runs, not the first. */
  lemma StringScenario()
    ensures Choose("foo", [Case("bar", Fail("Wrong case for foo")), Case("foo", Pass("Right case for foo"))],
                   KeyEquals) == CaseAt(1)
    ensures SwitchEq("foo", [Case("bar", Fail("Wrong case for foo")), Case("foo", Pass("Right case for foo"))],
                     Nothing) == Pass("Right case for foo")
  {
  }

  /**
   Integer input 1 with the single case 5 under the divisibility predicate:
   1 % 5 is not 0, so the default runs. The predicate is asked about
   (input, key), so the reversed question (5 % 1 == 0) plays no part.
   */
  lemma DivisibilityScenario()
    ensures Switch(1, [Case(5, Fail("Wrong case for 1"))], Pass("Right case for 1"), Divides)
            == Pass("Right case for 1")
    ensures Divides(5, 1)
  {
  }

  /** Integer input 1 with case 1 returning 5 and default -1, under `==`: the result is 5. */
  lemma ReturnValueScenario()
    ensures SwitchEq(1, [Case(1, 5)], -1) == 5
  {
  }

  /** With the arguments in the other order, the integer scenario would pick the case instead. */
  lemma DivisibilityArgumentOrderMatters()
    ensures Switch(1, [Case(5, Fail("Wrong case for 1"))], Pass("Right case for 1"),
                   (a: int, b: int) => Divides(b, a)) == Fail("Wrong case for 1")
  {
  }
}
