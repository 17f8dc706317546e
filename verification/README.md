# switchlike — a first-match dispatcher, modelled in Dafny

`c++/src/switchlike.cpp` defines `switchlike`, a generic replacement for the
C++ `switch` statement. It takes an input value, an ordered list of
`(key, body)` cases, a default body, and a binary predicate. The predicate
defaults to "key equals input". It walks the cases in list order. The body of
the first case whose predicate holds for `(input, key)` is run, and its result
is returned. If no case matches, the default body is run and its result is
returned.

This project models that dispatcher in two modules:

- `Switchlike` (`switchlike.dfy`) holds the model itself.
  - `Choose` decides which single body runs: `CaseAt(i)` or `Default`.
  - `Switch` returns the selected body's result.
  - `SwitchEq` is `Switch` with the default `==` predicate.
  - `Run` is the imperative loop, proved equal to `Choose` and `Switch`.
  - `SwitchByFilter` is an independent reference: collect every accepted
    index, then take the first.
  - Lemmas relate the dispatcher to that reference and to changes in the case list.
- `SwitchlikeScenarios` (`switchlike_tests.dfy`) restates the three scenarios
  from the source's embedded test as lemmas.

Case bodies are modelled as the values they return. A `void` body whose only
effect is a pass/fail report is modelled by a `Report` value naming that report.

## Model

| member | source | states |
|---|---|---|
| Switchlike.Choose | c++/src/switchlike.cpp:132-138 | A `CaseAt(i)` choice names the lowest-indexed case whose key the predicate accepts for the input. `Default` is chosen exactly when no case is accepted. So exactly one body is chosen: one case or the default, never both. |
| Switchlike.Switch | c++/src/switchlike.cpp:116-139 | The result is the body of the lowest-indexed accepted case, even if later keys also match. If no case is accepted, including for an empty case list, the result is the default body. |
| Switchlike.SwitchEq | c++/src/switchlike.cpp:125-130 | With the default predicate `KeyEquals` (the key `==` the input), the result is the body of the first case whose key equals the input, or the default body if no key equals it. |
| Switchlike.Run | c++/src/switchlike.cpp:132-138 | The loop returns the same body and the same choice as the functional dispatcher. Its invariant is that no case before the current index was accepted. |
| Switchlike.FirstMatchIsChosen | c++/src/switchlike.cpp:132-135 | Case `i` is chosen if and only if it is accepted and no earlier case is. |
| Switchlike.Accepted | c++/src/switchlike.cpp:132-133 | A reference definition, not a transcription of the loop. It lists, in increasing order, exactly the case indices whose key the predicate accepts for the input. |
| Switchlike.SwitchMatchesFilter | c++/src/switchlike.cpp:113-114 | On every input, the first-match dispatcher equals the reference "filter the accepted cases, run the first or else the default". |
| Switchlike.LaterCasesIgnored | c++/src/switchlike.cpp:132-135 | Once some case in a prefix is accepted, appending any further cases does not change the result. |
| Switchlike.RejectedPrefixIgnored | c++/src/switchlike.cpp:132-136 | Leading cases that are all rejected can be removed without changing the result. |
| Switchlike.OnlyInputKeyQueriesMatter | c++/src/switchlike.cpp:106-111 | The predicate matters only through its answers for `(input, key)` with `key` drawn from the case keys. Two predicates that agree on those give the same choice and the same result. |
| SwitchlikeScenarios.CppRem | c++/src/switchlike.cpp:182-185 | The C++ remainder takes the dividend's sign and is smaller in magnitude than the divisor. |
| SwitchlikeScenarios.CppDivision | c++/src/switchlike.cpp:182-185 | The truncating quotient `CppQuot` and the remainder `CppRem` recombine to the dividend: `a == b * q + r`. Together with the bounds on `CppRem`, this fixes C++'s truncating `/` and `%`. |
| SwitchlikeScenarios.Divides | c++/src/switchlike.cpp:182-185 | The scenario's predicate `a % b == 0` holds exactly when the key is non-zero and the input is the key times the truncated quotient. A zero key never matches. |
| SwitchlikeScenarios.StringScenario | c++/src/switchlike.cpp:143-164 | Input "foo" with cases "bar" then "foo" chooses the second case and yields its pass report. |
| SwitchlikeScenarios.DivisibilityScenario | c++/src/switchlike.cpp:166-186 | Input 1 with case 5 under "input divisible by key" falls through to the default, because 1 % 5 is not 0. The reversed question, 5 divisible by 1, would hold. |
| SwitchlikeScenarios.ReturnValueScenario | c++/src/switchlike.cpp:188-205 | Input 1 with case 1 returning 5 and default -1 yields 5. |
| SwitchlikeScenarios.DivisibilityArgumentOrderMatters | c++/src/switchlike.cpp:133 | With the predicate's arguments swapped, the integer scenario would choose the case instead of the default. This shows the argument order `(input, key)` is significant. |

## Left out

- `std::function` bodies are modelled by the values they return. Running a body lazily, side effects of bodies, and lambdas capturing by reference (`[&]`) are not modelled.
- The `void` return type and the no-op default body `[] (){}` (lines 123-124) are C++ typing details. The scenarios use a `Report` result type, with `Nothing` for "does nothing".
- The conversion of each case key to `input_type` in the loop variable (line 132) is not modelled. Keys keep their own type `K`.
- Switchlike.SwitchEq: requires the key type and the input type to be the same, because Dafny's `==` compares values of one type. The source allows any two types that are comparable with `==`.
- SwitchlikeScenarios.Divides: C++ leaves `a % 0` undefined. Here a zero key is simply treated as not matching.
- SwitchlikeScenarios.CppRem: integers are unbounded. C++ `int` is 32-bit, and `INT_MIN % -1` (undefined behaviour) is not modelled.
- The predicate is modelled as a pure, total `(I, K) -> bool`. A stateful `std::function` predicate, where the number and order of calls would be observable, is not modelled.
- Exceptions are not modelled. This covers a predicate or body that throws, and `std::bad_function_call` from an empty `std::function`.
- The test harness (`BugEye.h`, `NAMED_TEST`, `pass`/`fail`/`is`) is not modelled. Its three scenarios are restated as lemmas.
- The optimisation remarks in the doc comment (lines 34-35) describe no behaviour.
- The repository's build-graph tool (Perl) is not part of this model.
