/**
 A model of `switchlike`, a generic first-match dispatcher.

 The dispatcher is given an input value, an ordered list of cases (each a key
 and a body), a default body and a binary predicate. It walks the cases in
 order and yields the body of the first case whose key satisfies
 `predicate(input, key)`; when no case does, it yields the default body.

 Bodies are modelled as the values they would return: a body that only has an
 effect (a `void` body) is modelled by a value describing that effect.
 */
module Switchlike {

  /** One `(key, body)` pair of the case list. */
  datatype Case<K, R> = Case(key: K, body: R)

  /** Which body a dispatch runs: exactly one case body, or the default. */
  datatype Choice = CaseAt(index: nat) | Default

  /** The predicate used when the caller supplies none: the key equals the input. */
  function KeyEquals<I(==)>(input: I, key: I): (equal: bool) {
    key == input
  }

  /** Case `i` is the lowest-indexed case whose key the predicate accepts. */
  ghost predicate IsFirstMatch<I, K, R>(input: I, cases: seq<Case<K, R>>, pred: (I, K) -> bool, i: int) {
    && 0 <= i < |cases|
    && pred(input, cases[i].key)
    && forall j :: 0 <= j < i ==> !pred(input, cases[j].key)
  }

  /** No case's key is accepted by the predicate (vacuously so for an empty list). */
  ghost predicate NoMatch<I, K, R>(input: I, cases: seq<Case<K, R>>, pred: (I, K) -> bool) {
    forall j :: 0 <= j < |cases| ==> !pred(input, cases[j].key)
  }

  /** The body a choice selects. */
  function BodyOf<K, R>(cases: seq<Case<K, R>>, default: R, c: Choice): (body: R)
    requires c.CaseAt? ==> c.index < |cases|
  {
    match c
    case CaseAt(i) => cases[i].body
    case Default => default
  }

  /**
   Decides which body runs: the first accepted case, or the default.
   The predicate is always asked about `(input, key)`, in that order.
   */
  function Choose<I, K, R>(input: I, cases: seq<Case<K, R>>, pred: (I, K) -> bool): (c: Choice)
    ensures c.CaseAt? ==> IsFirstMatch(input, cases, pred, c.index)
    ensures c.Default? <==> NoMatch(input, cases, pred)
    decreases |cases|
  {
    if |cases| == 0 then Default
    else if pred(input, cases[0].key) then CaseAt(0)
    else match Choose(input, cases[1..], pred)
      case CaseAt(i) => CaseAt(i + 1)
      case Default => Default
  }

  /**
   The dispatcher itself: the body of the first case whose key the predicate
   accepts for the input, or the default body when no case is accepted.
   */
  function Switch<I, K, R>(input: I, cases: seq<Case<K, R>>, default: R, pred: (I, K) -> bool): (r: R)
    ensures forall i :: IsFirstMatch(input, cases, pred, i) ==> r == cases[i].body
    ensures NoMatch(input, cases, pred) ==> r == default
    ensures |cases| == 0 ==> r == default
  {
    BodyOf(cases, default, Choose(input, cases, pred))
  }

  /** The dispatcher with the default predicate: keys are compared to the input with `==`. */
  function SwitchEq<I(==), R>(input: I, cases: seq<Case<I, R>>, default: R): (r: R)
    ensures forall i :: 0 <= i < |cases| && cases[i].key == input
                        && (forall j :: 0 <= j < i ==> cases[j].key != input)
                        ==> r == cases[i].body
    ensures (forall j :: 0 <= j < |cases| ==> cases[j].key != input) ==> r == default
  {
    Switch(input, cases, default, KeyEquals)
  }

  /**
   The loop form of the dispatcher: walk the cases in order and return the
   first accepted body, falling back to the default after the loop. Also
   reports which body it ran.
   */
  method Run<I, K, R>(input: I, cases: seq<Case<K, R>>, default: R, pred: (I, K) -> bool)
    returns (r: R, chosen: Choice)
    ensures chosen == Choose(input, cases, pred)
    ensures r == Switch(input, cases, default, pred)
    ensures chosen.CaseAt? ==> chosen.index < |cases| && r == cases[chosen.index].body
    ensures chosen.Default? ==> r == default
  {
    var i := 0;
    while i < |cases|
      invariant 0 <= i <= |cases|
      invariant forall j :: 0 <= j < i ==> !pred(input, cases[j].key)
    {
      if pred(input, cases[i].key) {
        FirstMatchIsChosen(input, cases, pred, i);
        return cases[i].body, CaseAt(i);
      }
      i := i + 1;
    }
    return default, Default;
  }

  /** `Choose` picks case `i` exactly when `i` is the first accepted case. */
  lemma FirstMatchIsChosen<I, K, R>(input: I, cases: seq<Case<K, R>>, pred: (I, K) -> bool, i: nat)
    ensures IsFirstMatch(input, cases, pred, i) <==> Choose(input, cases, pred) == CaseAt(i)
  {
  }

  // ---------------------------------------------------------------------------
  // An independent reference definition: filter, then take the first.
  // ---------------------------------------------------------------------------

  /** The indices of all accepted cases, at or after `from`, in increasing order. */
  function Accepted<I, K, R>(input: I, cases: seq<Case<K, R>>, pred: (I, K) -> bool, from: nat): (ix: seq<nat>)
    requires from <= |cases|
    ensures forall n :: 0 <= n < |ix| ==> from <= ix[n] < |cases| && pred(input, cases[ix[n]].key)
    ensures forall j :: from <= j < |cases| && pred(input, cases[j].key) ==> j in ix
    ensures forall n, m :: 0 <= n < m < |ix| ==> ix[n] < ix[m]
    decreases |cases| - from
  {
    if from == |cases| then []
    else if pred(input, cases[from].key) then [from] + Accepted(input, cases, pred, from + 1)
    else Accepted(input, cases, pred, from + 1)
  }

  /** Reference dispatcher: collect every accepted case, run the first one if any. */
  function SwitchByFilter<I, K, R>(input: I, cases: seq<Case<K, R>>, default: R, pred: (I, K) -> bool): (r: R) {
    var ix := Accepted(input, cases, pred, 0);
    if |ix| == 0 then default else cases[ix[0]].body
  }

  /** The first-match dispatcher agrees with the filter-then-first reference on every input. */
  lemma SwitchMatchesFilter<I, K, R>(input: I, cases: seq<Case<K, R>>, default: R, pred: (I, K) -> bool)
    ensures Switch(input, cases, default, pred) == SwitchByFilter(input, cases, default, pred)
  {
  }

  // ---------------------------------------------------------------------------
  // How the case list shapes the result.
  // ---------------------------------------------------------------------------

  /** Cases after a matching prefix never affect the result, even if their keys also match. */
  lemma {:induction false} LaterCasesIgnored<I, K, R>(input: I, prefix: seq<Case<K, R>>, suffix: seq<Case<K, R>>,
                                                      default: R, pred: (I, K) -> bool)
    requires !NoMatch(input, prefix, pred)
    ensures Switch(input, prefix + suffix, default, pred) == Switch(input, prefix, default, pred)
    decreases |prefix|
  {
    assert (prefix + suffix)[0] == prefix[0];
    if !pred(input, prefix[0].key) {
      assert (prefix + suffix)[1..] == prefix[1..] + suffix;
      LaterCasesIgnored(input, prefix[1..], suffix, default, pred);
    }
  }

  /** Cases that all fail the predicate can be dropped from the front without changing the result. */
  lemma {:induction false} RejectedPrefixIgnored<I, K, R>(input: I, prefix: seq<Case<K, R>>, suffix: seq<Case<K, R>>,
                                                          default: R, pred: (I, K) -> bool)
    requires NoMatch(input, prefix, pred)
    ensures Switch(input, prefix + suffix, default, pred) == Switch(input, suffix, default, pred)
    decreases |prefix|
  {
    if |prefix| > 0 {
      assert (prefix + suffix)[0] == prefix[0];
      assert (prefix + suffix)[1..] == prefix[1..] + suffix;
      RejectedPrefixIgnored(input, prefix[1..], suffix, default, pred);
    } else {
      assert prefix + suffix == suffix;
    }
  }

  /**
   Only the predicate's answers for `(input, key)` pairs of the given case
   keys matter: two predicates that agree there yield the same result.
   */
  lemma OnlyInputKeyQueriesMatter<I, K, R>(input: I, cases: seq<Case<K, R>>, default: R,
                                                              p: (I, K) -> bool, q: (I, K) -> bool)
    requires forall j :: 0 <= j < |cases| ==> p(input, cases[j].key) == q(input, cases[j].key)
    ensures Switch(input, cases, default, p) == Switch(input, cases, default, q)
    ensures Choose(input, cases, p) == Choose(input, cases, q)
  {
  }
}
