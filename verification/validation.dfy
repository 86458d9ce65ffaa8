/**
 * The pattern every validation layer of the site follows: an ordered list of
 * rules, the first failing one deciding the error that is reported; and the
 * `a || b || c` chains that pick the first usable value.
 */
module Validation {
  import opened Wrappers
  import opened JsValue

  /** One rule: whether it passes, and the message it reports when it does not. */
  datatype Rule = Rule(passes: bool, message: string)

  /** The rules at indices below `k` all pass. */
  predicate PassBefore(rules: seq<Rule>, k: int)
    requires 0 <= k <= |rules|
  {
    forall j :: 0 <= j < k ==> rules[j].passes
  }

  /** The message of the first failing rule, or `None` when every rule passes. */
  function FirstFailure(rules: seq<Rule>): Option<string>
  {
    if rules == [] then None
    else if !rules[0].passes then Some(rules[0].message)
    else FirstFailure(rules[1..])
  }

  /**
   * `FirstFailure` reports nothing exactly when every rule passes, and otherwise
   * the message of a failing rule all of whose predecessors pass.
   */
  lemma {:induction false} FirstFailureSpec(rules: seq<Rule>)
    ensures FirstFailure(rules).None? <==> PassBefore(rules, |rules|)
    ensures FirstFailure(rules).Some? ==>
      exists k :: 0 <= k < |rules| && !rules[k].passes && rules[k].message == FirstFailure(rules).value
                  && PassBefore(rules, k)
  {
    if rules != [] && rules[0].passes {
      var rest := rules[1..];
      FirstFailureSpec(rest);
      PassBeforeShift(rules, |rules|);
      if FirstFailure(rest).Some? {
        var k :| 0 <= k < |rest| && !rest[k].passes && rest[k].message == FirstFailure(rest).value
                 && PassBefore(rest, k);
        PassBeforeShift(rules, k + 1);
        assert rules[k + 1] == rest[k];
      }
    } else if rules != [] {
      assert PassBefore(rules, 0);
    }
  }

  /** With a passing first rule, the first `k` rules pass exactly when the `k - 1` after it do. */
  lemma PassBeforeShift(rules: seq<Rule>, k: int)
    requires 1 <= k <= |rules| && rules[0].passes
    ensures PassBefore(rules, k) <==> PassBefore(rules[1..], k - 1)
  {
    if PassBefore(rules[1..], k - 1) {
      forall j | 0 <= j < k ensures rules[j].passes {
        if j > 0 { assert rules[j] == rules[1..][j - 1]; }
      }
    }
  }

  /** Three rules in order: the first failing one decides. */
  lemma FirstFailureOfThree(r0: Rule, r1: Rule, r2: Rule)
    ensures FirstFailure([r0, r1, r2]) ==
      if !r0.passes then Some(r0.message)
      else if !r1.passes then Some(r1.message)
      else if !r2.passes then Some(r2.message)
      else None
  {
    assert [r0, r1, r2][1..] == [r1, r2] && [r1, r2][1..] == [r2] && [r2][1..] == [];
    FirstFailureStep([r0, r1, r2]);
    FirstFailureStep([r1, r2]);
    FirstFailureStep([r2]);
  }

  /** Two rules in order: the first failing one decides. */
  lemma FirstFailureOfTwo(r0: Rule, r1: Rule)
    ensures FirstFailure([r0, r1]) ==
      if !r0.passes then Some(r0.message)
      else if !r1.passes then Some(r1.message)
      else None
  {
    assert [r0, r1][1..] == [r1] && [r1][1..] == [];
    FirstFailureStep([r0, r1]);
    FirstFailureStep([r1]);
  }

  lemma FirstFailureStep(rules: seq<Rule>)
    requires rules != []
    ensures FirstFailure(rules) == if !rules[0].passes then Some(rules[0].message) else FirstFailure(rules[1..])
  {
  }

  /** The first truthy candidate, or `undefined` when there is none. */
  function FirstTruthy(candidates: seq<Value>): Value
  {
    if candidates == [] then Undefined
    else if Truthy(candidates[0]) then candidates[0]
    else FirstTruthy(candidates[1..])
  }

  /**
   * `FirstTruthy` gives a truthy candidate all of whose predecessors are falsy,
   * and `undefined` exactly when every candidate is falsy.
   */
  lemma {:induction false} FirstTruthySpec(candidates: seq<Value>)
    ensures var r := FirstTruthy(candidates);
      && (r.Undefined? || Truthy(r))
      && (Truthy(r) ==> exists k :: 0 <= k < |candidates| && candidates[k] == r &&
                         forall j :: 0 <= j < k ==> !Truthy(candidates[j]))
      && (!Truthy(r) <==> forall k :: 0 <= k < |candidates| ==> !Truthy(candidates[k]))
  {
    if candidates != [] && !Truthy(candidates[0]) {
      var rest := candidates[1..];
      FirstTruthySpec(rest);
      assert forall k :: 1 <= k < |candidates| ==> candidates[k] == rest[k - 1];
      if Truthy(FirstTruthy(rest)) {
        var k :| 0 <= k < |rest| && rest[k] == FirstTruthy(rest) &&
                 forall j :: 0 <= j < k ==> !Truthy(rest[j]);
        assert candidates[k + 1] == FirstTruthy(candidates);
      }
    }
  }

  /** A left-nested `||` chain with a truthy last operand is the first truthy operand. */
  lemma OrChain(a: Value, b: Value, c: Value, d: Value)
    requires Truthy(d)
    ensures Or(Or(Or(a, b), c), d) == FirstTruthy([a, b, c, d])
  {
    assert [a, b, c, d][1..] == [b, c, d] && [b, c, d][1..] == [c, d] && [c, d][1..] == [d] && [d][1..] == [];
    FirstTruthyStep([a, b, c, d]);
    FirstTruthyStep([b, c, d]);
    FirstTruthyStep([c, d]);
    FirstTruthyStep([d]);
  }

  lemma FirstTruthyStep(candidates: seq<Value>)
    requires candidates != []
    ensures FirstTruthy(candidates) ==
      if Truthy(candidates[0]) then candidates[0] else FirstTruthy(candidates[1..])
  {
  }
}
