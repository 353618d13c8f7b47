/**
 * internal/validator: a map from field name to the first error message
 * recorded for it, plus the membership and uniqueness helpers.
 */
module Validator {
  import opened Wrappers

  type Errors = map<string, string>

  /** The map after recording `message` under `key`: an existing entry always wins. */
  function WithError(errors: Errors, key: string, message: string): (r: Errors)
    ensures r.Keys == errors.Keys + {key}
    ensures forall k :: k in errors ==> r[k] == errors[k]
    ensures key !in errors ==> r[key] == message
  {
    if key in errors then errors else errors[key := message]
  }

  /** The map after recording a problem found under `key`, if there is one. */
  function WithProblem(errors: Errors, key: string, problem: Option<string>): (r: Errors)
    ensures problem.None? ==> r == errors
    ensures problem.Some? ==> r == WithError(errors, key, problem.value)
  {
    match problem
    case None => errors
    case Some(message) => WithError(errors, key, message)
  }

  /** One `Check(ok, key, message)` call, as a rule about a single field. */
  datatype Rule = Rule(ok: bool, message: string)

  /**
   * The message a run of `Check` calls on one key leaves behind when that key
   * had no entry before: the message of the first rule that fails.
   */
  function FirstFailure(rules: seq<Rule>): (r: Option<string>)
    ensures r.None? <==> forall i :: 0 <= i < |rules| ==> rules[i].ok
    ensures r.Some? ==> exists i :: 0 <= i < |rules| && !rules[i].ok && r.value == rules[i].message &&
                                    forall j :: 0 <= j < i ==> rules[j].ok
  {
    if rules == [] then None
    else if !rules[0].ok then Some(rules[0].message)
    else
      var r := FirstFailure(rules[1..]);
      assert forall i :: 1 <= i < |rules| ==> rules[i] == rules[1..][i - 1];
      r
  }

  /** Growing an error map never makes it valid again. */
  lemma StaysInvalid(errors: Errors, key: string, problem: Option<string>)
    requires errors != map[]
    ensures WithProblem(errors, key, problem) != map[]
  {
    var k :| k in errors;
    assert k in WithProblem(errors, key, problem);
  }

  class Validator {
    var errors: Errors

    /** `validator.New()`. */
    constructor ()
      ensures errors == map[]
    {
      errors := map[];
    }

    /** `Valid()`: no error has been recorded. */
    function Valid(): (b: bool)
      reads this
      ensures b <==> errors == map[]
    {
      |errors| == 0
    }

    /** `AddError(key, message)`: records `message` unless `key` already has a message. */
    method AddError(key: string, message: string)
      modifies this
      ensures errors == WithError(old(errors), key, message)
    {
      if key !in errors {
        errors := errors[key := message];
      }
    }

    /** `Check(ok, key, message)`: records `message` only when the check failed. */
    method Check(ok: bool, key: string, message: string)
      modifies this
      ensures errors == if ok then old(errors) else WithError(old(errors), key, message)
    {
      if !ok {
        AddError(key, message);
      }
    }
  }

  /** `In(value, list...)`: a linear search that stops at the first match. */
  method In(value: string, list: seq<string>) returns (found: bool)
    ensures found <==> value in list
  {
    for i := 0 to |list|
      invariant value !in list[..i]
    {
      if value == list[i] {
        return true;
      }
    }
    assert list[..|list|] == list;
    return false;
  }

  /** No element occurs twice. */
  ghost predicate Distinct(s: seq<string>)
  {
    forall i, j :: 0 <= i < j < |s| ==> s[i] != s[j]
  }

  /** The set of elements of a prefix, as the loop in `Unique` builds it. */
  ghost function Elements(s: seq<string>): set<string>
  {
    if s == [] then {} else Elements(s[..|s| - 1]) + {s[|s| - 1]}
  }

  lemma {:induction false} ElementsAre(s: seq<string>)
    ensures forall x :: x in Elements(s) <==> x in s
  {
    if s != [] {
      ElementsAre(s[..|s| - 1]);
      assert s == s[..|s| - 1] + [s[|s| - 1]];
    }
  }

  /** A sequence has as many distinct elements as it is long exactly when it has no repeats. */
  lemma {:induction false} ElementsCount(s: seq<string>)
    ensures |Elements(s)| <= |s|
    ensures |Elements(s)| == |s| <==> Distinct(s)
  {
    if s != [] {
      var p, x := s[..|s| - 1], s[|s| - 1];
      ElementsCount(p);
      ElementsAre(p);
      if x in Elements(p) {
        var k :| 0 <= k < |p| && p[k] == x;
        assert s[k] == s[|s| - 1];
      } else {
        assert |Elements(s)| == |Elements(p)| + 1;
        assert Distinct(s) <==> Distinct(p) by {
          if Distinct(p) {
            forall i, j | 0 <= i < j < |s| ensures s[i] != s[j] {
              if j == |s| - 1 {
                assert s[i] == p[i];
              } else {
                assert s[i] == p[i] && s[j] == p[j];
              }
            }
          }
          if Distinct(s) {
            forall i, j | 0 <= i < j < |p| ensures p[i] != p[j] {
              assert s[i] == p[i] && s[j] == p[j];
            }
          }
        }
      }
    }
  }

  /** `Unique(values)`: puts every value in a set and compares its size with the slice's. */
  method Unique(values: seq<string>) returns (unique: bool)
    ensures unique <==> Distinct(values)
  {
    var seen: set<string> := {};
    for i := 0 to |values|
      invariant seen == Elements(values[..i])
    {
      assert values[..i + 1][..i] == values[..i];
      seen := seen + {values[i]};
    }
    assert values[..|values|] == values;
    ElementsCount(values);
    unique := |values| == |seen|;
  }
}
