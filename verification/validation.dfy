/**
 * The two closed vocabularies of a where clause, and the checks `setOperator`
 * and `setRelation` apply before storing a value: lower-case the argument,
 * then accept it only if it is on the list.
 */
module Validation {
  import opened Wrappers
  import opened Php

  /** The exceptions the builder raises (their message text is not modelled). */
  datatype Error = InvalidOperator | InvalidRelation | MissingFilterField

  /** The fourteen operators `setOperator` accepts, in the order the class lists them. */
  const ValidOperators: seq<string> := [
    "=", "!=", ">", ">=", "<", "<=", "like", "not like",
    "in", "not in", "between", "not between", "is null", "is not null"
  ]

  /** The relations `setRelation` accepts. */
  const ValidRelations: seq<string> := ["or", "and"]

  /** Case-insensitive equality over ASCII, independent of how `Lower` is computed. */
  predicate EqualsIgnoringCase(a: string, b: string)
  {
    |a| == |b| && forall i :: 0 <= i < |a| ==> LowerChar(a[i]) == LowerChar(b[i])
  }

  lemma ListedAreLowerCase()
    ensures forall o :: o in ValidOperators ==> IsLower(o)
    ensures forall r :: r in ValidRelations ==> IsLower(r)
  {
  }

  /** A string equal, up to case, to a lower-case word lower-cases to that word. */
  lemma LowerOfCaseVariant(s: string, w: string)
    requires IsLower(w)
    ensures EqualsIgnoringCase(s, w) <==> Lower(s) == w
  {
    if EqualsIgnoringCase(s, w) {
      assert forall i :: 0 <= i < |s| ==> Lower(s)[i] == w[i];
    }
    if Lower(s) == w {
      assert forall i :: 0 <= i < |s| ==> LowerChar(LowerChar(s[i])) == LowerChar(s[i]);
    }
  }

  /** A string matches some listed lower-case word up to case exactly when its lower-case form is listed. */
  lemma MatchesListedWord(s: string, words: seq<string>)
    requires forall w :: w in words ==> IsLower(w)
    ensures Lower(s) in words <==> exists w :: w in words && EqualsIgnoringCase(s, w)
  {
    if Lower(s) in words {
      LowerOfCaseVariant(s, Lower(s));
    }
    forall w | w in words && EqualsIgnoringCase(s, w) ensures Lower(s) in words {
      LowerOfCaseVariant(s, w);
    }
  }

  /** `strtolower` followed by `in_array` against a list of lower-case words. */
  function Normalize(arg: Value, words: seq<string>, failure: Error): (r: Result<string, Error>)
    ensures r.Ok? ==> arg.Str? && r.value in words && IsLower(r.value) && |r.value| == |arg.text|
    ensures r.Err? ==> r.error == failure
  {
    if arg.Str? && Lower(arg.text) in words then Ok(Lower(arg.text)) else Err(failure)
  }

  /**
   * The check is exactly case-insensitive membership: it accepts a string
   * that equals a listed word up to case, returns that word, and rejects
   * everything else.
   */
  lemma NormalizeIgnoresCase(arg: Value, words: seq<string>, failure: Error)
    requires forall w :: w in words ==> IsLower(w)
    ensures Normalize(arg, words, failure).Ok? <==> arg.Str? && exists w :: w in words && EqualsIgnoringCase(arg.text, w)
    ensures Normalize(arg, words, failure).Ok? ==> EqualsIgnoringCase(arg.text, Normalize(arg, words, failure).value)
  {
    if arg.Str? {
      MatchesListedWord(arg.text, words);
      LowerOfCaseVariant(arg.text, Lower(arg.text));
    }
  }

  /**
   * `setOperator`'s check: the argument, lower-cased, must be one of the
   * fourteen operators; anything else (including a non-string) is rejected.
   */
  function NormalizeOperator(operator: Value): (r: Result<string, Error>)
    ensures r.Ok? ==> r.value in ValidOperators
    ensures r.Err? ==> r.error == InvalidOperator
  {
    Normalize(operator, ValidOperators, InvalidOperator)
  }

  /** `setRelation`'s check: the argument, lower-cased, must be `and` or `or`. */
  function NormalizeRelation(relation: Value): (r: Result<string, Error>)
    ensures r.Ok? ==> r.value in ValidRelations
    ensures r.Err? ==> r.error == InvalidRelation
  {
    Normalize(relation, ValidRelations, InvalidRelation)
  }

  /** `setOperator` accepts exactly the strings equal, up to case, to one of the fourteen operators. */
  lemma OperatorCheckIgnoresCase(operator: Value)
    ensures NormalizeOperator(operator).Ok? <==>
      operator.Str? && exists o :: o in ValidOperators && EqualsIgnoringCase(operator.text, o)
    ensures NormalizeOperator(operator).Ok? ==> EqualsIgnoringCase(operator.text, NormalizeOperator(operator).value)
  {
    ListedAreLowerCase();
    NormalizeIgnoresCase(operator, ValidOperators, InvalidOperator);
  }

  /** `setRelation` accepts exactly the strings equal, up to case, to `and` or `or`. */
  lemma RelationCheckIgnoresCase(relation: Value)
    ensures NormalizeRelation(relation).Ok? <==>
      relation.Str? && exists w :: w in ValidRelations && EqualsIgnoringCase(relation.text, w)
    ensures NormalizeRelation(relation).Ok? ==> EqualsIgnoringCase(relation.text, NormalizeRelation(relation).value)
  {
    ListedAreLowerCase();
    NormalizeIgnoresCase(relation, ValidRelations, InvalidRelation);
  }

  /** A stored operator or relation is its own normal form: setting it again changes nothing. */
  lemma NormalizeIsIdempotent(v: Value)
    ensures NormalizeOperator(v).Ok? ==> NormalizeOperator(Str(NormalizeOperator(v).value)) == NormalizeOperator(v)
    ensures NormalizeRelation(v).Ok? ==> NormalizeRelation(Str(NormalizeRelation(v).value)) == NormalizeRelation(v)
  {
    if NormalizeOperator(v).Ok? {
      LowerFixesExactlyLowerCase(NormalizeOperator(v).value);
    }
    if NormalizeRelation(v).Ok? {
      LowerFixesExactlyLowerCase(NormalizeRelation(v).value);
    }
  }

  /** The constructor's defaults, operator `=` and relation `and`, pass their own checks. */
  lemma DefaultsAreValid()
    ensures NormalizeOperator(Str("=")) == Ok("=")
    ensures NormalizeRelation(Str("and")) == Ok("and")
  {
    ListedAreLowerCase();
    LowerFixesExactlyLowerCase("=");
    LowerFixesExactlyLowerCase("and");
  }
}
