/**
 * The validation vocabulary that payloads use: a failure value, the
 * character-count check, and the builder that gathers the failures of a
 * `validate()` body in order. The Swift definitions of these helpers are not
 * part of this model; they are taken at the meaning their names give them.
 */
module Validation {
  import opened Wrappers
  import opened UnicodeText

  /** A payload field that fails validation. */
  datatype ValidationFailure = TooManyCharacters(name: string, max: int)

  /**
   * `validateCharacterCountDoesNotExceed(_:max:name:)`: one failure when the
   * value is present and holds more than `max` Characters; none otherwise.
   */
  function ValidateCharacterCountDoesNotExceed(value: Option<string>, max: int, name: string, t: UnicodeTables): (r: Option<ValidationFailure>)
    ensures r.Some? <==> value.Some? && t.characterCount(value.value) > max
    ensures r.Some? ==> r.value == TooManyCharacters(name, max)
  {
    match value
    case Some(s) => if t.characterCount(s) > max then Some(TooManyCharacters(name, max)) else None
    case None => None
  }

  /**
   * The result builder of a `validate()` body: the failures its checks
   * report, in the order of the checks; a check that passes adds nothing.
   */
  function Collect(checks: seq<Option<ValidationFailure>>): (r: seq<ValidationFailure>)
    ensures |r| <= |checks|
    ensures forall f :: f in r <==> Some(f) in checks
  {
    if checks == [] then []
    else
      var rest := Collect(checks[1..]);
      assert forall x :: x in checks <==> x == checks[0] || x in checks[1..];
      match checks[0]
      case Some(f) => [f] + rest
      case None => rest
  }

  /** Gathering two lists of checks one after the other gives their failures one after the other. */
  lemma {:induction false} CollectAppend(a: seq<Option<ValidationFailure>>, b: seq<Option<ValidationFailure>>)
    ensures Collect(a + b) == Collect(a) + Collect(b)
  {
    if a != [] {
      assert (a + b)[1..] == a[1..] + b;
      CollectAppend(a[1..], b);
    } else {
      assert a + b == b;
    }
  }
}
