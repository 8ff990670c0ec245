/**
 * The three Unicode facts that reactions take from Swift's standard library:
 * how many Characters (extended grapheme clusters) a string holds, which is
 * `String.count`; whether a Unicode scalar has the Emoji property, which is
 * `Unicode.Scalar.Properties.isEmoji`; and whether two strings are equal under
 * `String ==`, which is canonical equivalence. All three come from the
 * Unicode tables, which this model does not reproduce: they are parameters.
 *
 * A Dafny `string` is a sequence of Unicode scalar values, so a string's
 * `unicodeScalars` view is the string itself and `unicodeScalars.count` is `|s|`.
 */
module UnicodeText {

  /** The segmentation, the Emoji property and canonical equivalence of one Unicode version. */
  datatype UnicodeTables = UnicodeTables(
    characterCount: string -> nat,
    isEmoji: char -> bool,
    equivalent: (string, string) -> bool)

  /**
   * What the tables of every Unicode version satisfy: the empty string holds
   * no Character, any other string holds at least one and at most one per
   * scalar, and every string is canonically equivalent to itself.
   */
  ghost predicate WellFormed(t: UnicodeTables) {
    && t.characterCount("") == 0
    && (forall s: string :: s != "" ==> 1 <= t.characterCount(s) <= |s|)
    && (forall s: string :: t.equivalent(s, s))
  }

  /** `s.unicodeScalars.contains(where: p)`: a scan from the first scalar to the last. */
  function ContainsScalar(s: string, p: char -> bool): (r: bool)
    ensures r <==> exists i :: 0 <= i < |s| && p(s[i])
  {
    if s == [] then false
    else if p(s[0]) then true
    else
      var rest := ContainsScalar(s[1..], p);
      assert forall i :: 1 <= i < |s| ==> s[i] == s[1..][i - 1];
      rest
  }
}
