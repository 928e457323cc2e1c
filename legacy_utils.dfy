/**
 * The helpers of the legacy implementation: a throwing assertion that
 * throws a plain `Error`, and `splitString`, the same list parser as
 * `delimitString`.
 */
module LegacyUtils {
  import opened Js
  import Utils

  /**
   * `invariant(condition, message)`: returns normally exactly when the
   * condition holds, and otherwise throws a plain `Error` whose message is
   * `message`.
   */
  function Invariant(condition: bool, message: string): (r: Completion)
    ensures r.Normal? <==> condition
    ensures r.Abrupt? ==> r.error.name == "Error" && r.error.message == message
  {
    if condition then Normal else Abrupt(Thrown("Error", message))
  }

  /**
   * `splitString(text, delimiter)`, whose delimiter defaults to a comma:
   * the trimmed, non-blank pieces of `text` in order. No piece is empty,
   * starts or ends with whitespace, or contains the delimiter.
   */
  function SplitString(text: string, delimiter: char := ','): (r: seq<string>)
    ensures forall x :: x in r ==> x != "" && IsTrimmed(x) && delimiter !in x
  {
    var parts := Split(text, delimiter);
    var trimmed := TrimAll(parts);
    SplitExcludes(text, delimiter);
    forall x | x in trimmed ensures delimiter !in x {
      var i :| 0 <= i < |parts| && trimmed[i] == x;
      TrimKeepsOut(parts[i], delimiter);
    }
    DropEmpty(trimmed)
  }

  /** The two helpers parse every text, with every delimiter, alike. */
  lemma SplitStringAgrees(text: string, delimiter: char)
    ensures SplitString(text, delimiter) == Utils.DelimitString(text, delimiter)
  {
  }

  /**
   * Order is kept: with the default comma, the pieces of `a` come before
   * the pieces of `b`.
   */
  lemma SplitStringKeepsOrder(a: string, b: string)
    ensures SplitString(a + [','] + b) == SplitString(a) + SplitString(b)
  {
    Utils.DelimitConcat(a, b, ',');
  }
}
