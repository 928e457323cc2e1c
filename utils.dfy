/**
 * The helpers of the current implementation: a throwing assertion and
 * the parser of comma-delimited status lists.
 */
module Utils {
  import opened Js

  /** An `InvariantError` carrying `message`. */
  function InvariantError(message: string): Thrown {
    Thrown("InvariantError", message)
  }

  /**
   * `invariant(condition, message)`: returns normally exactly when the
   * condition holds, and otherwise throws an `InvariantError` whose
   * message is `message`.
   */
  function Invariant(condition: bool, message: string): (r: Completion)
    ensures r.Normal? <==> condition
    ensures r.Abrupt? ==> r.error.name == "InvariantError" && r.error.message == message
  {
    if condition then Normal else Abrupt(InvariantError(message))
  }

  /**
   * `delimitString(text, delimiter)`: the pieces of `text` between
   * delimiters, trimmed, with the blank ones dropped. No piece is empty,
   * starts or ends with whitespace, or contains the delimiter.
   */
  function DelimitString(text: string, delimiter: char := ','): (r: seq<string>)
    ensures forall x :: x in r ==> x != "" && IsTrimmed(x) && delimiter !in x
  {
    var parts := Split(text, delimiter);
    var trimmed := TrimAll(parts);
    SplitExcludes(text, delimiter);
    forall x | x in trimmed ensures delimiter !in x {
      var i :| 0 <= i < |parts| && trimmed[i] == x;
      TrimKeepsOut(parts[i], delimiter);
    }
    DropEmpty(trimmed)
  }

  /** `text` holds nothing but delimiters and whitespace. */
  predicate IsBlankList(text: string, d: char) {
    forall i :: 0 <= i < |text| ==> text[i] == d || IsWhitespace(text[i])
  }

  /** The list is empty exactly when the text holds only delimiters and whitespace. */
  lemma {:induction false} DelimitEmptyIffBlank(text: string, d: char)
    ensures DelimitString(text, d) == [] <==> IsBlankList(text, d)
    decreases |text|
  {
    if text == [] {
      DelimitNothing(d);
    } else {
      DelimitEmptyIffBlank(text[1..], d);
      DelimitConsEmpty(text[0], text[1..], d);
      BlankListCons(text, d);
    }
  }

  lemma DelimitNothing(d: char)
    ensures DelimitString("", d) == []
  {
    assert Split("", d) == [""];
    assert TrimAll([""]) == [Trim("")];
  }

  lemma BlankListCons(text: string, d: char)
    requires text != []
    ensures text == [text[0]] + text[1..]
    ensures IsBlankList(text, d) <==> (text[0] == d || IsWhitespace(text[0])) && IsBlankList(text[1..], d)
  {
    if (text[0] == d || IsWhitespace(text[0])) && IsBlankList(text[1..], d) {
      forall i | 0 <= i < |text| ensures text[i] == d || IsWhitespace(text[i]) {
        if i > 0 { assert text[i] == text[1..][i - 1]; }
      }
    }
  }

  /** One more character in front keeps the list empty exactly when it is a delimiter or whitespace. */
  lemma DelimitConsEmpty(c: char, t: string, d: char)
    ensures DelimitString([c] + t, d) == [] <==> (c == d || IsWhitespace(c)) && DelimitString(t, d) == []
  {
    SplitCons(c, t, d);
    var rest := Split(t, d);
    if c == d {
      DropEmptyCons(Trim(""), TrimAll(rest));
    } else {
      var h := [c] + rest[0];
      assert rest == [rest[0]] + rest[1..];
      TrimAllConcat([h], rest[1..]);
      TrimAllConcat([rest[0]], rest[1..]);
      DropEmptyCons(Trim(h), TrimAll(rest[1..]));
      DropEmptyCons(Trim(rest[0]), TrimAll(rest[1..]));
      BlankCons(c, rest[0]);
    }
  }

  lemma DropEmptyCons(x: string, ys: seq<string>)
    ensures DropEmpty([x] + ys) == [] <==> x == "" && DropEmpty(ys) == []
  {
    assert ([x] + ys)[0] == x && ([x] + ys)[1..] == ys;
  }

  lemma BlankCons(c: char, s: string)
    ensures IsBlank([c] + s) <==> IsWhitespace(c) && IsBlank(s)
  {
    var cs := [c] + s;
    assert cs[0] == c;
    assert forall i :: 0 <= i < |s| ==> cs[i + 1] == s[i];
    if IsWhitespace(c) && IsBlank(s) {
      forall i | 0 <= i < |cs| ensures IsWhitespace(cs[i]) {
        if i > 0 { assert cs[i] == s[i - 1]; }
      }
    }
  }

  /**
   * Pieces before a delimiter come before pieces after it: parsing
   * `a,b` gives the list of `a` followed by the list of `b`.
   */
  lemma DelimitConcat(a: string, b: string, d: char)
    ensures DelimitString(a + [d] + b, d) == DelimitString(a, d) + DelimitString(b, d)
  {
    SplitConcat(a, b, d);
    TrimAllConcat(Split(a, d), Split(b, d));
    DropEmptyConcat(TrimAll(Split(a, d)), TrimAll(Split(b, d)));
  }

  /** Text without a delimiter gives its trimmed self, unless it is blank. */
  lemma DelimitSingle(text: string, d: char)
    requires d !in text
    ensures DelimitString(text, d) == if IsBlank(text) then [] else [Trim(text)]
  {
    SplitJoin([text], d);
    assert Join([text], d) == text;
  }

  /**
   * Parsing is a left inverse of joining: a list of non-empty, trimmed,
   * delimiter-free statuses is recovered from its delimited text.
   */
  lemma DelimitJoin(xs: seq<string>, d: char)
    requires forall x :: x in xs ==> x != "" && IsTrimmed(x) && d !in x
    ensures DelimitString(Join(xs, d), d) == xs
  {
    if xs != [] {
      SplitJoin(xs, d);
      TrimAllTrimmed(xs);
    }
  }

  /** Trimming already trimmed parts keeps them. */
  lemma TrimAllTrimmed(xs: seq<string>)
    requires forall x :: x in xs ==> IsTrimmed(x)
    ensures TrimAll(xs) == xs
  {
    forall i | 0 <= i < |xs| ensures TrimAll(xs)[i] == xs[i] {
      assert xs[i] in xs;
    }
  }

  /** Joining the parsed list and parsing again changes nothing. */
  lemma DelimitIdempotent(text: string, d: char)
    ensures DelimitString(Join(DelimitString(text, d), d), d) == DelimitString(text, d)
  {
    DelimitJoin(DelimitString(text, d), d);
  }

  /** A single trimmed word without a delimiter parses to itself. */
  lemma DelimitWord(w: string, d: char)
    requires w != "" && IsTrimmed(w) && d !in w
    ensures DelimitString(w, d) == [w]
  {
    DelimitSingle(w, d);
  }

  /** The default `watch` value parses to the single status "Todo". */
  lemma DelimitDefaultSource()
    ensures DelimitString("Todo") == ["Todo"]
  {
    DelimitWord("Todo", ',');
  }

  /** A `watch` value of only commas and spaces parses to nothing. */
  lemma DelimitOnlyCommas()
    ensures DelimitString(" , ,") == []
  {
    DelimitEmptyIffBlank(" , ,", ',');
  }
}
