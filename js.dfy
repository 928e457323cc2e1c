/**
 * The pieces of the JavaScript runtime that the action's core relies on:
 * thrown errors, `String.prototype.trim`, `String.prototype.split` with a
 * one-character separator, `Array.prototype.find`, and the decimal
 * rendering of a number inside a template literal. `Array.prototype.join`
 * is here only to state the round trip of splitting and joining.
 */
module Js {
  import opened Wrappers

  // ---------------------------------------------------------------------
  // Errors and completions
  // ---------------------------------------------------------------------

  /** A thrown error object: its `name` and its `message`. */
  datatype Thrown = Thrown(name: string, message: string)

  /** How a statement that may throw ends: normally, or by throwing. */
  datatype Completion = Normal | Abrupt(error: Thrown)

  function TypeError(message: string): Thrown {
    Thrown("TypeError", message)
  }

  /** What V8 says when `.length` is read from `undefined`. */
  const ReadLengthOfUndefined := "Cannot read properties of undefined (reading 'length')"
  /** What V8 says when `.number` is read from `null`. */
  const ReadNumberOfNull := "Cannot read properties of null (reading 'number')"
  /** What V8 says when `.name` is read from `null`. */
  const ReadNameOfNull := "Cannot read properties of null (reading 'name')"
  /** What V8 says when `.filter` is read from `null`. */
  const ReadFilterOfNull := "Cannot read properties of null (reading 'filter')"
  /** What V8 says when `{ nodes, pageInfo }` is destructured from `null`. */
  const DestructureItemsOfNull := "Cannot destructure property 'nodes' of 'items' as it is null."

  // ---------------------------------------------------------------------
  // String.prototype.trim
  // ---------------------------------------------------------------------

  /**
   * The WhiteSpace and LineTerminator code points of ECMAScript: TAB, VT,
   * FF, SPACE, NBSP, ZWNBSP, the other space separators, LF, CR, LS and PS.
   */
  predicate IsWhitespace(c: char) {
    || c == '\t' || c == '\U{000B}' || c == '\U{000C}' || c == ' '
    || c == '\U{00A0}' || c == '\U{FEFF}' || c == '\U{1680}'
    || ('\U{2000}' <= c <= '\U{200A}')
    || c == '\U{202F}' || c == '\U{205F}' || c == '\U{3000}'
    || c == '\n' || c == '\r' || c == '\U{2028}' || c == '\U{2029}'
  }

  /** Every character of `s` is whitespace (vacuously so for ""). */
  predicate IsBlank(s: string) {
    forall i :: 0 <= i < |s| ==> IsWhitespace(s[i])
  }

  /** `s` neither starts nor ends with whitespace. */
  predicate IsTrimmed(s: string) {
    s == [] || (!IsWhitespace(s[0]) && !IsWhitespace(s[|s| - 1]))
  }

  function TrimStart(s: string): (r: string)
    ensures |r| <= |s| && r == s[|s| - |r|..]
    ensures r == [] || !IsWhitespace(r[0])
    ensures IsBlank(s[..|s| - |r|])
  {
    if s != [] && IsWhitespace(s[0]) then
      var r := TrimStart(s[1..]);
      assert s[..|s| - |r|] == [s[0]] + s[1..][..|s| - 1 - |r|];
      r
    else s
  }

  function TrimEnd(s: string): (r: string)
    ensures |r| <= |s| && r == s[..|r|]
    ensures r == [] || !IsWhitespace(r[|r| - 1])
    ensures IsBlank(s[|r|..])
  {
    if s != [] && IsWhitespace(s[|s| - 1]) then
      var r := TrimEnd(s[..|s| - 1]);
      assert s[|r|..] == s[..|s| - 1][|r|..] + [s[|s| - 1]];
      r
    else s
  }

  /**
   * `String.prototype.trim`: the result starts and ends with a
   * non-whitespace character; it is empty exactly when `s` is blank, and
   * an already trimmed `s` is kept. `TrimIsInfix` says where it sits in `s`.
   */
  function Trim(s: string): (r: string)
    ensures IsTrimmed(r)
    ensures r == [] <==> IsBlank(s)
    ensures IsTrimmed(s) ==> r == s
  {
    var t := TrimStart(s);
    var r := TrimEnd(t);
    TrimSplitsInto(s, |s| - |t|, r);
    r
  }

  /** `Trim(s)` is `s` with a blank prefix and a blank suffix removed. */
  lemma TrimIsInfix(s: string) returns (k: nat)
    ensures k + |Trim(s)| <= |s| && Trim(s) == s[k..k + |Trim(s)|]
    ensures IsBlank(s[..k]) && IsBlank(s[k + |Trim(s)|..])
  {
    var t := TrimStart(s);
    var r := Trim(s);
    TrimOfStart(s, t);
    k := TrimPlace(s, t, r);
    assert k + |r| <= |s|;
    assert r == s[k..k + |r|];
    assert IsBlank(s[..k]);
    assert IsBlank(s[k + |r|..]);
  }

  lemma TrimPlace(s: string, t: string, r: string) returns (k: nat)
    requires t == TrimStart(s) && r == TrimEnd(t)
    ensures k + |r| <= |s| && r == s[k..k + |r|]
    ensures IsBlank(s[..k]) && IsBlank(s[k + |r|..])
  {
    k := |s| - |t|;
    assert t == s[k..];
    TrimEndPlace(s, k, r);
  }

  lemma TrimOfStart(s: string, t: string)
    requires t == TrimStart(s)
    ensures Trim(s) == TrimEnd(t)
  {
  }

  /** Trimming never introduces a character. */
  lemma TrimKeepsOut(s: string, c: char)
    requires c !in s
    ensures c !in Trim(s)
  {
    var k := TrimIsInfix(s);
    var r := Trim(s);
    forall i | 0 <= i < |r| ensures r[i] != c {
      assert r[i] == s[k + i];
    }
  }

  /** The two halves of `Trim`'s proof: where the result sits in `s`. */
  lemma TrimSplitsInto(s: string, k: nat, r: string)
    requires k <= |s| && r == TrimEnd(s[k..]) && IsBlank(s[..k])
    requires s[k..] == TrimStart(s)
    ensures k + |r| <= |s| && r == s[k..k + |r|] && IsBlank(s[k + |r|..])
    ensures r == [] <==> IsBlank(s)
  {
    TrimEndPlace(s, k, r);
    if r == [] {
      assert s == s[..k] + s[k..];
      BlankConcat(s[..k], s[k..]);
    } else {
      assert s[k] == r[0];
    }
  }

  /** `TrimEnd` of a suffix of `s` is a slice of `s` followed by blanks. */
  lemma TrimEndPlace(s: string, k: nat, r: string)
    requires k <= |s| && r == TrimEnd(s[k..])
    ensures k + |r| <= |s| && r == s[k..k + |r|] && IsBlank(s[k + |r|..])
    ensures r == [] ==> IsBlank(s[k..])
  {
    var t := s[k..];
    assert s[k + |r|..] == t[|r|..];
    assert s[k..k + |r|] == t[..|r|];
    assert r == [] ==> t[|r|..] == t;
  }

  lemma BlankConcat(a: string, b: string)
    requires IsBlank(a) && IsBlank(b)
    ensures IsBlank(a + b)
  {
    forall i | 0 <= i < |a + b| ensures IsWhitespace((a + b)[i]) {
      if i < |a| {
        assert (a + b)[i] == a[i];
      } else {
        assert (a + b)[i] == b[i - |a|];
      }
    }
  }

  // ---------------------------------------------------------------------
  // String.prototype.split and Array.prototype.join
  // ---------------------------------------------------------------------

  /**
   * `s.split(d)` for a one-character separator `d`: the pieces of `s`
   * between occurrences of `d`, always at least one (`"".split(d)` is
   * `[""]`); `SplitExcludes` says that none of them contains `d`.
   */
  function Split(s: string, d: char): (parts: seq<string>)
    ensures |parts| >= 1
    decreases |s|
  {
    if s == [] then [""]
    else
      var rest := Split(s[1..], d);
      if s[0] == d then [""] + rest
      else [[s[0]] + rest[0]] + rest[1..]
  }

  /** No piece contains the delimiter. */
  lemma {:induction false} SplitExcludes(s: string, d: char)
    ensures forall p :: p in Split(s, d) ==> d !in p
    decreases |s|
  {
    if s != [] {
      SplitExcludes(s[1..], d);
      SplitCons(s[0], s[1..], d);
      assert s == [s[0]] + s[1..];
      var rest := Split(s[1..], d);
      if s[0] != d {
        assert rest[0] in rest;
        forall p | p in rest[1..] ensures d !in p {
          assert p in rest;
        }
      }
    }
  }

  /** `parts.join(d)`: the parts in order, with `d` between each two of them. */
  function Join(parts: seq<string>, d: char): string {
    if |parts| == 0 then ""
    else if |parts| == 1 then parts[0]
    else parts[0] + [d] + Join(parts[1..], d)
  }

  /** Splitting and joining again gives back the original string. */
  lemma {:induction false} JoinSplit(s: string, d: char)
    ensures Join(Split(s, d), d) == s
    decreases |s|
  {
    if s != [] {
      var rest := Split(s[1..], d);
      JoinSplit(s[1..], d);
      if s[0] == d {
        assert Split(s, d)[1..] == rest;
        assert s == [d] + s[1..];
      } else if |rest| == 1 {
        assert s == [s[0]] + s[1..];
      } else {
        var parts := Split(s, d);
        assert parts[1..] == rest[1..];
        assert s == [s[0]] + s[1..];
      }
    }
  }

  /** Splitting a string that starts with a delimiter-free prefix `a`. */
  lemma {:induction false} SplitPrefix(a: string, t: string, d: char)
    requires d !in a
    ensures Split(a + t, d) == [a + Split(t, d)[0]] + Split(t, d)[1..]
    decreases |a|
  {
    if a != [] {
      SplitPrefix(a[1..], t, d);
      var at := a + t;
      var st := Split(t, d);
      assert at[0] == a[0] && a[0] != d;
      assert at[1..] == a[1..] + t;
      var r := Split(at[1..], d);
      assert r == [a[1..] + st[0]] + st[1..];
      calc {
        Split(at, d);
        [[a[0]] + r[0]] + r[1..];
        { assert r[0] == a[1..] + st[0] && r[1..] == st[1..]; }
        [[a[0]] + (a[1..] + st[0])] + st[1..];
        { assert [a[0]] + (a[1..] + st[0]) == a + st[0]; }
        [a + st[0]] + st[1..];
      }
    } else {
      var st := Split(t, d);
      assert a + t == t && a + st[0] == st[0];
      assert st == [st[0]] + st[1..];
    }
  }

  /** Joining delimiter-free pieces and splitting again gives the pieces back. */
  lemma {:induction false} SplitJoin(parts: seq<string>, d: char)
    requires |parts| >= 1
    requires forall p :: p in parts ==> d !in p
    ensures Split(Join(parts, d), d) == parts
    decreases |parts|
  {
    if |parts| == 1 {
      SplitPrefix(parts[0], "", d);
      assert parts[0] + "" == parts[0];
    } else {
      var tail := Join(parts[1..], d);
      SplitJoin(parts[1..], d);
      SplitPrefix(parts[0], [d] + tail, d);
      assert Join(parts, d) == parts[0] + ([d] + tail);
      var dt := [d] + tail;
      assert dt[0] == d && dt[1..] == tail;
      assert Split(dt, d) == [""] + Split(tail, d);
      assert Split(dt, d)[0] == "" && Split(dt, d)[1..] == parts[1..];
      assert parts[0] + "" == parts[0];
      assert parts == [parts[0]] + parts[1..];
    }
  }

  /** How `Split` treats the first character of its input. */
  lemma SplitCons(c: char, t: string, d: char)
    ensures c == d ==> Split([c] + t, d) == [""] + Split(t, d)
    ensures c != d ==> Split([c] + t, d) == [[c] + Split(t, d)[0]] + Split(t, d)[1..]
  {
    assert ([c] + t)[0] == c && ([c] + t)[1..] == t;
  }

  /** A delimiter splits the text into the pieces before it followed by the pieces after it. */
  lemma {:induction false} SplitConcat(a: string, b: string, d: char)
    ensures Split(a + [d] + b, d) == Split(a, d) + Split(b, d)
    decreases |a|
  {
    if a == [] {
      assert a + [d] + b == [d] + b;
      SplitCons(d, b, d);
    } else {
      SplitConcat(a[1..], b, d);
      SplitConcatStep(a[0], a[1..], b, d);
      assert [a[0]] + a[1..] == a;
      assert [a[0]] + (a[1..] + [d] + b) == a + [d] + b;
    }
  }

  /** The inductive step of `SplitConcat`: one more character in front. */
  lemma SplitConcatStep(c: char, a: string, b: string, d: char)
    requires Split(a + [d] + b, d) == Split(a, d) + Split(b, d)
    ensures Split([c] + (a + [d] + b), d) == Split([c] + a, d) + Split(b, d)
  {
    SplitCons(c, a + [d] + b, d);
    SplitCons(c, a, d);
    if c == d {
      SeqAssoc([""], Split(a, d), Split(b, d));
    } else {
      HeadJoined(c, Split(a, d), Split(b, d));
    }
  }

  lemma SeqAssoc<T>(x: seq<T>, y: seq<T>, z: seq<T>)
    ensures x + (y + z) == (x + y) + z
  {
  }

  /** Gluing a character onto the first piece commutes with appending more pieces. */
  lemma HeadJoined(c: char, ra: seq<string>, sb: seq<string>)
    requires |ra| >= 1
    ensures [[c] + (ra + sb)[0]] + (ra + sb)[1..] == ([[c] + ra[0]] + ra[1..]) + sb
  {
    assert (ra + sb)[0] == ra[0];
    assert (ra + sb)[1..] == ra[1..] + sb;
    SeqAssoc([[c] + ra[0]], ra[1..], sb);
  }

  // ---------------------------------------------------------------------
  // Array.prototype.map(trim) and Array.prototype.filter(non-empty)
  // ---------------------------------------------------------------------

  /** `parts.map(part => part.trim())`: each part with its surrounding whitespace removed. */
  function TrimAll(parts: seq<string>): (r: seq<string>)
    ensures |r| == |parts|
    ensures forall i :: 0 <= i < |parts| ==> r[i] == Trim(parts[i])
  {
    if parts == [] then [] else [Trim(parts[0])] + TrimAll(parts[1..])
  }

  /**
   * `parts.filter(part => part.length > 0)`: the non-empty parts, in order;
   * it keeps everything when nothing is empty.
   */
  function DropEmpty(parts: seq<string>): (r: seq<string>)
    ensures |r| <= |parts|
    ensures forall x :: x in r ==> x != "" && x in parts
    ensures forall x :: x in parts && x != "" ==> x in r
    ensures (forall x :: x in parts ==> x != "") ==> r == parts
  {
    if parts == [] then []
    else if parts[0] == "" then assert parts[0] in parts; DropEmpty(parts[1..])
    else
      assert forall x :: x in parts[1..] ==> x in parts;
      [parts[0]] + DropEmpty(parts[1..])
  }

  lemma {:induction false} TrimAllConcat(xs: seq<string>, ys: seq<string>)
    ensures TrimAll(xs + ys) == TrimAll(xs) + TrimAll(ys)
    decreases |xs|
  {
    if xs == [] {
      assert xs + ys == ys;
    } else {
      var zs := xs + ys;
      assert zs[0] == xs[0] && zs[1..] == xs[1..] + ys;
      TrimAllConcat(xs[1..], ys);
      var h := [Trim(xs[0])];
      calc {
        TrimAll(zs);
        h + TrimAll(zs[1..]);
        h + (TrimAll(xs[1..]) + TrimAll(ys));
        (h + TrimAll(xs[1..])) + TrimAll(ys);
        TrimAll(xs) + TrimAll(ys);
      }
    }
  }

  lemma {:induction false} DropEmptyConcat(xs: seq<string>, ys: seq<string>)
    ensures DropEmpty(xs + ys) == DropEmpty(xs) + DropEmpty(ys)
    decreases |xs|
  {
    if xs == [] {
      assert xs + ys == ys;
    } else {
      var zs := xs + ys;
      assert zs[0] == xs[0] && zs[1..] == xs[1..] + ys;
      DropEmptyConcat(xs[1..], ys);
      var h := if xs[0] == "" then [] else [xs[0]];
      calc {
        DropEmpty(zs);
        h + DropEmpty(zs[1..]);
        h + (DropEmpty(xs[1..]) + DropEmpty(ys));
        { SeqAssoc(h, DropEmpty(xs[1..]), DropEmpty(ys)); }
        (h + DropEmpty(xs[1..])) + DropEmpty(ys);
        { assert DropEmpty(xs) == h + DropEmpty(xs[1..]); }
        DropEmpty(xs) + DropEmpty(ys);
      }
    }
  }

  // ---------------------------------------------------------------------
  // Array.prototype.find
  // ---------------------------------------------------------------------

  /** The index of the first element satisfying `p`, if there is one. */
  function FindIndex<T>(xs: seq<T>, p: T -> bool): (r: Option<nat>)
    ensures r.None? <==> forall i :: 0 <= i < |xs| ==> !p(xs[i])
    ensures r.Some? ==> r.value < |xs| && p(xs[r.value])
    ensures r.Some? ==> forall j :: 0 <= j < r.value ==> !p(xs[j])
  {
    if xs == [] then None
    else if p(xs[0]) then Some(0)
    else
      match FindIndex(xs[1..], p)
      case None => None
      case Some(i) => Some(i + 1)
  }

  /** `xs.find(p)`: the first element satisfying `p`, or `undefined`. */
  function Find<T>(xs: seq<T>, p: T -> bool): (r: Option<T>)
    ensures r.None? <==> forall i :: 0 <= i < |xs| ==> !p(xs[i])
    ensures r.Some? ==> r.value in xs && p(r.value)
    ensures r.Some? ==> exists i :: 0 <= i < |xs| && xs[i] == r.value && forall j :: 0 <= j < i ==> !p(xs[j])
  {
    match FindIndex(xs, p)
    case None => None
    case Some(i) => Some(xs[i])
  }

  /** The element `find` returns is the first one satisfying `p`. */
  lemma FindFirst<T>(xs: seq<T>, p: T -> bool, i: nat)
    requires i < |xs| && p(xs[i])
    requires forall j :: 0 <= j < i ==> !p(xs[j])
    ensures Find(xs, p) == Some(xs[i])
  {
    assert FindIndex(xs, p).Some?;
  }

  // ---------------------------------------------------------------------
  // Numbers rendered in template literals
  // ---------------------------------------------------------------------

  predicate IsDigits(s: string) {
    forall i :: 0 <= i < |s| ==> '0' <= s[i] <= '9'
  }

  function DigitChar(d: nat): (c: char)
    requires d < 10
  {
    (48 + d) as char
  }

  /** The decimal digits of `n`, without leading zeros. */
  function NatToDecimal(n: nat): (s: string)
    ensures |s| >= 1 && IsDigits(s)
    ensures s[0] == '0' ==> n == 0
    decreases n
  {
    if n < 10 then [DigitChar(n)] else NatToDecimal(n / 10) + [DigitChar(n % 10)]
  }

  /** The value of a string of decimal digits. */
  function DecimalValue(s: string): nat
    requires IsDigits(s)
  {
    if s == [] then 0 else DecimalValue(s[..|s| - 1]) * 10 + (s[|s| - 1] as int - 48)
  }

  /** Reading back the rendered digits gives the number. */
  lemma {:induction false} DecimalRoundTrip(n: nat)
    ensures DecimalValue(NatToDecimal(n)) == n
    decreases n
  {
    if n >= 10 {
      DecimalRoundTrip(n / 10);
      var s := NatToDecimal(n);
      assert s[..|s| - 1] == NatToDecimal(n / 10);
    }
  }

  /**
   * A JavaScript number: an integer, or anything else (a fraction, NaN,
   * an infinity) together with the text `String(x)` gives for it.
   */
  datatype Number = Integer(value: int) | NonInteger(text: string)

  /** `String(x)`, as a template literal renders it. */
  function NumberToString(x: Number): string {
    match x
    case Integer(v) => if v < 0 then "-" + NatToDecimal(-v) else NatToDecimal(v)
    case NonInteger(t) => t
  }

  /** `Number.isInteger(x) && x > 0`: `x` is a whole number of at least one. */
  predicate IsPositiveInteger(x: Number) {
    x.Integer? && x.value > 0
  }
}
