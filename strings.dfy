/** The string primitives the validation code relies on: `String.prototype.trim`,
    the `length` of a string (counted in UTF-16 code units, as JavaScript does),
    and searching for a character. */
module Strings {
  import opened Wrappers

  /** The characters `trim` strips: ECMAScript WhiteSpace (tab, vertical tab,
      form feed, space, no-break space, byte order mark and the Unicode space
      separators) and LineTerminator (line feed, carriage return, line and
      paragraph separators). */
  predicate IsWhitespace(c: char) {
    || c == '\t' || c == '\n' || c == '\U{B}' || c == '\U{C}' || c == '\r' || c == ' '
    || c == '\U{A0}' || c == '\U{1680}' || ('\U{2000}' <= c <= '\U{200A}')
    || c == '\U{2028}' || c == '\U{2029}' || c == '\U{202F}' || c == '\U{205F}'
    || c == '\U{3000}' || c == '\U{FEFF}'
  }

  /** `s` with its trailing whitespace removed: a prefix of `s`, whose dropped
      suffix is all whitespace, and which does not itself end with whitespace. */
  function TrimEnd(s: string): (r: string)
    ensures |r| <= |s| && r == s[..|r|]
    ensures forall k | |r| <= k < |s| :: IsWhitespace(s[k])
    ensures r == [] || !IsWhitespace(r[|r| - 1])
    decreases |s|
  {
    if s != [] && IsWhitespace(s[|s| - 1]) then TrimEnd(s[..|s| - 1]) else s
  }

  /** `String.prototype.trim`: leading whitespace is dropped one character at a
      time, then trailing whitespace. */
  function Trim(s: string): (r: string)
    ensures |r| <= |s|
    decreases |s|
  {
    if s != [] && IsWhitespace(s[0]) then Trim(s[1..]) else TrimEnd(s)
  }

  /** What `trim` promises: the result is a slice of `s` with only whitespace
      cut off before and after it, it neither starts nor ends with whitespace,
      and it is empty exactly when `s` is all whitespace. */
  lemma {:induction false} TrimSpec(s: string)
    ensures var r := Trim(s);
      && (exists i, j | 0 <= i <= j <= |s| :: r == s[i..j] && WhitespaceOutside(s, i, j))
      && (r != [] ==> !IsWhitespace(r[0]) && !IsWhitespace(r[|r| - 1]))
      && (r == [] <==> forall k | 0 <= k < |s| :: IsWhitespace(s[k]))
    decreases |s|
  {
    if s != [] && IsWhitespace(s[0]) {
      var tail := s[1..];
      TrimSpec(tail);
      assert forall k | 1 <= k < |s| :: s[k] == tail[k - 1];
      var i, j :| 0 <= i <= j <= |tail| && Trim(tail) == tail[i..j] && WhitespaceOutside(tail, i, j);
      assert Trim(s) == s[i + 1..j + 1];
      assert WhitespaceOutside(s, i + 1, j + 1);
    } else {
      var r := TrimEnd(s);
      assert WhitespaceOutside(s, 0, |r|);
      if s != [] {
        assert !IsWhitespace(s[0]);
        assert r != [] && r[0] == s[0];
      }
    }
  }

  /** Every character of `s` before position `i` or from position `j` on is
      whitespace. */
  predicate WhitespaceOutside(s: string, i: nat, j: nat)
    requires i <= j <= |s|
  {
    (forall k | 0 <= k < i :: IsWhitespace(s[k])) && (forall k | j <= k < |s| :: IsWhitespace(s[k]))
  }

  /** `value.trim() === ''`: the test the form uses for an empty field. */
  predicate IsBlank(s: string) {
    Trim(s) == []
  }

  /** Trimming a trimmed string changes nothing. */
  lemma {:induction false} TrimIdempotent(s: string)
    ensures Trim(Trim(s)) == Trim(s)
  {
    var r := Trim(s);
    TrimSpec(s);
    if r != [] {
      assert Trim(r) == TrimEnd(r);
    }
  }

  /** A string that neither starts nor ends with whitespace is its own trim,
      and so is what is left when one space on each side is stripped from it. */
  lemma TrimPadded(t: string)
    requires t != [] && !IsWhitespace(t[0]) && !IsWhitespace(t[|t| - 1])
    ensures Trim(t) == t
    ensures Trim(" " + t + " ") == t
  {
    var padded := " " + t + " ";
    assert padded[1..] == t + " ";
    assert (t + " ")[..|t|] == t;
    assert TrimEnd(t + " ") == t;
  }

  /** The number of UTF-16 code units of one character. */
  function CodeUnitsOf(c: char): nat {
    if c as int > 0xFFFF then 2 else 1
  }

  /** JavaScript's `length` of a string: one unit per character of the Basic
      Multilingual Plane, two (a surrogate pair) for every other character. */
  function CodeUnits(s: string): (n: nat)
    ensures |s| <= n <= 2 * |s|
  {
    if s == [] then 0 else CodeUnitsOf(s[0]) + CodeUnits(s[1..])
  }

  /** The `length` of a string is its number of characters exactly when all of
      them lie in the Basic Multilingual Plane. */
  lemma {:induction false} CodeUnitsCountCharacters(s: string)
    ensures CodeUnits(s) == |s| <==> forall k | 0 <= k < |s| :: s[k] as int <= 0xFFFF
  {
    if s != [] {
      var tail := s[1..];
      CodeUnitsCountCharacters(tail);
      assert forall k | 1 <= k < |s| :: s[k] == tail[k - 1];
    }
  }

  /** A string is shorter than two code units exactly when it is empty or a
      single character of the Basic Multilingual Plane. */
  lemma ShorterThanTwo(s: string)
    ensures CodeUnits(s) < 2 <==> s == [] || (|s| == 1 && s[0] as int <= 0xFFFF)
  {
    if |s| >= 2 {
      assert CodeUnits(s) >= |s|;
    } else if |s| == 1 {
      assert CodeUnits(s) == CodeUnitsOf(s[0]) + CodeUnits(s[1..]);
    }
  }

  /** The position of the first `c` in `s`, if any. */
  function IndexOf(s: string, c: char): (r: Option<nat>)
    ensures r.Some? ==> r.value < |s| && s[r.value] == c && forall k | 0 <= k < r.value :: s[k] != c
    ensures r.None? ==> forall k | 0 <= k < |s| :: s[k] != c
  {
    if s == [] then None
    else if s[0] == c then Some(0)
    else match IndexOf(s[1..], c)
      case None => None
      case Some(i) => Some(i + 1)
  }

  /** The position of the last `c` in `s`, if any. */
  function LastIndexOf(s: string, c: char): (r: Option<nat>)
    ensures r.Some? ==> r.value < |s| && s[r.value] == c && forall k | r.value < k < |s| :: s[k] != c
    ensures r.None? ==> forall k | 0 <= k < |s| :: s[k] != c
  {
    if s == [] then None
    else if s[|s| - 1] == c then Some(|s| - 1)
    else LastIndexOf(s[..|s| - 1], c)
  }
}
