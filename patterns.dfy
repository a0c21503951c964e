/** The two regular expressions of the form, written out as predicates over
    characters. JavaScript runs them without the `u` flag, so they see UTF-16
    code units; a character outside the Basic Multilingual Plane becomes two
    surrogates, neither of which is in any class below, so treating it as one
    character that is in no class gives the same answer. */
module Patterns {
  import opened Wrappers
  import opened Strings

  /* ---------------- Names: ^[a-zA-ZÀ-ÖØ-öø-ÿ]+(?:[-' ][a-zA-ZÀ-ÖØ-öø-ÿ]+)*$ ---------------- */

  /** The class `[a-zA-ZÀ-ÖØ-öø-ÿ]`: ASCII letters and the Latin-1 letters,
      leaving out the multiplication and division signs. */
  predicate IsNameLetter(c: char) {
    || ('a' <= c <= 'z') || ('A' <= c <= 'Z')
    || ('À' <= c <= 'Ö') || ('Ø' <= c <= 'ö') || ('ø' <= c <= 'ÿ')
  }

  /** The class `[-' ]`: hyphen, ASCII apostrophe, space. */
  predicate IsNameSeparator(c: char) {
    c == '-' || c == '\'' || c == ' '
  }

  /** The name pattern as a matcher over the rest of the input: `afterLetter`
      says whether the character just consumed was a letter (so that a
      separator may follow and the input may end). */
  predicate MatchName(s: string, afterLetter: bool)
    decreases |s|
  {
    if s == [] then afterLetter
    else if IsNameLetter(s[0]) then MatchName(s[1..], true)
    else IsNameSeparator(s[0]) && afterLetter && MatchName(s[1..], false)
  }

  /** `/^[a-zA-ZÀ-ÖØ-öø-ÿ]+(?:[-' ][a-zA-ZÀ-ÖØ-öø-ÿ]+)*$/.test(s)` */
  predicate NameMatches(s: string) {
    MatchName(s, false)
  }

  /** Every character is a letter or a separator. */
  predicate OnlyNameChars(s: string) {
    forall k | 0 <= k < |s| :: IsNameLetter(s[k]) || IsNameSeparator(s[k])
  }

  /** Every separator is directly followed by a letter. */
  predicate SeparatorsFollowedByLetters(s: string) {
    forall k | 0 <= k < |s| - 1 :: IsNameSeparator(s[k]) ==> IsNameLetter(s[k + 1])
  }

  /** Reference reading of the pattern: runs of letters joined by single
      separators, beginning and ending with a letter. */
  predicate NameShape(s: string) {
    && s != []
    && IsNameLetter(s[0])
    && IsNameLetter(s[|s| - 1])
    && OnlyNameChars(s)
    && SeparatorsFollowedByLetters(s)
  }

  /** What the matcher accepts from any starting state. */
  lemma {:induction false} MatchNameCharacterized(s: string, afterLetter: bool)
    ensures MatchName(s, afterLetter) <==>
      if s == [] then afterLetter
      else && (afterLetter || IsNameLetter(s[0]))
           && IsNameLetter(s[|s| - 1])
           && OnlyNameChars(s)
           && SeparatorsFollowedByLetters(s)
    decreases |s|
  {
    if s != [] {
      var rest := s[1..];
      var next := IsNameLetter(s[0]);
      MatchNameCharacterized(rest, next);
      if rest != [] {
        assert s[|s| - 1] == rest[|rest| - 1];
        assert OnlyNameChars(s) <==> (IsNameLetter(s[0]) || IsNameSeparator(s[0])) && OnlyNameChars(rest) by {
          assert forall k | 1 <= k < |s| :: s[k] == rest[k - 1];
        }
        assert SeparatorsFollowedByLetters(s) <==>
          (IsNameSeparator(s[0]) ==> IsNameLetter(rest[0])) && SeparatorsFollowedByLetters(rest) by {
          assert forall k | 1 <= k < |s| - 1 :: s[k] == rest[k - 1] && s[k + 1] == rest[k];
        }
      }
    }
  }

  /** The name pattern accepts exactly the letter runs joined by single
      separators. */
  lemma NameMatchesIffShape(s: string)
    ensures NameMatches(s) <==> NameShape(s)
  {
    MatchNameCharacterized(s, false);
  }

  /** Names with a hyphen, an apostrophe, or an accented letter and an inner
      space match. */
  lemma HyphenatedNameMatches()
    ensures NameMatches("Jean-Luc")
  {
  }

  lemma ApostropheNameMatches()
    ensures NameMatches("O'Neil")
  {
  }

  lemma AccentedNameMatches()
    ensures NameMatches("Zoë Saint")
  {
  }

  /** Two separators in a row, a leading or trailing separator and a digit are refused. */
  lemma NamesThatDoNotMatch()
    ensures !NameMatches("Jean--Luc") && !NameMatches("-Anne") && !NameMatches("Anne ")
    ensures !NameMatches("R2D2")
  {
    NameMatchesIffShape("Jean--Luc");
    assert "Jean--Luc"[4] == '-' && "Jean--Luc"[5] == '-';
    NameMatchesIffShape("-Anne");
    NameMatchesIffShape("Anne ");
    NameMatchesIffShape("R2D2");
    assert "R2D2"[1] == '2';
  }

  /* ---------------- E-mail: ^[a-zA-Z0-9._%+-]+@[a-zA-Z0-9.-]+\.[a-zA-Z]{2,}$ ---------------- */

  predicate IsAsciiLetter(c: char) {
    ('a' <= c <= 'z') || ('A' <= c <= 'Z')
  }

  predicate IsDigit(c: char) {
    '0' <= c <= '9'
  }

  /** The class `[a-zA-Z0-9._%+-]` of the part before `@`. */
  predicate IsLocalChar(c: char) {
    IsAsciiLetter(c) || IsDigit(c) || c == '.' || c == '_' || c == '%' || c == '+' || c == '-'
  }

  /** The class `[a-zA-Z0-9.-]` of the domain before the final dot. */
  predicate IsDomainChar(c: char) {
    IsAsciiLetter(c) || IsDigit(c) || c == '.' || c == '-'
  }

  /** `s` splits as local part `s[..at]`, `@`, domain `s[at+1..dot]`, `.`,
      top-level part `s[dot+1..]`, each part non-empty and drawn from its class,
      the top-level part at least two letters long. */
  predicate EmailSplitAt(s: string, at: nat, dot: nat) {
    && 1 <= at && at + 2 <= dot && dot + 3 <= |s|
    && s[at] == '@' && s[dot] == '.'
    && (forall k | 0 <= k < at :: IsLocalChar(s[k]))
    && (forall k | at < k < dot :: IsDomainChar(s[k]))
    && (forall k | dot < k < |s| :: IsAsciiLetter(s[k]))
  }

  /** `/^[a-zA-Z0-9._%+-]+@[a-zA-Z0-9.-]+\.[a-zA-Z]{2,}$/.test(s)`: the pattern
      matches when some split of `s` fits it (the regular-expression engine
      backtracks over every split). */
  predicate EmailMatches(s: string) {
    exists at: nat, dot: nat | at < dot < |s| :: EmailSplitAt(s, at, dot)
  }

  /** Reference check without search: the only candidate split is at the
      first `@` and the last `.`. */
  predicate EmailCheck(s: string) {
    match (IndexOf(s, '@'), LastIndexOf(s, '.'))
    case (Some(at), Some(dot)) => EmailSplitAt(s, at, dot)
    case _ => false
  }

  /** The split, when there is one, is unique: it is at the first `@` (the local
      class has no `@`) and the last `.` (the top-level class has no dot). */
  lemma EmailSplitUnique(s: string, at: nat, dot: nat)
    requires EmailSplitAt(s, at, dot)
    ensures IndexOf(s, '@') == Some(at) && LastIndexOf(s, '.') == Some(dot)
  {
    assert !IsLocalChar('@') && !IsAsciiLetter('.');
  }

  /** The searching matcher and the direct check agree on every string. */
  lemma EmailCheckAgrees(s: string)
    ensures EmailCheck(s) <==> EmailMatches(s)
  {
    if EmailMatches(s) {
      var at: nat, dot: nat :| at < dot < |s| && EmailSplitAt(s, at, dot);
      EmailSplitUnique(s, at, dot);
    }
    if EmailCheck(s) {
      var at := IndexOf(s, '@').value;
      var dot := LastIndexOf(s, '.').value;
      assert at < dot < |s| && EmailSplitAt(s, at, dot);
    }
  }

  /** "a@b" has no dot after its `@`; "a@b.com" splits as a, b, com. */
  lemma EmailExamples()
    ensures !EmailMatches("a@b") && EmailMatches("a@b.com")
  {
    assert EmailSplitAt("a@b.com", 1, 3);
  }

  /** A one-letter top-level part, a missing local part and a second `@` are refused. */
  lemma EmailCounterExamples()
    ensures !EmailMatches("a@b.c") && !EmailMatches("@b.com") && !EmailMatches("a@b@c.com")
  {
    EmailCheckAgrees("a@b.c");
    EmailCheckAgrees("@b.com");
    EmailCheckAgrees("a@b@c.com");
    assert IndexOf("a@b@c.com", '@') == Some(1);
    assert "a@b@c.com"[3] == '@';
  }
}
