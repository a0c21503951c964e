/** The verdict of `validateField` in js/modal.js: the one message a field gets,
    or none when it passes. */
module ModalValidation {
  import opened Wrappers
  import opened Strings
  import opened Patterns
  import opened Form

  /** The message for field `f` at instant `now` (milliseconds, the `new Date()`
      the birthdate case reads). The empty-value switch runs first and the
      per-id switch only on a non-empty value; the first failing check wins. */
  function Verdict(f: Field, now: int): Option<Message> {
    var v := Trim(f.value);
    if v == [] then
      if f.id == "checkbox1" then (if f.checked then None else Some(TermsRequired))
      else RequiredMessage(f.id)
    else if f.id == "first" then NameCheck(v, FirstTooShort, FirstInvalid)
    else if f.id == "last" then NameCheck(v, LastTooShort, LastInvalid)
    else if f.id == "email" then (if EmailMatches(v) then None else Some(EmailInvalid))
    else if f.id == "birthdate" then (if NotInPast(f.date, now) then Some(BirthdateNotPast) else None)
    else if f.id == "quantity" then (if QuantityRejected(f.number) then Some(QuantityOutOfRange) else None)
    else None
  }

  /** The empty check dominates: a required field gets its "requis/requise"
      message exactly when its trimmed value is empty, whatever else is wrong. */
  lemma RequiredDominates(f: Field, now: int)
    requires IsRequiredId(f.id)
    ensures Verdict(f, now) == RequiredMessage(f.id) <==> IsBlank(f.value)
  {
  }

  /** Names: under two code units gives the length message and never the
      character-set message; the character-set message comes exactly for longer
      values that are not letter runs joined by single separators. */
  lemma NameVerdicts(f: Field, now: int)
    requires f.id == "first" || f.id == "last"
    requires !IsBlank(f.value)
    ensures var v := Trim(f.value);
      var (tooShort, invalid) := if f.id == "first" then (FirstTooShort, FirstInvalid) else (LastTooShort, LastInvalid);
      && (Verdict(f, now) == Some(tooShort) <==> CodeUnits(v) < 2)
      && (Verdict(f, now) == Some(invalid) <==> CodeUnits(v) >= 2 && !NameShape(v))
      && (Verdict(f, now) == None <==> CodeUnits(v) >= 2 && NameShape(v))
  {
    NameMatchesIffShape(Trim(f.value));
  }

  /** A one-letter first name gets the length message. */
  lemma OneLetterFirstName(now: int)
    ensures Verdict(Field("first", TextBox, "A", false, None, None), now) == Some(FirstTooShort)
  {
    assert Trim("A") == "A";
  }

  /** E-mail: a non-empty value passes exactly when it has the shape
      local `@` domain `.` top-level; "a@b" fails and "a@b.com" passes. */
  lemma EmailVerdict(f: Field, now: int)
    requires f.id == "email" && !IsBlank(f.value)
    ensures Verdict(f, now) == None <==> EmailCheck(Trim(f.value))
    ensures Verdict(f, now) != None ==> Verdict(f, now) == Some(EmailInvalid)
  {
    EmailCheckAgrees(Trim(f.value));
  }

  lemma ShortEmailFails(f: Field, now: int)
    requires f.id == "email" && Trim(f.value) == "a@b"
    ensures Verdict(f, now) == Some(EmailInvalid)
  {
    EmailExamples();
  }

  lemma WellFormedEmailPasses(f: Field, now: int)
    requires f.id == "email" && Trim(f.value) == "a@b.com"
    ensures Verdict(f, now) == None
  {
    EmailExamples();
  }

  /** Birthdate: fails exactly when the parsed date is now or later; an
      invalid date never fails. */
  lemma BirthdateVerdict(f: Field, now: int)
    requires f.id == "birthdate" && !IsBlank(f.value)
    ensures Verdict(f, now) == Some(BirthdateNotPast) <==> f.date.Some? && f.date.value >= now
    ensures Verdict(f, now) == None <==> f.date.None? || f.date.value < now
  {
  }

  /** Quantity: fails exactly when it is not a number or lies outside [0, 99];
      the bounds themselves pass. */
  lemma QuantityVerdict(f: Field, now: int)
    requires f.id == "quantity" && !IsBlank(f.value)
    ensures Verdict(f, now) != None <==> f.number.None? || f.number.value < 0 || f.number.value > 99
    ensures f.number == Some(0) || f.number == Some(99) ==> Verdict(f, now) == None
  {
    var v := Trim(f.value);
    assert v != [];
    assert f.id != "first" && f.id != "last" && f.id != "email" && f.id != "birthdate";
    assert Verdict(f, now) == if QuantityRejected(f.number) then Some(QuantityOutOfRange) else None;
  }

  /** Ids with no case of their own (the location radios, the checkboxes, the
      submit button) never fail on a non-empty value. */
  lemma UnlistedIdsPass(f: Field, now: int)
    requires !IsRequiredId(f.id) && !IsBlank(f.value)
    ensures Verdict(f, now) == None
  {
  }

  /** The terms checkbox is looked at only inside the empty-value branch, so
      with a non-empty value (a checkbox's default value is "on") it passes
      whether it is checked or not. */
  lemma UncheckedTermsPass(f: Field, now: int)
    requires f.id == "checkbox1" && !IsBlank(f.value)
    ensures Verdict(f, now) == None
  {
    assert !IsRequiredId(f.id);
    UnlistedIdsPass(f, now);
  }

  /** With an empty value, the terms checkbox fails exactly when unchecked. */
  lemma EmptyTermsCheckbox(f: Field, now: int)
    requires f.id == "checkbox1" && IsBlank(f.value)
    ensures Verdict(f, now) == Some(TermsRequired) <==> !f.checked
    ensures f.checked ==> Verdict(f, now) == None
  {
  }
}
