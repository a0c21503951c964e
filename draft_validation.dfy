/** The verdict of the later draft `validateField` in js/brouillon.js:
    checkboxes are judged on their checked state before anything else, the two
    name fields share one rule with the subject in the message, and the
    birthdate also has a 150-year lower bound. */
module DraftValidation {
  import opened Wrappers
  import opened Strings
  import opened Patterns
  import opened Form
  import ModalValidation

  /** The two instants the draft reads: `now` (`new Date()`) and `oldest`, the
      local midnight of today's calendar date 150 years ago
      (`new Date(year - 150, month, day)`), both in milliseconds. */
  datatype Clock = Clock(now: int, oldest: int)

  /** The name messages share one template with the field's subject, "Le prénom"
      for `first` and "Le nom" for `last`. */
  function NameTooShort(id: string): Message {
    if id == "first" then FirstTooShort else LastTooShort
  }

  function NameInvalid(id: string): Message {
    if id == "first" then FirstInvalidChars else LastInvalidChars
  }

  /** The name messages start with their field's subject: "Le prénom" for
      `first`, "Le nom" for `last`. */
  lemma FirstNameMessagesSayPrenom()
    ensures "Le prénom" <= Text(NameTooShort("first")) && "Le prénom" <= Text(NameInvalid("first"))
  {
  }

  lemma LastNameMessagesSayNom()
    ensures "Le nom" <= Text(NameTooShort("last")) && "Le nom" <= Text(NameInvalid("last"))
  {
  }

  /** The draft's message for field `f` under clock `c`. */
  function Verdict(f: Field, c: Clock): Option<Message> {
    var v := Trim(f.value);
    if f.kind == Checkbox then
      if !f.checked && f.id == "checkbox1" then Some(TermsRequired) else None
    else if v == [] then
      if f.id == "checkbox1" then Some(TermsRequired) else RequiredMessage(f.id)
    else if f.id == "first" || f.id == "last" then NameCheck(v, NameTooShort(f.id), NameInvalid(f.id))
    else if f.id == "email" then (if EmailMatches(v) then None else Some(EmailInvalid))
    else if f.id == "birthdate" then
      if NotInPast(f.date, c.now) then Some(BirthdateNotPast)
      else if f.date.Some? && f.date.value < c.oldest then Some(BirthdateTooOld)
      else None
    else if f.id == "quantity" then (if QuantityRejected(f.number) then Some(QuantityOutOfRange) else None)
    else None
  }

  /** Checkboxes come first: only an unchecked `checkbox1` fails, whatever its value. */
  lemma CheckboxesFirst(f: Field, c: Clock)
    requires f.kind == Checkbox
    ensures Verdict(f, c) == Some(TermsRequired) <==> f.id == "checkbox1" && !f.checked
    ensures Verdict(f, c) == None <==> f.id != "checkbox1" || f.checked
  {
  }

  /** An empty non-checkbox field gets its id's required message; an id the
      switch does not list gets none. */
  lemma EmptyFieldRequired(f: Field, c: Clock)
    requires f.kind != Checkbox && IsBlank(f.value)
    ensures IsRequiredId(f.id) ==> Verdict(f, c) == RequiredMessage(f.id)
    ensures f.id == "checkbox1" ==> Verdict(f, c) == Some(TermsRequired)
    ensures !IsRequiredId(f.id) && f.id != "checkbox1" ==> Verdict(f, c) == None
  {
  }

  /** `first` and `last` share their rules, and only the subject of the
      message tells them apart. */
  lemma SharedNameRules(f: Field, c: Clock)
    requires f.kind != Checkbox && !IsBlank(f.value)
    requires f.id == "first" || f.id == "last"
    ensures var v := Trim(f.value);
      && (Verdict(f, c) == Some(NameTooShort(f.id)) <==> CodeUnits(v) < 2)
      && (Verdict(f, c) == Some(NameInvalid(f.id)) <==> CodeUnits(v) >= 2 && !NameShape(v))
      && (Verdict(f, c) == None <==> CodeUnits(v) >= 2 && NameShape(v))
  {
    NameMatchesIffShape(Trim(f.value));
  }

  /** Birthdate: now or later gives the "dans le passé" message; otherwise a
      date before the 150-year cutoff gives the "150 ans" message; an invalid
      date passes both checks. */
  lemma BirthdateOrder(f: Field, c: Clock)
    requires f.kind != Checkbox && f.id == "birthdate" && !IsBlank(f.value)
    ensures Verdict(f, c) == Some(BirthdateNotPast) <==> f.date.Some? && f.date.value >= c.now
    ensures Verdict(f, c) == Some(BirthdateTooOld) <==> f.date.Some? && f.date.value < c.now && f.date.value < c.oldest
    ensures Verdict(f, c) == None <==> f.date.None? || c.oldest <= f.date.value < c.now
  {
  }

  /** Quantity: fails exactly when it is not a number or lies outside [0, 99]. */
  lemma QuantityRange(f: Field, c: Clock)
    requires f.kind != Checkbox && f.id == "quantity" && !IsBlank(f.value)
    ensures Verdict(f, c) != None <==> f.number.None? || f.number.value < 0 || f.number.value > 99
    ensures Verdict(f, c) != None ==> Verdict(f, c) == Some(QuantityOutOfRange)
  {
  }

  /** The two versions pass and fail the same fields except for checkboxes,
      the terms id, and birthdates before the 150-year cutoff. */
  lemma AgreesWithModal(f: Field, c: Clock)
    requires f.kind != Checkbox && f.id != "checkbox1"
    requires !(f.id == "birthdate" && f.date.Some? && f.date.value < c.oldest)
    ensures Verdict(f, c) == None <==> ModalValidation.Verdict(f, c.now) == None
  {
  }

  /** The draft closes the gap of js/modal.js: an unchecked terms checkbox now
      fails whatever its value, where js/modal.js let it through. */
  lemma UncheckedTermsFail(f: Field, c: Clock)
    requires f.kind == Checkbox && f.id == "checkbox1" && !f.checked && !IsBlank(f.value)
    ensures Verdict(f, c) == Some(TermsRequired)
    ensures ModalValidation.Verdict(f, c.now) == None
  {
    ModalValidation.UncheckedTermsPass(f, c.now);
  }
}
