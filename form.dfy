/** The data the validation code reads from one `<input>` element, the messages
    both versions of `validateField` share, and the rule pieces they share. */
module Form {
  import opened Wrappers
  import opened Strings
  import opened Patterns

  /** The `type` attribute of an input. Only the checkbox type changes the
      verdict, and only in the later draft. */
  datatype Kind = TextBox | EmailBox | DateBox | NumberBox | Checkbox | Radio | SubmitButton

  /** One input as the validation code sees it. `value` is the raw value
      (trimmed before most checks). `date` is what `new Date(value)` gives,
      in milliseconds, `None` for an Invalid Date; `number` is what `Number(value)`
      gives (used by `isNaN` and by the comparisons with 0 and 99), `None` for NaN. */
  datatype Field = Field(
    id: string,
    kind: Kind,
    value: string,
    checked: bool,
    date: Option<int>,
    number: Option<int>)

  /** The error messages of both versions. `Text` gives the exact string the
      code assigns to `errorMessage`. Every one of them is a non-empty literal,
      so the code's `if (errorMessage)` is the test "is there a message"; a
      verdict is therefore an `Option<Message>`, `None` standing for ''. */
  datatype Message =
    | FirstRequired | LastRequired | EmailRequired | BirthdateRequired | QuantityRequired
    | TermsRequired
    | FirstTooShort | LastTooShort
    | FirstInvalid | LastInvalid            // the wording of js/modal.js
    | FirstInvalidChars | LastInvalidChars  // the wording of js/brouillon.js
    | EmailInvalid
    | BirthdateNotPast | BirthdateTooOld
    | QuantityOutOfRange

  function Text(m: Message): string {
    match m
    case FirstRequired => "Le prénom est requis."
    case LastRequired => "Le nom est requis."
    case EmailRequired => "L'e-mail est requis."
    case BirthdateRequired => "La date de naissance est requise."
    case QuantityRequired => "Le nombre de participations est requis."
    case TermsRequired => "Vous devez accepter les conditions d'utilisation."
    case FirstTooShort => "Le prénom doit contenir au moins 2 caractères."
    case LastTooShort => "Le nom doit contenir au moins 2 caractères."
    case FirstInvalid => "Le prénom ne doit contenir que des lettres, des espaces ou des traits d’union."
    case LastInvalid => "Le nom ne doit contenir que des lettres, des espaces, des apostrophes ou des traits d’union."
    case FirstInvalidChars => "Le prénom contient des caractères invalides."
    case LastInvalidChars => "Le nom contient des caractères invalides."
    case EmailInvalid => "Veuillez entrer une adresse e-mail valide."
    case BirthdateNotPast => "La date de naissance doit être dans le passé."
    case BirthdateTooOld => "La date de naissance ne peut pas dépasser 150 ans."
    case QuantityOutOfRange => "Le nombre de participations doit être entre 0 et 99."
  }

  /** The five text-like fields whose emptiness is an error. */
  predicate IsRequiredId(id: string) {
    id == "first" || id == "last" || id == "email" || id == "birthdate" || id == "quantity"
  }

  /** The message of the empty-value switch for the five required ids; every
      other id has no case there (the terms checkbox is handled by each version). */
  function RequiredMessage(id: string): (verdict: Option<Message>)
    ensures verdict.Some? <==> IsRequiredId(id)
  {
    match id
    case "first" => Some(FirstRequired)
    case "last" => Some(LastRequired)
    case "email" => Some(EmailRequired)
    case "birthdate" => Some(BirthdateRequired)
    case "quantity" => Some(QuantityRequired)
    case _ => None
  }

  /** The two checks on a trimmed name, in order: at least two UTF-16 code
      units, then the name pattern. */
  function NameCheck(v: string, tooShort: Message, invalid: Message): Option<Message> {
    if CodeUnits(v) < 2 then Some(tooShort)
    else if !NameMatches(v) then Some(invalid)
    else None
  }

  /** `birthDate >= today`: false when the date is invalid, because every
      comparison with NaN is false. */
  predicate NotInPast(date: Option<int>, now: int) {
    date.Some? && date.value >= now
  }

  /** `isNaN(value) || value < 0 || value > 99` */
  predicate QuantityRejected(number: Option<int>) {
    number.None? || number.value < 0 || number.value > 99
  }
}
