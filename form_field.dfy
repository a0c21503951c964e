/** One `<input>` element of the form and the error decoration the validation
    code puts on it: the `error` and `error-input` classes of the input and the
    `.error-modal` tooltips inside its container. */
module FormField {
  import opened Wrappers
  import opened Form
  import ModalValidation
  import DraftValidation

  /** What the validation code has put on one input: whether it has the class
      `error` (set by `validateField`), whether it has the class `error-input`
      (set by `showError`), and the `.error-modal` tooltips of its container in
      document order, each showing the text of its message. */
  datatype Decoration = Decoration(error: bool, errorInput: bool, tooltips: seq<Message>)

  /** An input as the page loads it: no class, no tooltip. */
  const Undecorated := Decoration(false, false, [])

  /** At most one tooltip, and both classes present exactly when it is shown:
      what every validation leaves behind on an input that started this way. */
  predicate Consistent(d: Decoration) {
    |d.tooltips| <= 1 && d.error == d.errorInput && (d.errorInput <==> d.tooltips != [])
  }

  /** `removeError`: drops the class `error-input` and the first tooltip of the
      container, the one `querySelector` finds, if there is one. */
  function AfterRemove(d: Decoration): Decoration {
    d.(errorInput := false, tooltips := if d.tooltips == [] then [] else d.tooltips[1..])
  }

  /** `showError`: `removeError` first, then the class `error-input` and a new
      tooltip appended at the end of the container. */
  function AfterShow(d: Decoration, message: Message): Decoration {
    var cleared := AfterRemove(d);
    cleared.(errorInput := true, tooltips := cleared.tooltips + [message])
  }

  /** The last step of `validateField` for a verdict: a message is shown and the
      class `error` added; no message removes the error and the class. */
  function Decorated(d: Decoration, verdict: Option<Message>): Decoration {
    match verdict
    case Some(message) => AfterShow(d, message).(error := true)
    case None => AfterRemove(d).(error := false)
  }

  /** Whatever was shown before, the input ends with both classes exactly when
      the verdict holds a message, and the message's tooltip is the last one of
      its container. */
  lemma DecoratedClasses(d: Decoration, verdict: Option<Message>)
    ensures var after := Decorated(d, verdict);
      && after.error == verdict.Some? && after.errorInput == verdict.Some?
      && (verdict.Some? ==> after.tooltips != [] && after.tooltips[|after.tooltips| - 1] == verdict.value)
      && |after.tooltips| <= |d.tooltips| + 1
  {
  }

  /** `removeError` on an input that shows no error changes nothing. */
  lemma RemoveWithoutErrorChangesNothing(d: Decoration)
    requires d.tooltips == [] && !d.errorInput
    ensures AfterRemove(d) == d
  {
  }

  /** From an input with at most one tooltip, the decoration step leaves exactly
      the tooltip of the new verdict, or none for a pass, whatever was shown
      before; so it keeps the decoration consistent. */
  lemma DecoratedReplaces(d: Decoration, verdict: Option<Message>)
    requires |d.tooltips| <= 1
    ensures Decorated(d, verdict) == match verdict
      case Some(message) => Decoration(true, true, [message])
      case None => Undecorated
    ensures Consistent(Decorated(d, verdict))
  {
  }

  /** Validating an input again without changing it leaves it as the first
      validation left it. */
  lemma {:induction false} DecorationIdempotent(d: Decoration, verdict: Option<Message>)
    requires |d.tooltips| <= 1
    ensures Decorated(Decorated(d, verdict), verdict) == Decorated(d, verdict)
  {
    DecoratedReplaces(d, verdict);
    DecoratedReplaces(Decorated(d, verdict), verdict);
  }

  class Input {
    const id: string
    const kind: Kind
    const value: string
    const checked: bool
    const date: Option<int>
    const number: Option<int>
    var decoration: Decoration

    constructor (id: string, kind: Kind, value: string, checked: bool, date: Option<int>, number: Option<int>)
      ensures this.id == id && this.kind == kind && this.value == value && this.checked == checked
      ensures this.date == date && this.number == number
      ensures decoration == Undecorated
    {
      this.id, this.kind, this.value, this.checked := id, kind, value, checked;
      this.date, this.number := date, number;
      decoration := Undecorated;
    }

    /** What the validation code reads from the element. */
    function Snapshot(): Field {
      Field(id, kind, value, checked, date, number)
    }

    /** `removeError` on this input. */
    method RemoveError()
      modifies this
      ensures decoration == AfterRemove(old(decoration))
    {
      var tooltips := decoration.tooltips;
      if tooltips != [] {
        tooltips := tooltips[1..];
      }
      decoration := decoration.(errorInput := false, tooltips := tooltips);
    }

    /** `showError` on this input. */
    method ShowError(message: Message)
      modifies this
      ensures decoration == AfterShow(old(decoration), message)
    {
      RemoveError();
      decoration := decoration.(errorInput := true, tooltips := decoration.tooltips + [message]);
    }

    /** The last step of `validateField`, shared by both versions. */
    method ApplyVerdict(verdict: Option<Message>)
      modifies this
      ensures decoration == Decorated(old(decoration), verdict)
    {
      match verdict
      case Some(message) =>
        ShowError(message);
        decoration := decoration.(error := true);
      case None =>
        RemoveError();
        decoration := decoration.(error := false);
    }

    /** `validateField` of js/modal.js on this element, at instant `now`. */
    method Validate(now: int) returns (verdict: Option<Message>)
      modifies this
      ensures verdict == ModalValidation.Verdict(Snapshot(), now)
      ensures decoration == Decorated(old(decoration), verdict)
    {
      verdict := ModalValidation.Verdict(Snapshot(), now);
      ApplyVerdict(verdict);
    }

    /** The draft `validateField` of js/brouillon.js on this element. */
    method ValidateDraft(c: DraftValidation.Clock) returns (verdict: Option<Message>)
      modifies this
      ensures verdict == DraftValidation.Verdict(Snapshot(), c)
      ensures decoration == Decorated(old(decoration), verdict)
    {
      verdict := DraftValidation.Verdict(Snapshot(), c);
      ApplyVerdict(verdict);
    }
  }

  /** The verdicts of js/modal.js for the first `n` inputs, validated one after
      the other at the same instant, in document order. */
  function Verdicts(inputs: seq<Input>, n: nat, now: int): (verdicts: seq<Option<Message>>)
    requires n <= |inputs|
    ensures |verdicts| == n
  {
    if n == 0 then [] else Verdicts(inputs, n - 1, now) + [ModalValidation.Verdict(inputs[n - 1].Snapshot(), now)]
  }

  /** Each input's entry in `Verdicts` is its own verdict: validating one field
      does not depend on the fields validated before it. */
  lemma {:induction false} VerdictsPointwise(inputs: seq<Input>, n: nat, now: int)
    requires n <= |inputs|
    ensures forall k | 0 <= k < n :: Verdicts(inputs, n, now)[k] == ModalValidation.Verdict(inputs[k].Snapshot(), now)
  {
    if n > 0 {
      VerdictsPointwise(inputs, n - 1, now);
    }
  }
}
