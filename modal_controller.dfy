/** The modal lifecycle and the submit handler of js/modal.js: the global
    `modalOpen` flag, the inline styles the handlers set on the entry modal,
    the confirmation modal and the page body, and the inputs the submit handler
    re-validates. */
module ModalController {
  import opened Wrappers
  import opened Form
  import opened FormField
  import ModalValidation

  /** An element's inline `style.display`: unset (the stylesheet decides),
      'block', 'flex' or 'none'. */
  datatype Display = DisplayUnset | Block | Flex | Hidden

  /** The body's inline `style.overflow`: unset, 'hidden' or 'auto'. */
  datatype Overflow = OverflowUnset | NoScroll | Scroll

  class Page {
    var modalOpen: bool
    var modalDisplay: Display         // the entry modal's background, `.bground`
    var confirmationDisplay: Display  // `#confirmation-modal`
    var bodyOverflow: Overflow
    const inputs: seq<Input>          // `document.querySelectorAll('input')`

    /** `modalOpen` tracks exactly whether the entry modal is shown as a block,
        and the inputs are distinct elements. */
    ghost predicate Valid()
      reads this
    {
      && (modalOpen <==> modalDisplay == Block)
      && forall i, j | 0 <= i < j < |inputs| :: inputs[i] != inputs[j]
    }

    /** The page as loaded: nothing shown, no inline styles. */
    constructor (inputs: seq<Input>)
      requires forall i, j | 0 <= i < j < |inputs| :: inputs[i] != inputs[j]
      ensures this.inputs == inputs && Valid()
      ensures !modalOpen && modalDisplay == DisplayUnset && confirmationDisplay == DisplayUnset
      ensures bodyOverflow == OverflowUnset
    {
      this.inputs := inputs;
      modalOpen := false;
      modalDisplay, confirmationDisplay, bodyOverflow := DisplayUnset, DisplayUnset, OverflowUnset;
    }

    /** `launchModal`: shows the entry modal and locks scrolling, from any
        state; the confirmation modal is left as it is. It first calls
        `resetForm`, which is not part of this model: the inputs are in its
        frame and nothing is promised about their decoration afterwards. */
    method LaunchModal()
      requires Valid()
      modifies this`modalOpen, this`modalDisplay, this`bodyOverflow, inputs
      ensures Valid()
      ensures modalOpen && modalDisplay == Block && bodyOverflow == NoScroll
    {
      modalDisplay := Block;
      bodyOverflow := NoScroll;
      modalOpen := true;
    }

    /** `closeModal`: hides the entry modal and unlocks scrolling, from any
        state; the confirmation modal is left as it is. */
    method CloseModal()
      requires Valid()
      modifies this`modalOpen, this`modalDisplay, this`bodyOverflow
      ensures Valid()
      ensures !modalOpen && modalDisplay == Hidden && bodyOverflow == Scroll
    {
      modalDisplay := Hidden;
      bodyOverflow := Scroll;
      modalOpen := false;
    }

    /** `openConfirmationModal`: shows the confirmation modal and locks
        scrolling; `modalOpen` and the entry modal are not touched. */
    method OpenConfirmationModal()
      modifies this`confirmationDisplay, this`bodyOverflow
      ensures confirmationDisplay == Flex && bodyOverflow == NoScroll
    {
      confirmationDisplay := Flex;
      bodyOverflow := NoScroll;
    }

    /** The click handler of the confirmation's close button: hides the
        confirmation modal and unlocks scrolling; `modalOpen` and the entry
        modal are not touched. */
    method CloseConfirmationModal()
      modifies this`confirmationDisplay, this`bodyOverflow
      ensures confirmationDisplay == Hidden && bodyOverflow == Scroll
    {
      confirmationDisplay := Hidden;
      bodyOverflow := Scroll;
    }

    /** The click handler on the entry modal's background: closes the modal
        only when the click landed on the background itself, not on the form
        inside it. */
    method BackdropClick(onBackdrop: bool)
      requires Valid()
      modifies this`modalOpen, this`modalDisplay, this`bodyOverflow
      ensures Valid()
      ensures onBackdrop ==> !modalOpen && modalDisplay == Hidden && bodyOverflow == Scroll
      ensures !onBackdrop ==> modalOpen == old(modalOpen) && modalDisplay == old(modalDisplay)
                               && bodyOverflow == old(bodyOverflow)
    {
      if onBackdrop {
        CloseModal();
      }
    }

    /** The loop of the submit handler: `validateField` on every input, in
        document order, at instant `now`; `isValid` ends true exactly when no
        input has the class `error` afterwards. */
    method ValidateInputs(now: int) returns (isValid: bool)
      requires forall i, j | 0 <= i < j < |inputs| :: inputs[i] != inputs[j]
      modifies inputs
      ensures var verdicts := Verdicts(inputs, |inputs|, now);
        forall k | 0 <= k < |inputs| :: inputs[k].decoration == Decorated(old(inputs[k].decoration), verdicts[k])
      ensures isValid <==> forall k | 0 <= k < |inputs| :: !inputs[k].decoration.error
    {
      isValid := true;
      ghost var verdicts: seq<Option<Message>> := [];
      var i := 0;
      while i < |inputs|
        invariant 0 <= i <= |inputs|
        invariant verdicts == Verdicts(inputs, i, now)
        invariant forall k | 0 <= k < i :: inputs[k].decoration == Decorated(old(inputs[k].decoration), verdicts[k])
        invariant forall k | i <= k < |inputs| :: inputs[k].decoration == old(inputs[k].decoration)
        invariant isValid <==> forall k | 0 <= k < i :: verdicts[k].None?
      {
        var verdict := inputs[i].Validate(now);
        verdicts := verdicts + [verdict];
        if inputs[i].decoration.error {
          isValid := false;
        }
        i := i + 1;
      }
    }

    /** The submit handler: re-validates every input, then opens the
        confirmation modal exactly when none of them has the class `error`;
        otherwise it only alerts. It never changes `modalOpen`. */
    method Submit(now: int) returns (confirmed: bool)
      requires Valid()
      modifies this`confirmationDisplay, this`bodyOverflow, inputs
      ensures Valid()
      ensures var verdicts := Verdicts(inputs, |inputs|, now);
        forall k | 0 <= k < |inputs| :: inputs[k].decoration == Decorated(old(inputs[k].decoration), verdicts[k])
      ensures confirmed <==> forall k | 0 <= k < |inputs| :: !inputs[k].decoration.error
      ensures confirmed <==> forall k | 0 <= k < |inputs| :: ModalValidation.Verdict(inputs[k].Snapshot(), now).None?
      ensures confirmed ==> confirmationDisplay == Flex && bodyOverflow == NoScroll
      ensures !confirmed ==> confirmationDisplay == old(confirmationDisplay) && bodyOverflow == old(bodyOverflow)
      ensures modalOpen == old(modalOpen) && modalDisplay == old(modalDisplay)
    {
      confirmed := ValidateInputs(now);
      VerdictsPointwise(inputs, |inputs|, now);
      if confirmed {
        OpenConfirmationModal();
      }
    }
  }

  /** A session as a visitor runs it: open the form, submit it filled in
      correctly, close the confirmation. Closing the confirmation leaves
      `modalOpen` set and the entry modal shown while scrolling is unlocked
      again. */
  method SuccessfulSession(now: int)
  {
    var first := new Input("first", TextBox, "Ada", false, None, None);
    var page := new Page([first]);
    page.LaunchModal();
    assert Strings.Trim("Ada") == "Ada" by { Strings.TrimPadded("Ada"); }
    Patterns.NameMatchesIffShape("Ada");
    assert ModalValidation.Verdict(first.Snapshot(), now) == None;
    var confirmed := page.Submit(now);
    assert confirmed && page.confirmationDisplay == Flex;
    page.CloseConfirmationModal();
    assert page.modalOpen && page.modalDisplay == Block && page.bodyOverflow == Scroll;
  }

  /** A submission with a blank first name: the field gets its "requis"
      tooltip and the `error` classes, and the confirmation stays closed. */
  method BlankFirstNameBlocksSubmit(now: int)
  {
    var first := new Input("first", TextBox, "  ", false, None, None);
    var page := new Page([first]);
    page.LaunchModal();
    assert Strings.Trim("  ") == [];
    ghost var before := first.decoration;
    var confirmed := page.Submit(now);
    assert Verdicts([first], 1, now) == [Some(FirstRequired)];
    DecoratedClasses(before, Some(FirstRequired));
    assert !confirmed && first.decoration.error && first.decoration.errorInput;
    assert first.decoration.tooltips[|first.decoration.tooltips| - 1] == FirstRequired;
    assert page.confirmationDisplay == DisplayUnset && page.modalOpen;
  }
}
