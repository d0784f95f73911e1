/** The auth dialog's view and step state machine: which form is shown (login,
    signup or forgot password), the signup step, the direction the next
    slide animates in, and whether the dialog is open. The animations
    themselves are abstracted: a view or step change takes effect when the
    form's fade-out completes, and closing with a timeline takes effect when
    the reversed timeline completes. */
module AuthCard {
  import opened Forms

  datatype View = Login | Signup | ForgotPassword

  /** `viewOrder`: the left-to-right order of the three forms. */
  function Order(v: View): (o: int)
    ensures -1 <= o <= 1
  {
    match v
    case ForgotPassword => -1
    case Login => 0
    case Signup => 1
  }

  /** The slide direction of a view change: forward exactly when the target
      comes later in `viewOrder`. */
  function Direction(from: View, to: View): (d: int)
    ensures d == 1 || d == -1
    ensures d == 1 <==> Order(to) > Order(from)
  {
    if Order(to) > Order(from) then 1 else -1
  }

  /** The slide direction of a signup step change. */
  function StepDirection(from: int, to: int): (d: int)
    ensures d == 1 || d == -1
    ensures d == 1 <==> to > from
  {
    if to > from then 1 else -1
  }

  /** The dialog title of each view. */
  function Title(v: View): string
  {
    match v
    case Login => "Welcome to Amnaya"
    case Signup => "Join Amnaya"
    case ForgotPassword => "Reset Password"
  }

  /** What `transition` is asked to show: another form, or another signup
      step. */
  datatype Target = ToView(view: View) | ToStep(step: int)

  /** The auth dialog's state. `hasOnOpenChange` says whether the parent passed
      an open-change callback; when it did, opening and closing are reported
      to it instead of changing `internalOpen`. */
  class AuthCard {
    const hasOnOpenChange: bool
    var internalOpen: bool
    var view: View
    var signupStep: int
    var direction: int
    var flipCaptured: bool
    /** Fade-outs under way, oldest first; each applies its target on
        completion. */
    var pending: seq<Target>
    /** A close is waiting for the reversed timeline to complete. */
    var closing: bool

    constructor(hasOnOpenChange: bool)
      ensures this.hasOnOpenChange == hasOnOpenChange
      ensures !internalOpen && view == Login && signupStep == 1 && direction == 1
      ensures !flipCaptured && pending == [] && !closing
    {
      this.hasOnOpenChange := hasOnOpenChange;
      internalOpen := false;
      view := Login;
      signupStep := 1;
      direction := 1;
      flipCaptured := false;
      pending := [];
      closing := false;
    }

    /** `isOpen`: the `open` prop when the parent controls the dialog, the
        internal state otherwise. */
    function IsOpen(openProp: Option<bool>): (r: bool)
      reads this
      ensures openProp.Some? ==> r == openProp.value
      ensures openProp.None? ==> r == internalOpen
    {
      if openProp.Some? then openProp.value else internalOpen
    }

    /** `setIsOpen`: reports `open` to the parent's callback when there is one
        (the returned value), or sets the internal state. */
    method SetIsOpen(open: bool) returns (reported: Option<bool>)
      modifies this
      ensures hasOnOpenChange ==> reported == Some(open) && internalOpen == old(internalOpen)
      ensures !hasOnOpenChange ==> reported == None && internalOpen == open
      ensures view == old(view) && signupStep == old(signupStep) && direction == old(direction)
      ensures flipCaptured == old(flipCaptured) && pending == old(pending) && closing == old(closing)
    {
      if hasOnOpenChange {
        reported := Some(open);
      } else {
        internalOpen := open;
        reported := None;
      }
    }

    /** `transition`: with the dialog's content and form mounted, records the
        slide direction, captures the layout and starts the fade-out that
        will apply `target`; otherwise does nothing. */
    method Transition(target: Target, contentPresent: bool, formPresent: bool)
      modifies this
      ensures !(contentPresent && formPresent) ==>
        direction == old(direction) && flipCaptured == old(flipCaptured) && pending == old(pending)
      ensures contentPresent && formPresent ==>
        && direction == (match target
                         case ToView(v) => Direction(old(view), v)
                         case ToStep(n) => StepDirection(old(signupStep), n))
        && flipCaptured && pending == old(pending) + [target]
      ensures view == old(view) && signupStep == old(signupStep)
      ensures internalOpen == old(internalOpen) && closing == old(closing)
    {
      if !contentPresent || !formPresent {
        return;
      }
      match target {
        case ToView(v) => direction := Direction(view, v);
        case ToStep(n) => direction := StepDirection(signupStep, n);
      }
      flipCaptured := true;
      pending := pending + [target];
    }

    /** The oldest fade-out completes: a view change shows the target view at
        step 1, a step change shows the target step in the same view. */
    method FadeOutComplete()
      modifies this
      requires |pending| > 0
      ensures pending == old(pending[1..])
      ensures match old(pending[0])
              case ToView(v) => view == v && signupStep == 1
              case ToStep(n) => view == old(view) && signupStep == n
      ensures direction == old(direction) && flipCaptured == old(flipCaptured)
      ensures internalOpen == old(internalOpen) && closing == old(closing)
    {
      var target := pending[0];
      pending := pending[1..];
      match target {
        case ToView(v) =>
          view := v;
          signupStep := 1;
        case ToStep(n) =>
          signupStep := n;
      }
    }

    /** The resize animation started from a captured layout completes and
        forgets that layout, so the next animation run starts from the card's
        opening reveal again unless another change captures one first. */
    method FlipComplete()
      modifies this
      ensures !flipCaptured
      ensures view == old(view) && signupStep == old(signupStep) && direction == old(direction)
      ensures pending == old(pending) && internalOpen == old(internalOpen) && closing == old(closing)
    {
      flipCaptured := false;
    }

    /** `closeDialog`: without a timeline the dialog closes at once; with one
        the timeline is reversed and the close waits for it. */
    method CloseDialog(hasTimeline: bool) returns (reported: Option<bool>)
      modifies this
      ensures !hasTimeline ==>
        && reported == (if hasOnOpenChange then Some(false) else None)
        && internalOpen == (if hasOnOpenChange then old(internalOpen) else false)
        && closing == old(closing)
      ensures hasTimeline ==> reported == None && internalOpen == old(internalOpen) && closing
      ensures view == old(view) && signupStep == old(signupStep) && direction == old(direction)
      ensures flipCaptured == old(flipCaptured) && pending == old(pending)
    {
      if !hasTimeline {
        reported := SetIsOpen(false);
        return;
      }
      closing := true;
      reported := None;
    }

    /** The reversed timeline completes: a waiting close closes the dialog and
        resets it to the login view, step 1, forward direction, no captured
        layout. */
    method ReverseComplete() returns (reported: Option<bool>)
      modifies this
      ensures !old(closing) ==>
        reported == None && internalOpen == old(internalOpen) && view == old(view)
        && signupStep == old(signupStep) && direction == old(direction) && flipCaptured == old(flipCaptured)
      ensures old(closing) ==>
        && reported == (if hasOnOpenChange then Some(false) else None)
        && internalOpen == (if hasOnOpenChange then old(internalOpen) else false)
        && view == Login && signupStep == 1 && direction == 1 && !flipCaptured
      ensures !closing && pending == old(pending)
    {
      if !closing {
        reported := None;
        return;
      }
      reported := SetIsOpen(false);
      view := Login;
      signupStep := 1;
      direction := 1;
      flipCaptured := false;
      closing := false;
    }

    /** The dialog's own open-change: opening sets the open state, closing
        runs `closeDialog`. */
    method DialogOpenChange(open: bool, hasTimeline: bool) returns (reported: Option<bool>)
      modifies this
      ensures open ==> reported == (if hasOnOpenChange then Some(true) else None)
                       && internalOpen == (if hasOnOpenChange then old(internalOpen) else true)
                       && closing == old(closing)
      ensures !open && !hasTimeline ==> reported == (if hasOnOpenChange then Some(false) else None)
                                        && internalOpen == (if hasOnOpenChange then old(internalOpen) else false)
                                        && closing == old(closing)
      ensures !open && hasTimeline ==> reported == None && internalOpen == old(internalOpen) && closing
      ensures view == old(view) && signupStep == old(signupStep) && direction == old(direction)
      ensures flipCaptured == old(flipCaptured) && pending == old(pending)
    {
      if open {
        reported := SetIsOpen(true);
      } else {
        reported := CloseDialog(hasTimeline);
      }
    }

    /** `handleSubmit`: forwards the view being shown to the parent's submit
        handler. */
    method HandleSubmit() returns (submittedView: View)
      ensures submittedView == view
    {
      submittedView := view;
    }
  }

  // ---- Properties of the view order ----

  /** Moving between two different views slides one way there and the other
      way back. */
  lemma DirectionReverses(a: View, b: View)
    requires a != b
    ensures Direction(a, b) == -Direction(b, a)
  {
  }

  /** A transition to the view already shown slides backwards. */
  lemma DirectionToSelf(v: View)
    ensures Direction(v, v) == -1
  {
  }

  /** `viewOrder` is a strict order: forgot password, then login, then
      signup. */
  lemma OrderStrict(a: View, b: View)
    ensures Order(a) == Order(b) <==> a == b
    ensures Order(ForgotPassword) < Order(Login) < Order(Signup)
  {
  }

  /** Each view has its own title. */
  lemma TitlesDistinct(a: View, b: View)
    ensures Title(a) == Title(b) <==> a == b
  {
  }
}
