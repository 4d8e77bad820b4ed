/** The "forgot password" dialog: it checks the email, calls the API with
    `isLoading` set for the duration of the call, and switches to its
    confirmation view after a successful answer. */
module ForgotPasswordModal {
  import opened Wrappers
  import opened EmailPattern

  datatype Toast = ErrorToast(text: string) | SuccessToast(text: string)

  /** How the API call ended: resolved, or rejected; the server's
      `message` is `""` when the answer has none. */
  datatype ApiOutcome = Resolved(message: string) | Rejected(message: string)

  datatype View = FormView | ConfirmationView

  const EnterEmail := "Please enter your email address"
  const EnterValidEmail := "Please enter a valid email address"
  const DefaultSuccess := "Password reset email sent successfully!"
  const DefaultFailure := "Failed to send reset email. Please try again."

  class ForgotPasswordModal {
    var email: string
    var isLoading: bool
    var isSubmitted: bool
    /** The toasts shown so far, oldest first. */
    var toasts: seq<Toast>
    /** The emails sent to `authAPI.forgotPassword`, oldest first. */
    var requests: seq<string>

    constructor ()
      ensures email == "" && !isLoading && !isSubmitted && toasts == [] && requests == []
    {
      email := "";
      isLoading, isSubmitted := false, false;
      toasts, requests := [], [];
    }

    /** The confirmation view replaces the form exactly when `isSubmitted`. */
    function CurrentView(): (v: View)
      reads this
      ensures v == ConfirmationView <==> isSubmitted
    {
      if isSubmitted then ConfirmationView else FormView
    }

    /** Typing in the email input, which is disabled during a call and not
        rendered in the confirmation view. */
    method SetEmail(value: string)
      modifies this
      ensures email == (if old(isLoading) || old(isSubmitted) then old(email) else value)
      ensures isLoading == old(isLoading) && isSubmitted == old(isSubmitted)
      ensures toasts == old(toasts) && requests == old(requests)
    {
      if !isLoading && !isSubmitted {
        email := value;
      }
    }

    /** `handleSubmit` up to the `await`. The submit button is disabled
        during a call and absent from the confirmation view, so a submit
        then does nothing. An empty or malformed email shows an error toast
        and makes no call; otherwise the call starts with `isLoading` set. */
    method StartSubmit() returns (called: bool)
      modifies this
      ensures email == old(email) && isSubmitted == old(isSubmitted)
      ensures called <==> !old(isLoading) && !old(isSubmitted) && LooksLikeEmail(email)
      ensures called ==> isLoading && requests == old(requests) + [email] && toasts == old(toasts)
      ensures !called ==> isLoading == old(isLoading) && requests == old(requests)
      ensures !called && !old(isLoading) && !old(isSubmitted) ==>
        toasts == old(toasts) + [ErrorToast(if email == "" then EnterEmail else EnterValidEmail)]
      ensures old(isLoading) || old(isSubmitted) ==> toasts == old(toasts)
    {
      called := false;
      if isLoading || isSubmitted {
        return;
      }
      if email == "" {
        toasts := toasts + [ErrorToast(EnterEmail)];
        return;
      }
      if !LooksLikeEmail(email) {
        toasts := toasts + [ErrorToast(EnterValidEmail)];
        return;
      }
      isLoading := true;
      requests := requests + [email];
      called := true;
    }

    /** The rest of `handleSubmit`, when the call ends: a toast with the
        server's message or the default, `isSubmitted` set only on success,
        and `isLoading` cleared either way. */
    method FinishSubmit(outcome: ApiOutcome)
      requires isLoading
      modifies this
      ensures !isLoading && email == old(email) && requests == old(requests)
      ensures isSubmitted == (old(isSubmitted) || outcome.Resolved?)
      ensures outcome.Resolved? ==>
        toasts == old(toasts) + [SuccessToast(if outcome.message != "" then outcome.message else DefaultSuccess)]
      ensures outcome.Rejected? ==>
        toasts == old(toasts) + [ErrorToast(if outcome.message != "" then outcome.message else DefaultFailure)]
    {
      match outcome {
        case Resolved(m) =>
          toasts := toasts + [SuccessToast(if m != "" then m else DefaultSuccess)];
          isSubmitted := true;
        case Rejected(m) =>
          toasts := toasts + [ErrorToast(if m != "" then m else DefaultFailure)];
      }
      isLoading := false;
    }
  }
}
