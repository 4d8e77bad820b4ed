/** The sign-in form: an email that must look like an address and a
    password that need only be non-empty. */
module LoginForm {
  import opened Wrappers
  import opened EmailPattern

  datatype Field = Email | Password

  /** The `errors` object: one optional entry per field; an entry is `None`
      while the object has no such key. */
  datatype Errors = Errors(email: Option<string>, password: Option<string>) {
    function Get(f: Field): Option<string> {
      match f
      case Email => email
      case Password => password
    }

    function Set(f: Field, message: string): (r: Errors)
      ensures r.Get(f) == Some(message)
      ensures forall g :: g != f ==> r.Get(g) == Get(g)
    {
      match f
      case Email => this.(email := Some(message))
      case Password => this.(password := Some(message))
    }

    /** `Object.keys(errors).length === 0`. */
    predicate IsEmpty() {
      email.None? && password.None?
    }

    /** An error is on screen when its entry is a non-empty string. */
    predicate Shows(f: Field) {
      Get(f).Some? && Get(f).value != ""
    }
  }

  const NoErrors := Errors(None, None)

  const PasswordRequired := "Password is required"

  function PasswordError(password: string): (r: Option<string>)
    ensures r.Some? <==> password == ""
    ensures r.Some? ==> r.value == PasswordRequired
  {
    if password == "" then Some(PasswordRequired) else None
  }

  /** `validateForm`'s `newErrors` for the given field values. */
  function Validate(email: string, password: string): Errors {
    Errors(EmailError(email), PasswordError(password))
  }

  /** The form is valid exactly when the email looks like an address and a
      password was typed; there is no minimum length on sign-in. */
  lemma ValidateAccepts(email: string, password: string)
    ensures Validate(email, password).IsEmpty() <==> LooksLikeEmail(email) && password != ""
  {
  }

  /** Every entry the validator writes is a visible message. */
  lemma ValidateShowsEveryError(email: string, password: string)
    ensures var errs := Validate(email, password);
      forall f :: errs.Get(f).Some? ==> errs.Shows(f)
  {
    var errs := Validate(email, password);
    forall f | errs.Get(f).Some?
      ensures errs.Shows(f)
    {
      match f {
        case Email => assert errs.email.value in {EmailRequired, EmailInvalid};
        case Password => assert errs.password.value == PasswordRequired;
      }
    }
  }

  /** `formData`, as `onSubmit` receives it. */
  datatype Credentials = Credentials(email: string, password: string)

  class LoginForm {
    var email: string
    var password: string
    var errors: Errors

    constructor ()
      ensures email == "" && password == "" && errors == NoErrors
    {
      email, password := "", "";
      errors := NoErrors;
    }

    function Value(f: Field): string
      reads this
    {
      match f
      case Email => email
      case Password => password
    }

    /** `handleChange`: the field takes the new value, and its error, if one
        is shown, is blanked; nothing else changes. */
    method HandleChange(f: Field, value: string)
      modifies this
      ensures Value(f) == value
      ensures forall g :: g != f ==> Value(g) == old(Value(g))
      ensures errors == if old(errors.Shows(f)) then old(errors).Set(f, "") else old(errors)
      ensures !errors.Shows(f)
      ensures forall g :: g != f ==> errors.Get(g) == old(errors.Get(g))
    {
      match f {
        case Email => email := value;
        case Password => password := value;
      }
      if errors.Shows(f) {
        errors := errors.Set(f, "");
      }
    }

    /** `handleSubmit`: the errors are replaced by the validator's, and the
        credentials go to `onSubmit` only when there are none. */
    method HandleSubmit() returns (submitted: Option<Credentials>)
      modifies this
      ensures email == old(email) && password == old(password)
      ensures errors == Validate(email, password)
      ensures submitted.Some? <==> LooksLikeEmail(email) && password != ""
      ensures submitted.Some? ==> submitted.value == Credentials(email, password)
    {
      var errs := Validate(email, password);
      ValidateAccepts(email, password);
      errors := errs;
      submitted := if errs.IsEmpty() then Some(Credentials(email, password)) else None;
    }
  }
}
