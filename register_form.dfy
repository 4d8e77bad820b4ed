/** The registration form: three fields, a validator that records at most
    one message per field, and the change and submit handlers. */
module RegisterForm {
  import opened Wrappers
  import opened Js
  import opened EmailPattern

  datatype Field = Name | Email | Password

  /** The `errors` object: one optional entry per field; an entry is `None`
      while the object has no such key. */
  datatype Errors = Errors(name: Option<string>, email: Option<string>, password: Option<string>) {
    function Get(f: Field): Option<string> {
      match f
      case Name => name
      case Email => email
      case Password => password
    }

    function Set(f: Field, message: string): (r: Errors)
      ensures r.Get(f) == Some(message)
      ensures forall g :: g != f ==> r.Get(g) == Get(g)
    {
      match f
      case Name => this.(name := Some(message))
      case Email => this.(email := Some(message))
      case Password => this.(password := Some(message))
    }

    /** `Object.keys(errors).length === 0`. */
    predicate IsEmpty() {
      name.None? && email.None? && password.None?
    }

    /** An error is on screen when its entry is a non-empty string. */
    predicate Shows(f: Field) {
      Get(f).Some? && Get(f).value != ""
    }
  }

  const NoErrors := Errors(None, None, None)

  const NameRequired := "Full name is required"
  const NameTooShort := "Name must be at least 2 characters"
  const PasswordRequired := "Password is required"
  const PasswordTooShort := "Password must be at least 6 characters"

  function NameError(name: string): (r: Option<string>)
    ensures r.Some? <==> Utf16Length(Trim(name)) < 2
    ensures r.Some? ==> r.value == if Trim(name) == [] then NameRequired else NameTooShort
  {
    if Trim(name) == [] then Some(NameRequired)
    else if Utf16Length(Trim(name)) < 2 then Some(NameTooShort)
    else None
  }

  function PasswordError(password: string): (r: Option<string>)
    ensures r.Some? <==> Utf16Length(password) < 6
    ensures r.Some? ==> r.value == if password == "" then PasswordRequired else PasswordTooShort
  {
    if password == "" then Some(PasswordRequired)
    else if Utf16Length(password) < 6 then Some(PasswordTooShort)
    else None
  }

  /** `validateForm`'s `newErrors` for the given field values. */
  function Validate(name: string, email: string, password: string): Errors {
    Errors(NameError(name), EmailError(email), PasswordError(password))
  }

  /** Every entry the validator writes is a visible message. */
  lemma ValidateShowsEveryError(name: string, email: string, password: string)
    ensures var errs := Validate(name, email, password);
      forall f :: errs.Get(f).Some? ==> errs.Shows(f)
  {
    var errs := Validate(name, email, password);
    forall f | errs.Get(f).Some?
      ensures errs.Shows(f)
    {
      match f {
        case Name => assert errs.name.value in {NameRequired, NameTooShort};
        case Email => assert errs.email.value in {EmailRequired, EmailInvalid};
        case Password => assert errs.password.value in {PasswordRequired, PasswordTooShort};
      }
    }
  }

  /** The form is valid exactly when all three rules hold. */
  lemma ValidateAccepts(name: string, email: string, password: string)
    ensures Validate(name, email, password).IsEmpty()
        <==> Utf16Length(Trim(name)) >= 2 && LooksLikeEmail(email) && Utf16Length(password) >= 6
  {
  }

  /** What `onSubmit` receives: the field values as typed, untrimmed. */
  datatype Registration = Registration(name: string, email: string, password: string)

  class RegisterForm {
    var name: string
    var email: string
    var password: string
    var errors: Errors

    constructor ()
      ensures name == "" && email == "" && password == "" && errors == NoErrors
    {
      name, email, password := "", "", "";
      errors := NoErrors;
    }

    function Value(f: Field): string
      reads this
    {
      match f
      case Name => name
      case Email => email
      case Password => password
    }

    /** `handleChange`: the field takes the new value, and its error, if one
        is shown, is blanked; nothing else changes. */
    method HandleChange(f: Field, value: string)
      modifies this
      ensures Value(f) == value
      ensures forall g :: g != f ==> Value(g) == old(Value(g))
      ensures errors == if old(errors.Shows(f)) then old(errors).Set(f, "") else old(errors)
      ensures !errors.Shows(f)
      ensures forall g :: g != f ==> errors.Get(g) == old(errors.Get(g))
    {
      match f {
        case Name => name := value;
        case Email => email := value;
        case Password => password := value;
      }
      if errors.Shows(f) {
        errors := errors.Set(f, "");
      }
    }

    /** `handleSubmit`: the errors are replaced by the validator's, and the
        values go to `onSubmit` only when there are none. */
    method HandleSubmit() returns (submitted: Option<Registration>)
      modifies this
      ensures name == old(name) && email == old(email) && password == old(password)
      ensures errors == Validate(name, email, password)
      ensures submitted.Some? <==> Utf16Length(Trim(name)) >= 2 && LooksLikeEmail(email) && Utf16Length(password) >= 6
      ensures submitted.Some? ==> submitted.value == Registration(name, email, password)
    {
      var errs := Validate(name, email, password);
      ValidateAccepts(name, email, password);
      errors := errs;
      submitted := if errs.IsEmpty() then Some(Registration(name, email, password)) else None;
    }
  }
}
