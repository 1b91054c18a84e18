/** The login page: a two-field `validate` and a submit handler that calls
    `login` with exactly the entered credentials when, and only when, the
    form passes. */
module LoginPage {
  import opened Wrappers
  import opened TextRules
  import opened FieldRules

  datatype Form = Form(email: string, password: string)

  /** The email and password rules, as Register.tsx also states them; the
      record never carries any other key. */
  function Validate(f: Form): (e: Errors)
    ensures Keys(e) <= {Email, Password}
    ensures e.email.Some? <==> !RegexTest(f.email)
    ensures e.password.Some? <==> Utf16Length(f.password) < MinPasswordLength
    ensures e.email == Some(EmailRequired) <==> f.email == ""
    ensures e.password == Some(PasswordRequired) <==> f.password == ""
    ensures Passes(e) <==> RegexTest(f.email) && Utf16Length(f.password) >= MinPasswordLength
  {
    var e := Errors(None, EmailError(f.email), None, None, PasswordError(f.password), None);
    KeysWithin(e, {Email, Password});
    e
  }

  /** The payload handed to `login`. */
  datatype Credentials = Credentials(email: string, password: string)

  datatype Submission = Submission(errors: Errors, call: Option<Credentials>)

  function HandleSubmit(f: Form): (s: Submission)
    ensures s.errors == Validate(f)
    ensures s.call.Some? <==> Passes(s.errors)
    ensures s.call.Some? ==> s.call.value == Credentials(f.email, f.password)
  {
    var e := Validate(f);
    if !Passes(e) then Submission(e, None)
    else Submission(e, Some(Credentials(f.email, f.password)))
  }
}
