/** The registration page: its six-field `validate`, and the submit handler
    that calls `register` only when the form passes, sending the device
    identifier or `'unknown'` in its place. The outcome of `register` is not
    observed by the page (a failure is only logged). */
module RegisterPage {
  import opened Wrappers
  import opened TextRules
  import opened FieldRules

  datatype Form = Form(
    name: string,
    email: string,
    address: string,
    mobileNumber: string,
    password: string,
    confirmPassword: string)

  /** What an acceptable registration is, stated without the rules'
      messages: every required field present, the email
      containing a match of `\S+@\S+\.\S+`, 10 to 15 digits in the mobile
      number, a password of at least six UTF-16 code units, and a
      confirmation equal to it. */
  ghost predicate Acceptable(f: Form) {
    && f.name != ""
    && RegexTest(f.email)
    && f.address != ""
    && MinMobileDigits <= |DigitsOnly(f.mobileNumber)| <= MaxMobileDigits
    && Utf16Length(f.password) >= MinPasswordLength
    && f.confirmPassword == f.password
  }

  /** Each key of the record is the verdict of that field's rule, and the
      form passes exactly when it is acceptable. */
  function Validate(f: Form): (e: Errors)
    ensures e.name.Some? <==> f.name == ""
    ensures e.email.Some? <==> !RegexTest(f.email)
    ensures e.address.Some? <==> f.address == ""
    ensures e.mobileNumber.Some? <==> !(MinMobileDigits <= |DigitsOnly(f.mobileNumber)| <= MaxMobileDigits)
    ensures e.password.Some? <==> Utf16Length(f.password) < MinPasswordLength
    ensures e.confirmPassword.Some? <==> f.confirmPassword == "" || f.confirmPassword != f.password
    ensures Passes(e) <==> Acceptable(f)
  {
    Errors(
      NameError(f.name),
      EmailError(f.email),
      AddressError(f.address),
      MobileError(f.mobileNumber),
      PasswordError(f.password),
      ConfirmError(f.confirmPassword, f.password))
  }

  /** A form missing any required field never passes. */
  lemma MissingFieldBlocks(f: Form)
    requires f.name == "" || f.email == "" || f.address == ""
          || f.mobileNumber == "" || f.password == "" || f.confirmPassword == ""
    ensures !Passes(Validate(f))
  {
  }

  /** The payload handed to `register`. */
  datatype Registration = Registration(
    name: string,
    email: string,
    address: string,
    mobileNumber: string,
    password: string,
    macAddresses: string)

  /** `macAddresses || 'unknown'`: `None` stands for `undefined` or `null`. */
  function DeviceId(macAddresses: Option<string>): (d: string)
    ensures d != ""
    ensures macAddresses.Some? && macAddresses.value != "" ==> d == macAddresses.value
    ensures macAddresses == None || macAddresses == Some("") ==> d == "unknown"
  {
    if macAddresses.Some? && macAddresses.value != "" then macAddresses.value else "unknown"
  }

  /** What one submit leaves behind: the error record shown, and the call
      to `register`, if one was made. */
  datatype Submission = Submission(errors: Errors, call: Option<Registration>)

  function HandleSubmit(f: Form, macAddresses: Option<string>): (s: Submission)
    ensures s.errors == Validate(f)
    ensures s.call.Some? <==> Acceptable(f)
    ensures s.call.Some? ==> s.call.value == Registration(
      f.name, f.email, f.address, f.mobileNumber, f.password, DeviceId(macAddresses))
  {
    var e := Validate(f);
    if !Passes(e) then Submission(e, None)
    else Submission(e, Some(Registration(
      f.name, f.email, f.address, f.mobileNumber, f.password, DeviceId(macAddresses))))
  }
}
