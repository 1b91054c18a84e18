/** The per-field rules of the account forms and the error record they fill.
    Each rule checks "required" first (an empty string is falsy in
    JavaScript) and only then the format, because the pages chain the two
    with `else if`; so a field never reports both. The message texts are the
    pages' own. */
module FieldRules {
  import opened Wrappers
  import opened TextRules

  const NameRequired := "Name is required"
  const EmailRequired := "Email is required"
  const EmailInvalid := "Email is invalid"
  const AddressRequired := "Address is required"
  const MobileRequired := "mobileNumber number is required"
  const MobileInvalid := "Please enter a valid mobileNumber number"
  const PasswordRequired := "Password is required"
  const PasswordTooShort := "Password must be at least 6 characters"
  const ConfirmRequired := "Please confirm your password"
  const ConfirmMismatch := "Passwords do not match"

  const MinPasswordLength := 6
  const MinMobileDigits := 10
  const MaxMobileDigits := 15

  /** The keys an error record can carry. */
  datatype Field = Name | Email | Address | MobileNumber | Password | ConfirmPassword

  /** An error record: `Some(message)` where the page sets the key, `None`
      where it leaves it out. */
  datatype Errors = Errors(
    name: Option<string>,
    email: Option<string>,
    address: Option<string>,
    mobileNumber: Option<string>,
    password: Option<string>,
    confirmPassword: Option<string>)

  const NoErrors := Errors(None, None, None, None, None, None)

  /** `Object.keys(errors)`: the fields whose error is set. */
  function Keys(e: Errors): (ks: set<Field>)
    ensures Name in ks <==> e.name.Some?
    ensures Email in ks <==> e.email.Some?
    ensures Address in ks <==> e.address.Some?
    ensures MobileNumber in ks <==> e.mobileNumber.Some?
    ensures Password in ks <==> e.password.Some?
    ensures ConfirmPassword in ks <==> e.confirmPassword.Some?
  {
    (if e.name.Some? then {Name} else {})
    + (if e.email.Some? then {Email} else {})
    + (if e.address.Some? then {Address} else {})
    + (if e.mobileNumber.Some? then {MobileNumber} else {})
    + (if e.password.Some? then {Password} else {})
    + (if e.confirmPassword.Some? then {ConfirmPassword} else {})
  }

  /** The keys of a record lie within `fs` exactly when every field outside
      `fs` is unset. */
  lemma KeysWithin(e: Errors, fs: set<Field>)
    ensures Keys(e) <= fs <==>
      && (Name !in fs ==> e.name == None)
      && (Email !in fs ==> e.email == None)
      && (Address !in fs ==> e.address == None)
      && (MobileNumber !in fs ==> e.mobileNumber == None)
      && (Password !in fs ==> e.password == None)
      && (ConfirmPassword !in fs ==> e.confirmPassword == None)
  {
  }

  /** `Object.keys(newErrors).length === 0`, the verdict every `validate`
      returns: a record passes exactly when it carries no error at all. */
  predicate Passes(e: Errors)
    ensures Passes(e) <==> e == NoErrors
  {
    |Keys(e)| == 0
  }

  /** The regex `^[0-9]{10,15}$`: the string is its own digit projection and
      holds 10 to 15 characters. */
  predicate MobileDigitsPattern(t: string)
    ensures MobileDigitsPattern(t) <==> DigitsOnly(t) == t && MinMobileDigits <= |t| <= MaxMobileDigits
  {
    && MinMobileDigits <= |t| <= MaxMobileDigits
    && forall k :: 0 <= k < |t| ==> IsDigit(t[k])
  }

  function NameError(name: string): (r: Option<string>)
    ensures r == Some(NameRequired) <==> name == ""
    ensures r == None <==> name != ""
  {
    if name == "" then Some(NameRequired) else None
  }

  function EmailError(email: string): (r: Option<string>)
    ensures r == Some(EmailRequired) <==> email == ""
    ensures r == Some(EmailInvalid) <==> email != "" && !RegexTest(email)
    ensures r == None <==> email != "" && RegexTest(email)
  {
    if email == "" then Some(EmailRequired)
    else if !MatchesEmail(email) then Some(EmailInvalid)
    else None
  }

  function AddressError(address: string): (r: Option<string>)
    ensures r == Some(AddressRequired) <==> address == ""
    ensures r == None <==> address != ""
  {
    if address == "" then Some(AddressRequired) else None
  }

  /** A non-empty number is judged only by how many digits it holds. */
  function MobileError(mobile: string): (r: Option<string>)
    ensures r == Some(MobileRequired) <==> mobile == ""
    ensures r == Some(MobileInvalid)
        <==> mobile != "" && !(MinMobileDigits <= |DigitsOnly(mobile)| <= MaxMobileDigits)
    ensures r == None
        <==> mobile != "" && MinMobileDigits <= |DigitsOnly(mobile)| <= MaxMobileDigits
  {
    if mobile == "" then Some(MobileRequired)
    else if !MobileDigitsPattern(DigitsOnly(mobile)) then Some(MobileInvalid)
    else None
  }

  /** The length is JavaScript's, in UTF-16 code units; there is no upper bound. */
  function PasswordError(password: string): (r: Option<string>)
    ensures r == Some(PasswordRequired) <==> password == ""
    ensures r == Some(PasswordTooShort) <==> password != "" && Utf16Length(password) < MinPasswordLength
    ensures r == None <==> Utf16Length(password) >= MinPasswordLength
  {
    if password == "" then Some(PasswordRequired)
    else if Utf16Length(password) < MinPasswordLength then Some(PasswordTooShort)
    else None
  }

  /** Every password of six or more characters is accepted, however long. */
  lemma LongPasswordAccepted(password: string)
    requires |password| >= MinPasswordLength
    ensures PasswordError(password) == None
  {
  }

  function ConfirmError(confirm: string, password: string): (r: Option<string>)
    ensures r == Some(ConfirmRequired) <==> confirm == ""
    ensures r == Some(ConfirmMismatch) <==> confirm != "" && confirm != password
    ensures r == None <==> confirm != "" && confirm == password
  {
    if confirm == "" then Some(ConfirmRequired)
    else if confirm != password then Some(ConfirmMismatch)
    else None
  }

  /** Non-digit characters never change the mobile verdict: inserting one
      anywhere into a non-empty number leaves the error as it was. */
  lemma MobileIgnoresNonDigits(a: string, c: char, b: string)
    requires !IsDigit(c)
    requires a + b != ""
    ensures MobileError(a + [c] + b) == MobileError(a + b)
  {
    NonDigitInvisible(a, c, b);
  }

  /** A non-empty number without a single digit is rejected as invalid. */
  lemma MobileWithoutDigitsRejected(mobile: string)
    requires mobile != ""
    requires forall k :: 0 <= k < |mobile| ==> !IsDigit(mobile[k])
    ensures MobileError(mobile) == Some(MobileInvalid)
  {
  }
}
