/** The profile page: form hydration from the signed-in user, the input
    change handler, a four-field `validate`, and the edit/save toggle. The
    result of `updateProfile` is an input: it reports success, reports
    failure, or throws. */
module ProfilePage {
  import opened Wrappers
  import opened TextRules
  import opened FieldRules

  datatype Form = Form(name: string, email: string, address: string, mobileNumber: string)

  const EmptyForm := Form("", "", "", "")

  /** The fields of the signed-in user the form is filled from; `None`
      stands for a field that is `undefined` or `null`. */
  datatype User = User(
    name: Option<string>,
    email: Option<string>,
    address: Option<string>,
    mobileNumber: Option<string>)

  datatype State = State(form: Form, isEditing: bool, errors: Errors)

  const Initial := State(EmptyForm, false, NoErrors)

  /** `value || ''` */
  function OrEmpty(value: Option<string>): (r: string)
    ensures r == "" <==> value == None || value == Some("")
    ensures r != "" ==> value == Some(r)
  {
    value.GetOr("")
  }

  /** The four inputs, by their `name` attribute. */
  datatype FormField = NameField | EmailField | AddressField | MobileNumberField

  function FieldNamed(inputName: string): (k: Option<FormField>)
    ensures k == Some(NameField) <==> inputName == "name"
    ensures k == Some(EmailField) <==> inputName == "email"
    ensures k == Some(AddressField) <==> inputName == "address"
    ensures k == Some(MobileNumberField) <==> inputName == "mobileNumber"
  {
    if inputName == "name" then Some(NameField)
    else if inputName == "email" then Some(EmailField)
    else if inputName == "address" then Some(AddressField)
    else if inputName == "mobileNumber" then Some(MobileNumberField)
    else None
  }

  /** The form's value for one field. */
  function Get(f: Form, k: FormField): string {
    match k
    case NameField => f.name
    case EmailField => f.email
    case AddressField => f.address
    case MobileNumberField => f.mobileNumber
  }

  /** The user's value for one form field. */
  function UserField(u: User, k: FormField): Option<string> {
    match k
    case NameField => u.name
    case EmailField => u.email
    case AddressField => u.address
    case MobileNumberField => u.mobileNumber
  }

  /** The effect that copies the user into the form whenever the user
      changes: each field takes the user's value, or `''` when that value is
      falsy. */
  function Hydrate(st: State, user: Option<User>): (r: State)
    ensures user == None ==> r == st
    ensures user.Some? ==> forall k ::
      if Get(r.form, k) == "" then UserField(user.value, k) in {None, Some("")}
      else UserField(user.value, k) == Some(Get(r.form, k))
    ensures r.isEditing == st.isEditing && r.errors == st.errors
  {
    match user
    case None => st
    case Some(u) =>
      st.(form := Form(OrEmpty(u.name), OrEmpty(u.email), OrEmpty(u.address), OrEmpty(u.mobileNumber)))
  }

  /** `setFormData(prev => ({ ...prev, [name]: value }))`. A name that is not
      one of the four inputs only adds an unrelated key, so the four fields
      stay as they were. */
  function HandleInputChange(st: State, inputName: string, value: string): (r: State)
    ensures forall k :: Get(r.form, k) == (if FieldNamed(inputName) == Some(k) then value else Get(st.form, k))
    ensures r.isEditing == st.isEditing && r.errors == st.errors
  {
    match FieldNamed(inputName)
    case None => st
    case Some(NameField) => st.(form := st.form.(name := value))
    case Some(EmailField) => st.(form := st.form.(email := value))
    case Some(AddressField) => st.(form := st.form.(address := value))
    case Some(MobileNumberField) => st.(form := st.form.(mobileNumber := value))
  }

  /** A keystroke into one of the four inputs. They are `readOnly` outside
      editing mode, so only in editing mode does it reach `handleInputChange`;
      while viewing, the form changes only through hydration. */
  function TypeInto(st: State, inputName: string, value: string): (r: State)
    ensures !st.isEditing ==> r == st
    ensures st.isEditing ==>
      forall k :: Get(r.form, k) == (if FieldNamed(inputName) == Some(k) then value else Get(st.form, k))
    ensures r.isEditing == st.isEditing && r.errors == st.errors
  {
    if st.isEditing then HandleInputChange(st, inputName, value) else st
  }

  /** What an acceptable profile is: name and address present, the email
      containing a match of `\S+@\S+\.\S+`, and 10 to 15 digits in the
      mobile number. */
  ghost predicate Acceptable(f: Form) {
    && f.name != ""
    && RegexTest(f.email)
    && f.address != ""
    && MinMobileDigits <= |DigitsOnly(f.mobileNumber)| <= MaxMobileDigits
  }

  /** The four rules, as Register.tsx also states them; the record never
      carries a password key. */
  function Validate(f: Form): (e: Errors)
    ensures Keys(e) <= {Name, Email, Address, MobileNumber}
    ensures e.name.Some? <==> f.name == ""
    ensures e.email.Some? <==> !RegexTest(f.email)
    ensures e.address.Some? <==> f.address == ""
    ensures e.mobileNumber.Some? <==> !(MinMobileDigits <= |DigitsOnly(f.mobileNumber)| <= MaxMobileDigits)
    ensures Passes(e) <==> Acceptable(f)
  {
    var e := Errors(
      NameError(f.name),
      EmailError(f.email),
      AddressError(f.address),
      MobileError(f.mobileNumber),
      None,
      None);
    KeysWithin(e, {Name, Email, Address, MobileNumber});
    e
  }

  /** How the awaited `updateProfile` call ended. */
  datatype UpdateOutcome = Updated | NotUpdated | Threw

  const UpdateFailedToast := "Failed to update profile"

  /** What one handler leaves behind: the new state, the fields handed to
      `updateProfile` if it was called, and the error toast if one was shown. */
  datatype Effect = Effect(state: State, call: Option<Form>, toast: Option<string>)

  /** `handleSave`: re-validate; call `updateProfile` only when the form
      passes; leave editing mode only when the call reports success. */
  function HandleSave(st: State, outcome: UpdateOutcome): (r: Effect)
    ensures r.state.form == st.form
    ensures r.state.errors == Validate(st.form)
    ensures r.call.Some? <==> Acceptable(st.form)
    ensures r.call.Some? ==> r.call.value == st.form
    ensures r.state.isEditing != st.isEditing ==> r.call.Some? && outcome == Updated && !r.state.isEditing
    ensures r.call.Some? && outcome == Updated ==> !r.state.isEditing
    ensures r.toast.Some? <==> r.call.Some? && outcome == Threw
    ensures r.toast.Some? ==> r.toast.value == UpdateFailedToast
  {
    var e := Validate(st.form);
    if !Passes(e) then Effect(st.(errors := e), None, None)
    else
      match outcome
      case Updated => Effect(st.(errors := e, isEditing := false), Some(st.form), None)
      case NotUpdated => Effect(st.(errors := e), Some(st.form), None)
      case Threw => Effect(st.(errors := e), Some(st.form), Some(UpdateFailedToast))
  }

  /** `handleEditToggle`. Outside editing mode it only enters editing mode;
      in editing mode a passing form is saved, while a failing one leaves
      editing mode with its errors shown and nothing saved. */
  function HandleEditToggle(st: State, outcome: UpdateOutcome): (r: Effect)
    ensures !st.isEditing ==> r == Effect(st.(isEditing := true), None, None)
    ensures st.isEditing && Acceptable(st.form) ==> r == HandleSave(st, outcome)
    ensures st.isEditing && !Acceptable(st.form) ==>
      r == Effect(st.(errors := Validate(st.form), isEditing := false), None, None)
    ensures r.call.Some? ==> st.isEditing && Acceptable(st.form) && r.call.value == st.form
  {
    if st.isEditing && Passes(Validate(st.form)) then
      HandleSave(st.(errors := Validate(st.form)), outcome)
    else
      var st' := if st.isEditing then st.(errors := Validate(st.form)) else st;
      Effect(st'.(isEditing := !st.isEditing), None, None)
  }
}
