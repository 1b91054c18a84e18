/** The three account pages each carry their own `validate`; these lemmas
    state that where two pages judge the same field they judge it alike. */
module PageAgreement {
  import opened Wrappers
  import opened FieldRules
  import RegisterPage
  import LoginPage
  import ProfilePage

  /** Login applies the registration email and password rules, message for
      message. */
  lemma LoginMatchesRegister(l: LoginPage.Form, r: RegisterPage.Form)
    requires l.email == r.email && l.password == r.password
    ensures LoginPage.Validate(l).email == RegisterPage.Validate(r).email
    ensures LoginPage.Validate(l).password == RegisterPage.Validate(r).password
  {
  }

  /** On name, email, address and mobile number the profile record is the
      registration record without its two password keys. */
  lemma ProfileMatchesRegister(p: ProfilePage.Form, r: RegisterPage.Form)
    requires p.name == r.name && p.email == r.email
    requires p.address == r.address && p.mobileNumber == r.mobileNumber
    ensures ProfilePage.Validate(p)
         == RegisterPage.Validate(r).(password := None, confirmPassword := None)
  {
  }

  /** A registration the page would send carries a profile the profile page
      would save. */
  lemma RegisteredProfileSaves(r: RegisterPage.Form)
    requires Passes(RegisterPage.Validate(r))
    ensures Passes(ProfilePage.Validate(ProfilePage.Form(r.name, r.email, r.address, r.mobileNumber)))
  {
  }
}
