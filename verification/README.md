# Account-form validators and the forgot-password wizard

This project models the client-side logic of the "blockchain fraud sentry"
front-end, as it appears in its four account pages:

- **Login, Register and Profile forms.** Each page's `validate` maps the
  field strings to an error record of per-field messages. The rules are
  "required" (the empty string is falsy), then a format check chained with
  `else if`. The format checks are the unanchored email pattern
  `\S+@\S+\.\S+`, a mobile number of 10 to 15 digits once non-digits are
  stripped, a password of at least 6 characters, and a confirmation equal
  to the password. A form is valid exactly when the record has no key.
  Each submit handler calls the network action (`login`, `register`,
  `updateProfile`) only when `validate` passes.
- **The Profile edit/save toggle.** It fills the form from the signed-in
  user, updates one field per input change, and switches between viewing
  and editing. While viewing, the inputs are read-only, so the form changes
  only when it is filled from the user. In editing mode an invalid form makes the toggle leave
  editing mode without saving.
- **The forgot-password wizard.** It has three steps (email → OTP → new
  password → navigate to `/login`), an error line and a loading flag. Each
  step's button is rendered only on that step.

Modules:

| module | file | contents |
|---|---|---|
| `Wrappers` | wrappers.dfy | `Option`, standing for absent keys and `undefined`/`null` values |
| `TextRules` | text_rules.dfy | JavaScript `\s`, `[0-9]`, UTF-16 `length`, the digit-only projection, the regex semantics of `/\S+@\S+\.\S+/.test` and an executable scanner proved equal to it |
| `FieldRules` | field_rules.dfy | the message texts, the per-field rules, the `Errors` record and its keys |
| `RegisterPage`, `LoginPage`, `ProfilePage` | register_page.dfy, login_page.dfy, profile_page.dfy | each page's `validate` and handlers |
| `PageAgreement` | page_agreement.dfy | where two pages judge the same field, they judge it alike |
| `ForgotPasswordWizard` | forgot_password.dfy | the step/error/loading machine, event gating, runs of events |

The pages copy the rule text three times; the model defines each rule once,
in `FieldRules`. `PageAgreement` states what that copying promises.

Every server response becomes an input, and every request becomes an output:
- the wizard handlers take `ok: bool`;
- the profile save takes an `UpdateOutcome` (reports success, reports
  failure, or throws);
- the login, register and profile handlers return the call they would make,
  or `None`.

`macAddresses` and the user's profile fields are `Option<string>`, where
`None` stands for `undefined` or `null`.

The email test is modelled at two levels:
- `TextRules.RegexTest` is the regex's own meaning: some substring of the
  input matches the whole pattern;
- `TextRules.HasEmailAnchors` is the characterisation: an `@` at some
  `i > 0` after a non-whitespace character, and a `.` at some `j > i + 1`,
  with no whitespace in between and a non-whitespace character after it.

A lemma proves the two agree. The validators run the scanner
`TextRules.MatchesEmail`, which is proved equal to `RegexTest`.

## Model

| member | source | states |
|---|---|---|
| TextRules.MatchesEmail | src/pages/Register.tsx:51 | the scanner answers true exactly when some substring of the input matches `\S+@\S+\.\S+` as a whole |
| TextRules.RegexTestIsAnchors | src/pages/Register.tsx:51 | the unanchored test succeeds iff there is an `@` at `i > 0` after a non-whitespace character, and a `.` at `j > i+1` with only non-whitespace between them and a non-whitespace character after it |
| TextRules.EmailExamples | src/pages/Register.tsx:51 | `a@b.c`, an address inside a sentence, and `a@@b..c` pass; `a@b`, `a @b.c`, `a@b c.d` and `@b.c` fail |
| TextRules.Utf16Length | src/pages/Register.tsx:61 | a password's JavaScript `length` is at least its number of code points and at most twice it, so it is zero only for the empty string; it equals the number of code points when none lies above U+FFFF, and twice it when all do |
| TextRules.Utf16LengthAppend | src/pages/Register.tsx:61 | the length of a concatenation is the sum of the lengths, so together with the one-character cases each code point up to U+FFFF counts one unit and each above it two |
| TextRules.DigitsOnly | src/pages/Register.tsx:56 | the stripped mobile number holds only digits, is no longer than the input, equals an all-digit input, and is empty for an input without digits |
| TextRules.DigitsOnlyAppend | src/pages/Register.tsx:56 | stripping non-digits from a concatenation gives the two stripped parts concatenated |
| TextRules.NonDigitInvisible | src/pages/Register.tsx:56 | inserting a non-digit anywhere leaves the stripped number unchanged |
| TextRules.IsWhitespace | src/pages/Register.tsx:51 | within ASCII, `\s` is exactly the space and the controls from tab to carriage return; `@`, `.` and the digits are never whitespace, so `\S` admits them |
| FieldRules.Keys | src/pages/Register.tsx:67 | each field is among the record's keys exactly when its error is set |
| FieldRules.Passes | src/pages/Register.tsx:67 | `Object.keys(errors).length === 0` holds exactly for the record with no error set |
| FieldRules.MobileDigitsPattern | src/pages/Register.tsx:56 | `^[0-9]{10,15}$` matches exactly the strings that are their own digit-only projection and have 10 to 15 characters |
| FieldRules.NameError | src/pages/Register.tsx:49 | an empty name yields exactly "Name is required"; a non-empty name yields no error |
| FieldRules.EmailError | src/pages/Register.tsx:50-51 | an empty email yields "Email is required"; a non-empty one yields "Email is invalid" iff the regex test fails, and no error iff it succeeds; the two messages never co-occur |
| FieldRules.AddressError | src/pages/Register.tsx:53 | an empty address yields "Address is required"; a non-empty one yields no error |
| FieldRules.MobileError | src/pages/Register.tsx:55-58 | an empty number yields the required message; a non-empty one is accepted iff its digit-only projection has 10 to 15 characters |
| FieldRules.MobileIgnoresNonDigits | src/pages/Register.tsx:55-58 | inserting a non-digit character into a non-empty number never changes its verdict |
| FieldRules.MobileWithoutDigitsRejected | src/pages/Register.tsx:55-58 | a non-empty number with no digit is rejected as invalid, not as missing |
| FieldRules.PasswordError | src/pages/Register.tsx:60-61 | empty gives "Password is required"; non-empty with fewer than 6 UTF-16 units gives the length message; 6 or more units gives no error |
| FieldRules.LongPasswordAccepted | src/pages/Register.tsx:60-61 | every password of at least six characters is accepted; there is no upper bound |
| FieldRules.ConfirmError | src/pages/Register.tsx:63-64 | an empty confirmation gives "Please confirm your password", never the mismatch; a non-empty one that differs gives "Passwords do not match"; an equal one gives none |
| RegisterPage.Validate | src/pages/Register.tsx:46-68 | each key is set exactly when its field fails its rule, and the form passes iff it is acceptable: name and address present, email matching, 10–15 digits, password of at least 6 units, and a confirmation equal to it |
| RegisterPage.MissingFieldBlocks | src/pages/Register.tsx:49-67 | a form missing any of the six required fields never passes |
| RegisterPage.DeviceId | src/pages/Register.tsx:81 | the device identifier is `macAddresses` when that is a non-empty string, and `'unknown'` otherwise; it is never empty |
| RegisterPage.HandleSubmit | src/pages/Register.tsx:70-86 | `register` is called iff the form is acceptable, with the five entered fields other than the confirmation, and the device identifier; the record shown is that of `validate` |
| LoginPage.Validate | src/pages/Login.tsx:19-30 | the record has only `email` and/or `password` keys; the email is rejected iff the regex test fails; the password is rejected iff it is shorter than 6 units; each "required" message appears exactly for an empty field |
| LoginPage.HandleSubmit | src/pages/Login.tsx:32-41 | `login` is called iff the record is empty, and then with exactly the entered email and password |
| PageAgreement.LoginMatchesRegister | src/pages/Login.tsx:21-26 | the login email and password messages equal the registration ones on the same strings |
| PageAgreement.ProfileMatchesRegister | src/pages/Profile.tsx:54-62 | on equal name, email, address and mobile number, the profile record is the registration record with its two password keys removed |
| PageAgreement.RegisteredProfileSaves | src/pages/Profile.tsx:51-67 | the profile fields of any form registration accepts also pass the profile validator |
| ProfilePage.OrEmpty | src/pages/Profile.tsx:38-41 | the falsy fallback to `''` is empty exactly when the value is absent or empty, and otherwise is that value |
| ProfilePage.Hydrate | src/pages/Profile.tsx:35-44 | with a user present, a non-empty form field is exactly the user's value for it, and an empty one means that value was absent or empty; without a user nothing changes; editing mode and errors are kept |
| ProfilePage.FieldNamed | src/pages/Profile.tsx:47-48 | the input names `name`, `email`, `address` and `mobileNumber` each select exactly their own form field, and no other name selects one |
| ProfilePage.HandleInputChange | src/pages/Profile.tsx:46-49 | the field whose input name is given takes the new value and every other field, editing mode and the errors are unchanged |
| ProfilePage.TypeInto | src/pages/Profile.tsx:164-249 | a keystroke into an input changes nothing outside editing mode, where the four inputs are `readOnly`; in editing mode the named field takes the new value and the rest stay; editing mode and errors are kept |
| ProfilePage.Validate | src/pages/Profile.tsx:51-67 | the record has only name, email, address and mobile keys, each set exactly when its rule fails; the form passes iff it is acceptable |
| ProfilePage.HandleSave | src/pages/Profile.tsx:78-96 | `updateProfile` is called iff the form passes, with the form's four fields; editing mode is left only after a reported success; a throw shows the failure toast |
| ProfilePage.HandleEditToggle | src/pages/Profile.tsx:69-76 | outside editing mode it only enters editing mode, without validating; in editing mode a valid form is saved, and an invalid one leaves editing mode with its errors shown and no call |
| ForgotPasswordWizard.InitialSettled | src/pages/ForgotPassword.tsx:13-19 | the wizard starts settled, on step 1, with no error, not loading and not navigated away |
| ForgotPasswordWizard.Begin | src/pages/ForgotPassword.tsx:22-23 | entering a handler sets loading and clears the error, and changes nothing else |
| ForgotPasswordWizard.HandleSendOtp | src/pages/ForgotPassword.tsx:21-37 | the entered email is posted whatever it is; success moves to step 2; failure keeps the step and shows "Email not found"; loading ends false |
| ForgotPasswordWizard.HandleVerifyOtp | src/pages/ForgotPassword.tsx:39-55 | email and OTP are posted as entered; success moves to step 3; failure keeps the step and shows "Invalid OTP"; loading ends false |
| ForgotPasswordWizard.HandleResetPassword | src/pages/ForgotPassword.tsx:57-73 | email and new password are posted as entered; success navigates to `/login`; failure keeps the step and shows "Password reset failed"; loading ends false |
| ForgotPasswordWizard.Enabled | src/pages/ForgotPassword.tsx:116-173 | while the page is shown, each step offers exactly its own input, and its own button only while nothing is loading; after navigating away nothing is offered |
| ForgotPasswordWizard.Dispatch | src/pages/ForgotPassword.tsx:116-173 | an event the current view does not offer changes nothing; a press keeps the entered text, ends not loading, and moves the step by one exactly on the successful send or verify; a failed press keeps the step and shows that step's failure message; a successful one clears the error and navigates exactly on reset; typing changes exactly the typed input's text and nothing else |
| ForgotPasswordWizard.DispatchStep | src/pages/ForgotPassword.tsx:21-73 | from a settled state every event leaves a settled state (not loading, error empty or the current step's own failure); the step rises by at most one, and only on a successful press of that step's button |
| ForgotPasswordWizard.RunMonotone | src/pages/ForgotPassword.tsx:21-73 | along any sequence of events the state stays settled and the step never decreases |
| ForgotPasswordWizard.Trace | src/pages/ForgotPassword.tsx:21-73 | the states of a run are the start followed by the state after each event, each obtained from the one before by that event, ending in the run's result |
| ForgotPasswordWizard.RunNeverSkips | src/pages/ForgotPassword.tsx:32-50 | every state a run passes through is settled, and consecutive states differ by at most one step, never going back |

## Left out

- Index.tsx, CreateTransactions.tsx and TransactionHistory.tsx. They are scroll animations, a user-list fetch with a confirmation modal that only shows a toast, and a transaction-list fetch. None holds client-side logic beyond rendering.
- The network, the `useAuth` hook and its `login`, `register` and `updateProfile`, local storage, toasts, routing and animations. `useAuth` is not part of this model. Each call is an output value and each response an input value.
- The `isLoading` flag that `useAuth` supplies. It disables the submit buttons of Register and Login and the Profile toggle. It lives inside the hook, so those buttons are modelled as always enabled.
- The caught exceptions of `register` and `login`. They are only logged to the console, and the pages do not otherwise observe them.
- The Profile page's loader, shown while no user is signed in. It is rendering only.
- Asynchrony. Each wizard handler is one transition that exposes its in-flight state (`Transition.inFlight`), so no two handlers can interleave. This matches the buttons being disabled while loading. The late `setIsLoading(false)` after navigating away is recorded in the state, as the code runs it. The inputs are not disabled while loading, so in the page a keystroke can land while a request is in flight; the model does not interleave typing with a request. The request still carries the text captured at the press, and the keystroke's text stays in the field and is what a later request posts. `SameInput` states the atomic view, in which the settled state keeps the text of the press.
- The regex engine's code units. Without the `u` flag, JavaScript matches `\S` against UTF-16 code units, while the model matches code points. A code point above U+FFFF is two non-whitespace units, and neither unit is `@` or `.`, so the verdict is the same. Lone surrogates cannot occur in a Dafny `string`.
- ProfilePage.HandleInputChange: an input name other than the four fields adds an unrelated key to `formData` in JavaScript. The model drops that key and only states that the four fields are unchanged.
- RegisterPage.HandleSubmit / LoginPage.HandleSubmit: the model starts once the submit event fires. Both pages put their fields in a form element (`motion.form` on Register, `form` on Login) without `noValidate`, and the email input has `type="email"` (src/pages/Register.tsx:111 and 149, src/pages/Login.tsx:71 and 82). The browser's own constraint validation therefore cancels the submission of a non-empty value that is not a valid HTML e-mail address before `handleSubmit` runs, and that check is not modelled. Strings such as `write to a@b.c today` or `a@@b..c` never reach these handlers.
- ProfilePage.HandleSave: the save is modelled as one transition. In the page, editing mode stays on while `updateProfile` is awaited (src/pages/Profile.tsx:82-90), and only the toggle is disabled by loading (line 268), so the inputs still take keystrokes during the save. Such a keystroke stays in the form while the call sends the earlier text, and a reported success then leaves editing mode showing text that was not saved. The model does not interleave typing with the awaited call, so after a save its form is always the one sent.
- The email pattern is unanchored, so any string containing the shape matches, e.g. `write to a@b.c today`. On the Profile page, whose toggle is an `onClick` button outside any form, such a string reaches `validate` and passes.
