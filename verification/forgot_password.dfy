/** The forgot-password wizard: three steps (email, OTP, new password), an
    error line and a loading flag. Each button handler clears the error and
    sets the flag, sends one request, then moves forward on success or sets
    its own error on failure, and finally clears the flag. Whether the
    server accepted a request is an input (`ok`); the request itself is an
    output. No handler checks the entered text before sending it. */
module ForgotPasswordWizard {
  import opened Wrappers

  datatype Step = EmailStep | OtpStep | ResetStep {
    /** The page's `step` number. */
    function Number(): int {
      match this
      case EmailStep => 1
      case OtpStep => 2
      case ResetStep => 3
    }
  }

  const EmailNotFound := "Email not found"
  const InvalidOtp := "Invalid OTP"
  const ResetFailed := "Password reset failed"
  const LoginRoute := "/login"

  datatype Wizard = Wizard(
    email: string,
    otp: string,
    newPassword: string,
    step: Step,
    isLoading: bool,
    error: string,
    navigatedTo: Option<string>)

  const Initial := Wizard("", "", "", EmailStep, false, "", None)

  /** The request bodies posted to forgot-password, verify-otp and reset-password. */
  datatype Request =
    | ForgotPasswordRequest(email: string)
    | VerifyOtpRequest(email: string, otp: string)
    | ResetPasswordRequest(email: string, newPassword: string)

  /** One handler run: the state while the request is in flight, the request
      sent, and the state once it has settled. */
  datatype Transition = Transition(inFlight: Wizard, request: Request, settled: Wizard)

  /** Entry to every handler: loading on, error cleared. */
  function Begin(w: Wizard): (b: Wizard)
    ensures b.isLoading && b.error == ""
    ensures b.(isLoading := w.isLoading, error := w.error) == w
  {
    w.(isLoading := true, error := "")
  }

  /** Fields a handler never touches. */
  predicate SameInput(w: Wizard, w': Wizard) {
    w'.email == w.email && w'.otp == w.otp && w'.newPassword == w.newPassword
  }

  function HandleSendOtp(w: Wizard, ok: bool): (t: Transition)
    ensures t.inFlight == Begin(w)
    ensures t.request == ForgotPasswordRequest(w.email)
    ensures SameInput(w, t.settled) && !t.settled.isLoading && t.settled.navigatedTo == w.navigatedTo
    ensures ok ==> t.settled.step == OtpStep && t.settled.error == ""
    ensures !ok ==> t.settled.step == w.step && t.settled.error == EmailNotFound
  {
    var busy := Begin(w);
    var done := if ok then busy.(step := OtpStep) else busy.(error := EmailNotFound);
    Transition(busy, ForgotPasswordRequest(w.email), done.(isLoading := false))
  }

  function HandleVerifyOtp(w: Wizard, ok: bool): (t: Transition)
    ensures t.inFlight == Begin(w)
    ensures t.request == VerifyOtpRequest(w.email, w.otp)
    ensures SameInput(w, t.settled) && !t.settled.isLoading && t.settled.navigatedTo == w.navigatedTo
    ensures ok ==> t.settled.step == ResetStep && t.settled.error == ""
    ensures !ok ==> t.settled.step == w.step && t.settled.error == InvalidOtp
  {
    var busy := Begin(w);
    var done := if ok then busy.(step := ResetStep) else busy.(error := InvalidOtp);
    Transition(busy, VerifyOtpRequest(w.email, w.otp), done.(isLoading := false))
  }

  function HandleResetPassword(w: Wizard, ok: bool): (t: Transition)
    ensures t.inFlight == Begin(w)
    ensures t.request == ResetPasswordRequest(w.email, w.newPassword)
    ensures SameInput(w, t.settled) && !t.settled.isLoading && t.settled.step == w.step
    ensures ok ==> t.settled.navigatedTo == Some(LoginRoute) && t.settled.error == ""
    ensures !ok ==> t.settled.navigatedTo == w.navigatedTo && t.settled.error == ResetFailed
  {
    var busy := Begin(w);
    var done := if ok then busy.(navigatedTo := Some(LoginRoute)) else busy.(error := ResetFailed);
    Transition(busy, ResetPasswordRequest(w.email, w.newPassword), done.(isLoading := false))
  }

  datatype Action = SendOtp | VerifyOtp | ResetPassword
  datatype Input = EmailInput | OtpInput | NewPasswordInput

  /** A user event: a button press with the server's verdict, or typing into an input. */
  datatype Event = Press(action: Action, ok: bool) | Type(input: Input, value: string)

  /** The step whose view renders the control for the event. */
  function RenderedAt(ev: Event): Step {
    match ev
    case Press(SendOtp, _) => EmailStep
    case Press(VerifyOtp, _) => OtpStep
    case Press(ResetPassword, _) => ResetStep
    case Type(EmailInput, _) => EmailStep
    case Type(OtpInput, _) => OtpStep
    case Type(NewPasswordInput, _) => ResetStep
  }

  /** The button each step's view renders. */
  function ButtonOn(s: Step): Action {
    match s
    case EmailStep => SendOtp
    case OtpStep => VerifyOtp
    case ResetStep => ResetPassword
  }

  /** The input each step's view renders. */
  function InputOn(s: Step): Input {
    match s
    case EmailStep => EmailInput
    case OtpStep => OtpInput
    case ResetStep => NewPasswordInput
  }

  /** The text held by one input. */
  function InputValue(w: Wizard, i: Input): string {
    match i
    case EmailInput => w.email
    case OtpInput => w.otp
    case NewPasswordInput => w.newPassword
  }

  /** An event can happen when the page is still shown, its control is
      rendered, and (for a button) it is not disabled by loading. Read from
      the views' side: each step offers exactly its own button and its own
      input, and the buttons only while nothing is loading. */
  predicate Enabled(w: Wizard, ev: Event)
    ensures Enabled(w, ev) <==>
      && w.navigatedTo == None
      && (ev.Press? ==> !w.isLoading && ev.action == ButtonOn(w.step))
      && (ev.Type? ==> ev.input == InputOn(w.step))
  {
    && w.navigatedTo == None
    && w.step == RenderedAt(ev)
    && (ev.Press? ==> !w.isLoading)
  }

  /** One user event: a handler run to completion for an enabled button, the
      input's `onChange` for an enabled input, and nothing otherwise. */
  function Dispatch(w: Wizard, ev: Event): (w': Wizard)
    ensures !Enabled(w, ev) ==> w' == w
    ensures Enabled(w, ev) && ev.Press? ==>
      && !w'.isLoading && SameInput(w, w')
      && w'.step.Number() - w.step.Number() == (if ev.ok && ev.action != ResetPassword then 1 else 0)
    ensures Enabled(w, ev) && ev.Press? && !ev.ok ==>
      w'.step == w.step && w'.error == FailureOf(w.step) && w'.navigatedTo == None
    ensures Enabled(w, ev) && ev.Press? && ev.ok ==>
      && w'.error == ""
      && (w'.navigatedTo.Some? <==> ev.action == ResetPassword)
      && (w'.navigatedTo.Some? ==> w'.navigatedTo == Some(LoginRoute))
    ensures Enabled(w, ev) && ev.Type? ==>
      && w'.step == w.step && w'.error == w.error
      && w'.isLoading == w.isLoading && w'.navigatedTo == w.navigatedTo
      && forall i :: InputValue(w', i) == (if i == ev.input then ev.value else InputValue(w, i))
  {
    if !Enabled(w, ev) then w
    else match ev
      case Press(SendOtp, ok) => HandleSendOtp(w, ok).settled
      case Press(VerifyOtp, ok) => HandleVerifyOtp(w, ok).settled
      case Press(ResetPassword, ok) => HandleResetPassword(w, ok).settled
      case Type(EmailInput, v) => w.(email := v)
      case Type(OtpInput, v) => w.(otp := v)
      case Type(NewPasswordInput, v) => w.(newPassword := v)
  }

  function Run(w: Wizard, evs: seq<Event>): Wizard
    decreases |evs|
  {
    if evs == [] then w else Run(Dispatch(w, evs[0]), evs[1..])
  }

  /** The error a failed request leaves on each step. */
  function FailureOf(s: Step): string {
    match s
    case EmailStep => EmailNotFound
    case OtpStep => InvalidOtp
    case ResetStep => ResetFailed
  }

  /** What holds between events: nothing is in flight, the error is empty
      or the failure of the current step's own request, and the page has
      only navigated away after a successful reset. */
  predicate Settled(w: Wizard) {
    && !w.isLoading
    && (w.error == "" || w.error == FailureOf(w.step))
    && (w.navigatedTo.Some? ==> w.navigatedTo == Some(LoginRoute) && w.step == ResetStep && w.error == "")
  }

  lemma InitialSettled()
    ensures Settled(Initial) && Initial.step.Number() == 1
    ensures Initial.error == "" && !Initial.isLoading && Initial.navigatedTo == None
  {
  }

  /** One event keeps the state settled and moves the step forward by at
      most one, and only through a successful press of the button the
      current step renders. */
  lemma DispatchStep(w: Wizard, ev: Event)
    requires Settled(w)
    ensures Settled(Dispatch(w, ev))
    ensures w.step.Number() <= Dispatch(w, ev).step.Number() <= w.step.Number() + 1
    ensures Dispatch(w, ev).step != w.step ==> ev.Press? && ev.ok && RenderedAt(ev) == w.step
  {
  }

  /** Along any sequence of events from a settled state, the state stays
      settled and the step never decreases. */
  lemma {:induction false} RunMonotone(w: Wizard, evs: seq<Event>)
    requires Settled(w)
    ensures Settled(Run(w, evs))
    ensures w.step.Number() <= Run(w, evs).step.Number()
    decreases |evs|
  {
    if evs != [] {
      DispatchStep(w, evs[0]);
      RunMonotone(Dispatch(w, evs[0]), evs[1..]);
    }
  }

  /** The states a run passes through: the start, then the state after each
      event in turn. */
  function Trace(w: Wizard, evs: seq<Event>): (t: seq<Wizard>)
    ensures |t| == |evs| + 1 && t[0] == w && t[|evs|] == Run(w, evs)
    ensures forall i :: 0 <= i < |evs| ==> t[i + 1] == Dispatch(t[i], evs[i])
    decreases |evs|
  {
    if evs == [] then [w]
    else
      [w] + Trace(Dispatch(w, evs[0]), evs[1..])
  }

  /** Every state a run from a settled state passes through is settled, and
      consecutive states differ by at most one step, never going back. */
  lemma {:induction false} RunNeverSkips(w: Wizard, evs: seq<Event>)
    requires Settled(w)
    ensures forall i :: 0 <= i <= |evs| ==> Settled(Trace(w, evs)[i])
    ensures forall i :: 0 <= i < |evs| ==>
      Trace(w, evs)[i].step.Number() <= Trace(w, evs)[i + 1].step.Number() <= Trace(w, evs)[i].step.Number() + 1
    decreases |evs|
  {
    if evs != [] {
      var t := Trace(w, evs);
      var w1 := Dispatch(w, evs[0]);
      DispatchStep(w, evs[0]);
      RunNeverSkips(w1, evs[1..]);
      var rest := Trace(w1, evs[1..]);
      assert t == [w] + rest;
      forall i | 1 <= i <= |evs|
        ensures Settled(t[i])
      {
        assert t[i] == rest[i - 1];
      }
      forall i | 1 <= i < |evs|
        ensures t[i].step.Number() <= t[i + 1].step.Number() <= t[i].step.Number() + 1
      {
        assert t[i] == rest[i - 1] && t[i + 1] == rest[i];
      }
    }
  }
}
