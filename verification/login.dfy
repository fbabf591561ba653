/** The login form (src/components/Login.js): the request it sends, and
    how the outcome moves the failed-attempt counter, the lockout and the
    messages. The server's answer is a parameter. */
module Login {
  import opened Js
  import opened Maybe
  import opened HotelSettings

  const MaxLoginAttempts: nat := 5

  const InvalidCredentialsMessage: string := "로그인 실패: 유효하지 않은 자격 증명 또는 호텔 ID."
  const LoginErrorMessage: string := "로그인 중 오류가 발생했습니다. 나중에 다시 시도해주세요."
  const SettingsErrorMessage: string := "호텔 설정을 불러오는 중 오류가 발생했습니다."
  const RemainingPrefix: string := "남은 시도 횟수: "

  /** The component state the submit handler touches. */
  datatype State = State(
    attempts: nat,
    error: string,
    passwordError: string,
    showForgotPassword: bool,
    formDisabled: bool,
    showHotelSettings: bool,
    isLoading: bool)

  const Initial: State := State(0, "", "", false, false, false, false)

  /** What fetching the hotel settings after a login did. */
  datatype SettingsOutcome = SettingsLoaded | SettingsFailed(status: int)

  /** What `loginUser` did: a token, or an error with its HTTP status and
      message (`""` when it has none). */
  datatype Outcome = LoggedIn(token: string, settings: SettingsOutcome) | Failed(status: int, message: string)

  /** The credentials sent to `loginUser`. */
  datatype Request = Request(hotelId: string, password: string)

  /** The result of one submit: the new state, the request sent, and the
      token and id handed to `onLogin` on success. */
  datatype Step = Step(state: State, request: Request, loggedIn: Option<(string, string)>)

  /** The success branch: the counter and messages are cleared, then a
      missing hotel (404) opens the settings dialog and any other settings
      error is reported. */
  function AfterLogin(s: State, settings: SettingsOutcome): (r: State)
    ensures r.attempts == 0 && r.passwordError == ""
    ensures r.showHotelSettings <==> s.showHotelSettings || settings == SettingsFailed(404)
    ensures r.error == "" <==> !settings.SettingsFailed? || settings.status == 404
    ensures r.formDisabled == s.formDisabled && r.showForgotPassword == s.showForgotPassword
  {
    var cleared := s.(attempts := 0, error := "", passwordError := "");
    match settings
    case SettingsLoaded => cleared
    case SettingsFailed(status) =>
      if status == 404 then cleared.(showHotelSettings := true)
      else cleared.(error := SettingsErrorMessage)
  }

  /** The failure branch. A 401 counts an attempt: the fifth resets the
      counter, disables the form and opens password recovery, an earlier
      one shows how many attempts remain. Any other error only shows its
      message. */
  function AfterFailure(s: State, status: int, message: string): (r: State)
    requires s.attempts < MaxLoginAttempts
    ensures r.attempts < MaxLoginAttempts
    ensures status == 401 && s.attempts + 1 >= MaxLoginAttempts ==>
              r.attempts == 0 && r.formDisabled && r.showForgotPassword
    ensures status == 401 && s.attempts + 1 < MaxLoginAttempts ==>
              && r.attempts == s.attempts + 1
              && r.error == OrText(message, InvalidCredentialsMessage)
              && r.passwordError == RemainingPrefix + NumToString(Int(MaxLoginAttempts - r.attempts))
              && r.formDisabled == s.formDisabled && r.showForgotPassword == s.showForgotPassword
    ensures status != 401 ==>
              r == s.(error := OrText(message, LoginErrorMessage))
  {
    if status == 401 then
      var next := s.attempts + 1;
      if next >= MaxLoginAttempts then
        s.(showForgotPassword := true, formDisabled := true, attempts := 0)
      else
        s.(attempts := next, error := OrText(message, InvalidCredentialsMessage),
           passwordError := RemainingPrefix + NumToString(Int(MaxLoginAttempts - next)))
    else s.(error := OrText(message, LoginErrorMessage))
  }

  /** `handleSubmit` with the server's answer `outcome`: the request
      carries the normalised id and the password as typed; `onLogin` gets
      the token and that id only on success; loading ends on every path. */
  function Submit(s: State, hotelId: string, password: string, outcome: Outcome): (r: Step)
    requires s.attempts < MaxLoginAttempts
    ensures r.request == Request(NormalizeHotelId(hotelId), password)
    ensures !r.state.isLoading
    ensures r.loggedIn.Some? <==> outcome.LoggedIn?
    ensures outcome.LoggedIn? ==> r.loggedIn == Some((outcome.token, NormalizeHotelId(hotelId)))
    ensures s.formDisabled ==> r.state.formDisabled
    ensures s.showForgotPassword ==> r.state.showForgotPassword
    ensures r.state.attempts < MaxLoginAttempts
  {
    var id := NormalizeHotelId(hotelId);
    var started := s.(isLoading := true, error := "", passwordError := "");
    var done := match outcome
      case LoggedIn(_, settings) => AfterLogin(started, settings)
      case Failed(status, message) => AfterFailure(started, status, message);
    Step(done.(isLoading := false), Request(id, password),
         if outcome.LoggedIn? then Some((outcome.token, id)) else None)
  }

  /** What one submit does to the counter, in terms of the outcome. */
  lemma SubmitCounts(s: State, hotelId: string, password: string, outcome: Outcome)
    requires s.attempts < MaxLoginAttempts
    ensures var r := Submit(s, hotelId, password, outcome).state;
            && (outcome.LoggedIn? ==> r.attempts == 0)
            && (outcome.Failed? && outcome.status == 401 && s.attempts + 1 < MaxLoginAttempts ==>
                  r.attempts == s.attempts + 1
                  && r.passwordError == RemainingPrefix + NumToString(Int(MaxLoginAttempts - r.attempts)))
            && (outcome.Failed? && outcome.status == 401 && s.attempts + 1 >= MaxLoginAttempts ==>
                  r.attempts == 0 && r.formDisabled && r.showForgotPassword)
            && (outcome.Failed? && outcome.status != 401 ==>
                  r.attempts == s.attempts && r.error == OrText(outcome.message, LoginErrorMessage))
  {
  }

  /** A run of submits, one per outcome, with the same credentials. */
  function Run(s: State, hotelId: string, password: string, outcomes: seq<Outcome>): (r: State)
    requires s.attempts < MaxLoginAttempts
    ensures r.attempts < MaxLoginAttempts
    decreases |outcomes|
  {
    if |outcomes| == 0 then s
    else Run(Submit(s, hotelId, password, outcomes[0]).state, hotelId, password, outcomes[1..])
  }

  /** Once the form is disabled it stays disabled: nothing in the handler
      sets the flag back. */
  lemma {:induction false} DisabledStaysDisabled(s: State, hotelId: string, password: string, outcomes: seq<Outcome>)
    requires s.attempts < MaxLoginAttempts && s.formDisabled
    ensures Run(s, hotelId, password, outcomes).formDisabled
    decreases |outcomes|
  {
    if |outcomes| > 0 {
      DisabledStaysDisabled(Submit(s, hotelId, password, outcomes[0]).state, hotelId, password, outcomes[1..]);
    }
  }

  /** Rejected logins in a row each add one to the counter while it stays
      below the limit. */
  lemma {:induction false} RejectionsCount(s: State, hotelId: string, password: string, outcomes: seq<Outcome>)
    requires s.attempts + |outcomes| < MaxLoginAttempts
    requires forall i :: 0 <= i < |outcomes| ==> outcomes[i].Failed? && outcomes[i].status == 401
    ensures Run(s, hotelId, password, outcomes).attempts == s.attempts + |outcomes|
    decreases |outcomes|
  {
    if |outcomes| > 0 {
      SubmitCounts(s, hotelId, password, outcomes[0]);
      RejectionsCount(Submit(s, hotelId, password, outcomes[0]).state, hotelId, password, outcomes[1..]);
    }
  }

  /** Rejected logins in a row that reach the limit lock the form and open
      the password-recovery dialog, with the counter back at 0. */
  lemma {:induction false} RejectionsLock(s: State, hotelId: string, password: string, outcomes: seq<Outcome>)
    requires s.attempts < MaxLoginAttempts && s.attempts + |outcomes| == MaxLoginAttempts
    requires forall i :: 0 <= i < |outcomes| ==> outcomes[i].Failed? && outcomes[i].status == 401
    ensures var r := Run(s, hotelId, password, outcomes);
            r.formDisabled && r.showForgotPassword && r.attempts == 0
    decreases |outcomes|
  {
    var next := Submit(s, hotelId, password, outcomes[0]).state;
    SubmitCounts(s, hotelId, password, outcomes[0]);
    if |outcomes| > 1 {
      RejectionsLock(next, hotelId, password, outcomes[1..]);
    }
  }

  /** Five rejected logins from the start lock the form and open the
      password-recovery dialog, with the counter back at 0. */
  lemma FiveRejectionsLock(hotelId: string, password: string, outcomes: seq<Outcome>)
    requires |outcomes| == MaxLoginAttempts
    requires forall i :: 0 <= i < |outcomes| ==> outcomes[i].Failed? && outcomes[i].status == 401
    ensures var r := Run(Initial, hotelId, password, outcomes);
            r.formDisabled && r.showForgotPassword && r.attempts == 0
  {
    RejectionsLock(Initial, hotelId, password, outcomes);
  }

  /** A run of one outcome is one submit. */
  lemma RunOne(s: State, hotelId: string, password: string, outcome: Outcome)
    requires s.attempts < MaxLoginAttempts
    ensures Run(s, hotelId, password, [outcome]) == Submit(s, hotelId, password, outcome).state
  {
    assert [outcome][1..] == [];
  }

  /** Running two runs one after the other is running their
      concatenation. */
  lemma {:induction false} RunSplit(s: State, hotelId: string, password: string, a: seq<Outcome>, b: seq<Outcome>)
    requires s.attempts < MaxLoginAttempts
    ensures Run(s, hotelId, password, a + b) == Run(Run(s, hotelId, password, a), hotelId, password, b)
    decreases |a|
  {
    if |a| > 0 {
      assert (a + b)[1..] == a[1..] + b;
      RunSplit(Submit(s, hotelId, password, a[0]).state, hotelId, password, a[1..], b);
    } else {
      assert a + b == b;
    }
  }
}
