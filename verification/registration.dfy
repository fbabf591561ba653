/** Account creation (src/components/Register.js) and the hotel-id prompt
    (src/components/HotelIdModal.js). Both send the hotel id in the
    normalised form the login form sends. The server's answer is a
    parameter. */
module Registration {
  import opened Js
  import opened Text
  import opened Maybe
  import opened HotelSettings
  import Login

  const BlankIdMessage: string := "호텔 ID를 입력해주세요."
  const RegisterFailedMessage: string := "회원가입 중 오류가 발생했습니다."

  /** The hotel-id prompt's `handleSubmit`: a blank id is refused with a
      message; any other id clears the message and is submitted
      normalised. Returns the new error text and what `onSubmit` got. */
  function SubmitHotelId(input: string): (r: (string, Option<string>))
    ensures r.1.None? <==> forall i :: 0 <= i < |input| ==> IsSpace(input[i])
    ensures r.1.None? ==> r.0 == BlankIdMessage
    ensures r.1.Some? ==> r.0 == "" && r.1.value == NormalizeHotelId(input) && r.1.value != ""
  {
    TrimEmptyIffBlank(input);
    if Trim(input) == "" then (BlankIdMessage, None)
    else ("", Some(NormalizeHotelId(input)))
  }

  /** Typing back the id the prompt submitted submits it again unchanged. */
  lemma SubmitHotelIdStable(input: string)
    requires SubmitHotelId(input).1.Some?
    ensures SubmitHotelId(SubmitHotelId(input).1.value) == SubmitHotelId(input)
  {
    NormalizeHotelIdIdempotent(input);
  }

  /** The body of the `registerUser` call. */
  datatype UserData = UserData(hotelId: string, password: string, email: string, address: string, phoneNumber: string)

  /** What `registerUser` did; a failure carries the server's message,
      `""` when it sent none. */
  datatype RegisterOutcome = Registered | RegisterFailed(serverMessage: string)

  /** `handleRegister`: the id is normalised, the password sent as typed
      and the contact fields trimmed. On success `onRegisterSuccess` runs
      (the result's flag) and the error shown before, `error`, stays; on
      failure the server's message, or a fixed one, becomes the error. */
  function Register(hotelId: string, password: string, email: string, address: string, phoneNumber: string,
                    error: string, outcome: RegisterOutcome): (r: (UserData, bool, string))
    ensures r.0.hotelId == NormalizeHotelId(hotelId) && r.0.password == password
    ensures r.0.email == Trim(email) && r.0.address == Trim(address) && r.0.phoneNumber == Trim(phoneNumber)
    ensures r.1 <==> outcome.Registered?
    ensures outcome.Registered? ==> r.2 == error
    ensures outcome.RegisterFailed? && outcome.serverMessage != "" ==> r.2 == outcome.serverMessage
    ensures outcome.RegisterFailed? && outcome.serverMessage == "" ==> r.2 == RegisterFailedMessage
  {
    var data := UserData(NormalizeHotelId(hotelId), password, Trim(email), Trim(address), Trim(phoneNumber));
    match outcome
    case Registered => (data, true, error)
    case RegisterFailed(m) => (data, false, OrText(m, RegisterFailedMessage))
  }

  /** The id an account is registered under is the id the login form
      sends, whether the user types it as at registration or as it was
      stored. */
  lemma RegisteredIdIsLoginId(hotelId: string, password: string, email: string, address: string, phoneNumber: string,
                              error: string, outcome: RegisterOutcome, s: Login.State, loginOutcome: Login.Outcome)
    requires s.attempts < Login.MaxLoginAttempts
    ensures var stored := Register(hotelId, password, email, address, phoneNumber, error, outcome).0.hotelId;
            && Login.Submit(s, hotelId, password, loginOutcome).request.hotelId == stored
            && Login.Submit(s, stored, password, loginOutcome).request.hotelId == stored
  {
    NormalizeHotelIdIdempotent(hotelId);
  }
}
