/** Password recovery: the new-password form
    (src/render/components/ResetPassword.js) and the reset-request form
    (src/components/ForgotPassword.js). Each form's regular expression is
    stated as a predicate saying what it accepts, and matched by a
    one-pass scan proved equal to it. The server's answer is a parameter. */
module PasswordReset {
  import opened Js
  import opened Text
  import opened Maybe

  const MismatchMessage: string := "비밀번호가 일치하지 않습니다."
  const WeakPasswordMessage: string := "비밀번호는 최소 8자 이상이며, 숫자와 특수 문자를 포함해야 합니다."
  const ResetDoneMessage: string := "비밀번호가 성공적으로 재설정되었습니다."
  const InvalidEmailMessage: string := "유효한 이메일 형식을 입력하세요."
  const RequestSentMessage: string := "비밀번호 재설정 이메일이 전송되었습니다."
  const RequestFailedMessage: string := "비밀번호 재설정 요청에 실패했습니다."

  const MinPasswordLength: nat := 8

  predicate IsLetter(c: char)
  {
    'A' <= c <= 'Z' || 'a' <= c <= 'z'
  }

  /** The special characters `@$!%*#?&`. */
  predicate IsSpecial(c: char)
  {
    c == '@' || c == '$' || c == '!' || c == '%' || c == '*' || c == '#' || c == '?' || c == '&'
  }

  /** `[A-Za-z\d@$!%*#?&]`. */
  predicate Allowed(c: char)
  {
    IsLetter(c) || IsDigit(c) || IsSpecial(c)
  }

  /** What `/^(?=.*[A-Za-z])(?=.*\d)(?=.*[@$!%*#?&])[A-Za-z\d@$!%*#?&]{8,}$/`
      accepts: at least eight allowed characters, among them a letter, a
      digit and a special character. */
  predicate StrongPassword(p: string)
  {
    && |p| >= MinPasswordLength
    && (forall k :: 0 <= k < |p| ==> Allowed(p[k]))
    && (exists k :: 0 <= k < |p| && IsLetter(p[k]))
    && (exists k :: 0 <= k < |p| && IsDigit(p[k]))
    && (exists k :: 0 <= k < |p| && IsSpecial(p[k]))
  }

  /** `passwordRegex.test(p)`, in one pass. */
  method TestPassword(p: string) returns (ok: bool)
    ensures ok <==> StrongPassword(p)
  {
    var letter, digit, special, allowed := false, false, false, true;
    var i := 0;
    while i < |p|
      invariant 0 <= i <= |p|
      invariant letter <==> exists k :: 0 <= k < i && IsLetter(p[k])
      invariant digit <==> exists k :: 0 <= k < i && IsDigit(p[k])
      invariant special <==> exists k :: 0 <= k < i && IsSpecial(p[k])
      invariant allowed <==> forall k :: 0 <= k < i ==> Allowed(p[k])
    {
      var c := p[i];
      letter := letter || IsLetter(c);
      digit := digit || IsDigit(c);
      special := special || IsSpecial(c);
      allowed := allowed && Allowed(c);
      i := i + 1;
    }
    ok := |p| >= MinPasswordLength && allowed && letter && digit && special;
  }

  /** `[^\s@]+`: a non-empty run without whitespace or `@`. */
  predicate EmailPart(t: string)
  {
    |t| > 0 && forall k :: 0 <= k < |t| ==> !IsSpace(t[k]) && t[k] != '@'
  }

  /** `/^[^\s@]+@[^\s@]+\.[^\s@]+$/` with the `@` at `a` and the dot at
      `j`. */
  predicate EmailSplit(s: string, a: int, j: int)
  {
    && 0 < a && a + 1 < j && j + 1 < |s|
    && s[a] == '@' && s[j] == '.'
    && EmailPart(s[..a]) && EmailPart(s[a + 1..j]) && EmailPart(s[j + 1..])
  }

  predicate EmailShape(s: string)
  {
    exists a, j :: 0 < a < j < |s| && EmailSplit(s, a, j)
  }

  /** `emailRegex.test(s)`, in one pass: no whitespace, exactly one `@`
      with something before it, and a dot at least two places after the
      `@` with something after the dot. */
  method TestEmail(s: string) returns (ok: bool)
    ensures ok <==> EmailShape(s)
  {
    var clean, twoAts := true, false;
    var at, dot := -1, -1;
    var i := 0;
    while i < |s|
      invariant 0 <= i <= |s|
      invariant clean <==> forall k :: 0 <= k < i ==> !IsSpace(s[k])
      invariant at == -1 ==> forall k :: 0 <= k < i ==> s[k] != '@'
      invariant at != -1 ==> 0 <= at < i && s[at] == '@' && forall k :: 0 <= k < at ==> s[k] != '@'
      invariant twoAts <==> at != -1 && exists k :: at < k < i && s[k] == '@'
      invariant dot == -1 && at != -1 ==> forall k :: at + 2 <= k < i ==> s[k] != '.'
      invariant dot != -1 ==> at != -1 && at + 2 <= dot < i && s[dot] == '.'
      invariant dot != -1 ==> forall k :: at + 2 <= k < dot ==> s[k] != '.'
    {
      var c := s[i];
      if IsSpace(c) {
        clean := false;
      }
      if c == '@' {
        if at == -1 {
          at := i;
        } else {
          twoAts := true;
        }
      } else if c == '.' && at != -1 && i >= at + 2 && dot == -1 {
        dot := i;
      }
      i := i + 1;
    }
    ok := clean && at >= 1 && !twoAts && dot != -1 && dot + 2 <= |s|;
    if ok {
      var user, host, top := s[..at], s[at + 1..dot], s[dot + 1..];
      assert forall k :: 0 <= k < |user| ==> user[k] == s[k];
      assert forall k :: 0 <= k < |host| ==> host[k] == s[at + 1 + k];
      assert forall k :: 0 <= k < |top| ==> top[k] == s[dot + 1 + k];
      assert EmailSplit(s, at, dot);
    }
    if EmailShape(s) {
      var a, j :| 0 < a < j < |s| && EmailSplit(s, a, j);
      EmailSplitFacts(s, a, j);
      assert at == a;
      assert dot != -1 && dot <= j;
    }
  }

  /** What a split says about each character of the address. */
  lemma EmailSplitFacts(s: string, a: int, j: int)
    requires EmailSplit(s, a, j)
    ensures forall k :: 0 <= k < |s| ==> !IsSpace(s[k])
    ensures forall k :: 0 <= k < |s| && s[k] == '@' ==> k == a
  {
    forall k | 0 <= k < |s|
      ensures !IsSpace(s[k]) && (s[k] == '@' ==> k == a)
    {
      if k < a {
        assert s[..a][k] == s[k];
      } else if a < k < j {
        assert s[a + 1..j][k - a - 1] == s[k];
      } else if j < k {
        assert s[j + 1..][k - j - 1] == s[k];
      }
    }
  }

  /** The state of the reset form. */
  datatype ResetState = ResetState(message: string, error: string, isSubmitting: bool)

  /** What `resetPassword` did. */
  datatype ResetOutcome = ResetDone | ResetFailed(message: string)

  /** `handleReset`: a mismatch or a weak password is reported and no
      request is made; otherwise the token and new password are sent, and
      the outcome sets the message or the error. Submitting ends on every
      path. */
  function HandleReset(s: ResetState, token: string, newPassword: string, confirmation: string,
                       outcome: ResetOutcome): (r: (ResetState, Option<(string, string)>))
    ensures newPassword != confirmation ==> r == (s.(error := MismatchMessage, message := ""), None)
    ensures r.1.Some? <==> newPassword == confirmation && StrongPassword(newPassword)
    ensures r.1.Some? ==> r.1.value == (token, newPassword) && !r.0.isSubmitting
    ensures r.1.Some? && outcome.ResetDone? ==> r.0.message == ResetDoneMessage && r.0.error == ""
    ensures r.1.Some? && outcome.ResetFailed? ==> r.0.error == outcome.message && r.0.message == ""
    ensures r.1.None? && newPassword == confirmation ==> r.0 == s.(error := WeakPasswordMessage, message := "")
  {
    if newPassword != confirmation then (s.(error := MismatchMessage, message := ""), None)
    else if !StrongPassword(newPassword) then (s.(error := WeakPasswordMessage, message := ""), None)
    else
      var done := match outcome
        case ResetDone => s.(message := ResetDoneMessage, error := "")
        case ResetFailed(m) => s.(error := m, message := "");
      (done.(isSubmitting := false), Some((token, newPassword)))
  }

  /** The state of the reset-request form. */
  datatype RequestState = RequestState(message: string, error: string, isSubmitting: bool)

  /** What `resetPasswordRequest` did; a failure carries the server's
      message, `""` when it sent none. */
  datatype RequestOutcome = RequestSent | RequestFailed(serverMessage: string)

  /** `handleRequest`: the trimmed address must have the shape of an
      e-mail address, but the address sent is the one typed. */
  function HandleRequest(s: RequestState, email: string, outcome: RequestOutcome): (r: (RequestState, Option<string>))
    ensures !r.0.isSubmitting
    ensures r.1.Some? <==> EmailShape(Trim(email))
    ensures r.1.Some? ==> r.1.value == email
    ensures r.1.None? ==> r.0.error == InvalidEmailMessage && r.0.message == ""
    ensures r.1.Some? && outcome.RequestSent? ==> r.0.message == RequestSentMessage && r.0.error == ""
    ensures r.1.Some? && outcome.RequestFailed? ==>
              r.0.error == OrText(outcome.serverMessage, RequestFailedMessage) && r.0.message == ""
  {
    var started := s.(isSubmitting := true);
    if !EmailShape(Trim(email)) then
      (started.(error := InvalidEmailMessage, message := "", isSubmitting := false), None)
    else
      var done := match outcome
        case RequestSent => started.(message := RequestSentMessage, error := "")
        case RequestFailed(m) => started.(error := OrText(m, RequestFailedMessage), message := "");
      (done.(isSubmitting := false), Some(email))
  }

  /** Surrounding spaces do not stop a request, and they are sent along. */
  lemma PaddedEmailSentAsTyped(s: RequestState, outcome: RequestOutcome)
    ensures HandleRequest(s, " a@b.c ", outcome).1 == Some(" a@b.c ")
  {
    var e := " a@b.c ";
    assert IsSpace(e[0]) && !IsSpace(e[1]) && !IsSpace(e[5]) && IsSpace(e[6]);
    TrimBetween(e, 1, 6);
    var t := Trim(e);
    assert t == "a@b.c";
    assert |t| == 5 && t[0] == 'a' && t[1] == '@' && t[2] == 'b' && t[3] == '.' && t[4] == 'c';
    assert t[..1] == ['a'] && t[2..3] == ['b'] && t[4..] == ['c'];
    assert EmailSplit(t, 1, 3);
  }
}
