/**
  The login form's pure logic (src/components/Login.jsx): the request
  payload, the message shown when login fails, and the field handlers that
  clear errors as the user types.
 */
module Login {
  import opened Optional
  import opened Text
  import opened Http
  import opened SignupRules

  const InvalidCredentials: string := "Invalid email or password"
  const UserNotFound: string := "User not found"
  const ServerError: string := "Server error. Please try again later"
  const LoginFailed: string := "Login failed. Please try again"
  const NetworkError: string := "Network error. Please check your connection"
  const Unexpected: string := "An unexpected error occurred"

  /**
    A failed login as axios reports it: the server's answer, if one came,
    and whether a request went out at all.
   */
  datatype LoginFailure = LoginFailure(response: Option<Response>, hasRequest: bool)

  /** `data.message || data.error`, kept only when truthy. */
  function ServerMessage(r: Response): (m: Option<string>)
    ensures m.Some? <==> Truthy(r.message) || Truthy(r.error)
    ensures m.Some? ==> m.value != ""
    ensures Truthy(r.message) ==> m == r.message
    ensures !Truthy(r.message) && Truthy(r.error) ==> m == r.error
  {
    if Truthy(r.message) then r.message
    else if Truthy(r.error) then r.error
    else None
  }

  /**
    The `apiError` a failed login shows. With a response: 400 shows the
    server message or a credentials message, 404 and 500 fixed messages,
    any other status the server message or a generic one. Without a
    response: a network message if a request was made, otherwise a generic
    one.
   */
  function LoginErrorMessage(f: LoginFailure): (m: string)
    ensures m != ""
    ensures f.response.None? ==> m == (if f.hasRequest then NetworkError else Unexpected)
    ensures f.response.Some? && f.response.value.status == 404 ==> m == UserNotFound
    ensures f.response.Some? && f.response.value.status == 500 ==> m == ServerError
    ensures (&& f.response.Some? && f.response.value.status != 404 && f.response.value.status != 500
             && ServerMessage(f.response.value).Some?) ==> m == ServerMessage(f.response.value).value
  {
    match f.response
    case Some(r) =>
      var message := ServerMessage(r);
      if r.status == 400 then message.GetOr(InvalidCredentials)
      else if r.status == 404 then UserNotFound
      else if r.status == 500 then ServerError
      else message.GetOr(LoginFailed)
    case None =>
      if f.hasRequest then NetworkError else Unexpected
  }

  /**
    Without a usable server message, 400 blames the credentials and any
    status other than 400, 404 and 500 gives the generic failure; with a
    response, whether a request was recorded does not matter.
   */
  lemma LoginFallbackMessages(r: Response, q1: bool, q2: bool)
    ensures ServerMessage(r).None? && r.status == 400 ==>
              LoginErrorMessage(LoginFailure(Some(r), q1)) == InvalidCredentials
    ensures ServerMessage(r).None? && r.status !in {400, 404, 500} ==>
              LoginErrorMessage(LoginFailure(Some(r), q1)) == LoginFailed
    ensures LoginErrorMessage(LoginFailure(Some(r), q1)) == LoginErrorMessage(LoginFailure(Some(r), q2))
  {
  }

  /** For 404 and 500 the server's message and error fields are ignored. */
  lemma FixedStatusesIgnoreServerMessage(status: int, m1: Option<string>, e1: Option<string>,
                                         m2: Option<string>, e2: Option<string>)
    requires status == 404 || status == 500
    ensures LoginErrorMessage(LoginFailure(Some(Response(status, m1, e1)), true))
            == LoginErrorMessage(LoginFailure(Some(Response(status, m2, e2)), false))
  {
  }

  /**
    The `errors` state, field name to message; a falsy entry shows nothing.
    It is this form's own state, separate from the signup form's.
   */
  type Errors = map<string, string>

  const EmailKey: string := "emailId"
  const PasswordKey: string := "password"

  /** The form's state. */
  datatype LoginForm = LoginForm(emailId: string, password: string, errors: Errors, apiError: string, isLoading: bool)

  /** The form as first rendered, with its preset credentials. */
  const InitialForm: LoginForm := LoginForm("sankalp@gmail.com", "Sankalp@123", map[], "", false)

  /** The preset password meets every rule the signup form enforces. */
  lemma PresetPasswordIsValid()
    ensures IsPasswordValid(InitialForm.password)
  {
    var v := InitialForm.password;
    assert IsAsciiUpper(v[0]) && IsAsciiLower(v[1]) && IsAsciiDigit(v[8]) && IsSpecialChar(v[7]);
  }

  /** The body of the `POST /login` request. */
  datatype LoginPayload = LoginPayload(emailId: string, password: string)

  /** The form while the request is in flight, and what was sent. */
  datatype LoginStart = LoginStart(form: LoginForm, payload: LoginPayload)

  /**
    The synchronous part of `handleLogin`: the previous API error is cleared
    and loading starts before the request goes out with the trimmed email
    and the password as typed.
   */
  function BeginLogin(f: LoginForm): (s: LoginStart)
    ensures s.form == f.(apiError := "", isLoading := true)
    ensures s.payload.password == f.password
    ensures IsTrimmed(s.payload.emailId) && exists lo :: SliceAmidSpace(f.emailId, s.payload.emailId, lo)
  {
    LoginStart(f.(apiError := "", isLoading := true), LoginPayload(Trim(f.emailId), f.password))
  }

  /**
    The email sent is already normalised: putting it back into the form and
    logging in again sends the same payload.
   */
  lemma BeginLoginIsStable(f: LoginForm)
    ensures var p := BeginLogin(f).payload;
            BeginLogin(f.(emailId := p.emailId)).payload == p
  {
    TrimIdempotent(f.emailId);
  }

  /**
    The rest of `handleLogin` once the request settles: on failure the
    mapped message is shown; either way loading stops. Success navigates
    away, which is not modelled.
   */
  function FinishLogin(f: LoginForm, failure: Option<LoginFailure>): (r: LoginForm)
    ensures !r.isLoading
    ensures r.emailId == f.emailId && r.password == f.password && r.errors == f.errors
    ensures failure.None? ==> r.apiError == f.apiError
    ensures failure.Some? ==> r.apiError == LoginErrorMessage(failure.value) && r.apiError != ""
  {
    match failure
    case Some(err) => f.(apiError := LoginErrorMessage(err), isLoading := false)
    case None => f.(isLoading := false)
  }

  /** A login that succeeds leaves no API error, whatever was shown before it. */
  lemma SuccessfulLoginShowsNoError(f: LoginForm)
    ensures FinishLogin(BeginLogin(f).form, None).apiError == ""
  {
  }

  /** `{ ...prev, [key]: "" }` when the entry for `key` is truthy; otherwise nothing. */
  function ClearFieldError(errors: Errors, key: string): (r: Errors)
    ensures forall k :: k != key ==> (k in r <==> k in errors) && (k in r ==> r[k] == errors[k])
    ensures key in r <==> key in errors
    ensures key in r ==> r[key] == ""
  {
    if key in errors && errors[key] != "" then errors[key := ""] else errors
  }

  /**
    `handleEmailChange`: the typed value replaces the email, the email's
    error is blanked if it showed, the password's error is untouched and the
    API error is cleared.
   */
  function HandleEmailChange(f: LoginForm, value: string): (r: LoginForm)
    ensures r.emailId == value && r.password == f.password && r.isLoading == f.isLoading
    ensures r.apiError == ""
    ensures forall k :: k != EmailKey ==> (k in r.errors <==> k in f.errors) && (k in r.errors ==> r.errors[k] == f.errors[k])
    ensures EmailKey in r.errors <==> EmailKey in f.errors
    ensures EmailKey in r.errors ==> r.errors[EmailKey] == ""
  {
    var f1 := f.(emailId := value);
    var f2 := f1.(errors := ClearFieldError(f1.errors, EmailKey));
    if f2.apiError != "" then f2.(apiError := "") else f2
  }

  /** `handlePasswordChange`, the same for the password field. */
  function HandlePasswordChange(f: LoginForm, value: string): (r: LoginForm)
    ensures r.password == value && r.emailId == f.emailId && r.isLoading == f.isLoading
    ensures r.apiError == ""
    ensures forall k :: k != PasswordKey ==> (k in r.errors <==> k in f.errors) && (k in r.errors ==> r.errors[k] == f.errors[k])
    ensures PasswordKey in r.errors <==> PasswordKey in f.errors
    ensures PasswordKey in r.errors ==> r.errors[PasswordKey] == ""
  {
    var f1 := f.(password := value);
    var f2 := f1.(errors := ClearFieldError(f1.errors, PasswordKey));
    if f2.apiError != "" then f2.(apiError := "") else f2
  }

  /** Typing the same value twice is typing it once. */
  lemma FieldHandlersIdempotent(f: LoginForm, value: string)
    ensures HandleEmailChange(HandleEmailChange(f, value), value) == HandleEmailChange(f, value)
    ensures HandlePasswordChange(HandlePasswordChange(f, value), value) == HandlePasswordChange(f, value)
  {
  }

  /** Typing in either field after a failed login hides the failure message. */
  lemma TypingAfterFailureClearsMessage(f: LoginForm, err: LoginFailure, value: string)
    ensures FinishLogin(BeginLogin(f).form, Some(err)).apiError != ""
    ensures HandleEmailChange(FinishLogin(BeginLogin(f).form, Some(err)), value).apiError == ""
    ensures HandlePasswordChange(FinishLogin(BeginLogin(f).form, Some(err)), value).apiError == ""
  {
  }
}
