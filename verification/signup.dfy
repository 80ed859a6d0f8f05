/**
  The signup form's pure logic (src/components/Signup.jsx): `validateField`
  as a transformer of the field-error map, the request payload, and the
  message shown when the signup request fails.

  `validateField` is modelled as written. Its password branch tests
  `!isPasswordValid`, the negation of a function object, which is always
  false, so a non-empty password never gets an error. `ValidateFieldIntended`
  is the corrected version, which calls `isPasswordValid(value)`.
 */
module Signup {
  import opened Optional
  import opened Text
  import opened Http
  import opened SignupRules

  /**
    The `errors` state: field name to message; a valid field has no key.
    Each form keeps its own error state, so the login form has its own
    `Errors` and keys.
   */
  type Errors = map<string, string>

  const FirstNameKey: string := "firstName"
  const LastNameKey: string := "lastName"
  const EmailKey: string := "emailId"
  const PasswordKey: string := "password"

  /** The three messages of a name field, in rule order. */
  datatype NameMessages = NameMessages(required: string, tooShort: string, notLetters: string)

  const FirstNameMessages: NameMessages := NameMessages(
    "First name is required",
    "First name must be at least 4 characters",
    "First name can only contain letters")

  const LastNameMessages: NameMessages := NameMessages(
    "Last name is required",
    "Last name must be at least 4 characters",
    "Last name can only contain letters")

  const EmailRequired: string := "Email is required"
  const EmailInvalid: string := "Please enter a valid email address"
  const PasswordRequired: string := "Password is required"
  const PasswordWeak: string := "Password does not meet requirements"

  /** The class `[a-zA-Z\s]`. */
  predicate IsLetterOrSpace(c: char) {
    IsAsciiLetter(c) || IsSpace(c)
  }

  /** What an acceptable name looks like once trimmed. */
  predicate IsValidName(t: string) {
    |t| >= 4 && forall i :: 0 <= i < |t| ==> IsLetterOrSpace(t[i])
  }

  /** The error of a name field: the first rule the trimmed value breaks. */
  function NameError(m: NameMessages, value: string): Option<string> {
    var t := Trim(value);
    if |t| == 0 then Some(m.required)
    else if |t| < 4 then Some(m.tooShort)
    else if !AllChars(t, IsLetterOrSpace) then Some(m.notLetters)
    else None
  }

  /** The error of the email field. */
  function EmailError(value: string): Option<string> {
    var t := Trim(value);
    if |t| == 0 then Some(EmailRequired)
    else if !IsValidEmail(t) then Some(EmailInvalid)
    else None
  }

  /** The error of the password field as written: only emptiness is reported. */
  function PasswordErrorAsWritten(value: string): Option<string> {
    if value == "" then Some(PasswordRequired)
    else None
  }

  /** The error of the password field as evidently intended. */
  function PasswordErrorIntended(value: string): Option<string> {
    if value == "" then Some(PasswordRequired)
    else if !IsPasswordValid(value) then Some(PasswordWeak)
    else None
  }

  /** A name field passes exactly when its trimmed value is an acceptable name. */
  lemma NameErrorNoneIff(m: NameMessages, value: string)
    ensures NameError(m, value).None? <==> IsValidName(Trim(value))
  {
  }

  /** The email field passes exactly when its trimmed value matches the pattern. */
  lemma EmailErrorNoneIff(value: string)
    ensures EmailError(value).None? <==> MatchesEmailRegex(Trim(value))
  {
    EmailTestMatchesRegex(Trim(value));
  }

  /** Record an error under `key`, or delete the key when there is none. */
  function Apply(errors: Errors, key: string, e: Option<string>): (r: Errors)
    ensures e.Some? ==> key in r && r[key] == e.value
    ensures e.None? ==> key !in r
    ensures forall k :: k != key ==> (k in r <==> k in errors) && (k in r ==> r[k] == errors[k])
  {
    match e
    case Some(m) => errors[key := m]
    case None => errors - {key}
  }

  /** The four fields `validateField` knows. */
  predicate IsKnownField(field: string) {
    field == FirstNameKey || field == LastNameKey || field == EmailKey || field == PasswordKey
  }

  /** The error a known field's value gets (as written). */
  function FieldError(field: string, value: string): Option<string>
    requires IsKnownField(field)
  {
    if field == FirstNameKey then NameError(FirstNameMessages, value)
    else if field == LastNameKey then NameError(LastNameMessages, value)
    else if field == EmailKey then EmailError(value)
    else PasswordErrorAsWritten(value)
  }

  /**
    `validateField(field, value)` applied to the `errors` map it copies.
    Only the key `field` can change; an unknown field changes nothing. A
    known field ends up without an error exactly when its value is
    acceptable; for the password that means only non-empty.
   */
  function ValidateField(errors: Errors, field: string, value: string): (r: Errors)
    ensures forall k :: k != field ==> (k in r <==> k in errors) && (k in r ==> r[k] == errors[k])
    ensures !IsKnownField(field) ==> r == errors
    ensures field == FirstNameKey || field == LastNameKey ==> (field !in r <==> IsValidName(Trim(value)))
    ensures field == EmailKey ==> (field !in r <==> MatchesEmailRegex(Trim(value)))
    ensures field == PasswordKey ==> (field !in r <==> value != "")
  {
    NameErrorNoneIff(FirstNameMessages, value);
    NameErrorNoneIff(LastNameMessages, value);
    EmailErrorNoneIff(value);
    if IsKnownField(field) then Apply(errors, field, FieldError(field, value)) else errors
  }

  /**
    The name rules in priority order: a blank value is "required" even though
    it is also short; a short value is "too short" whatever its characters;
    only a long enough value is checked for letters.
   */
  lemma NameRulePriority(errors: Errors, field: string, value: string)
    requires field == FirstNameKey || field == LastNameKey
    ensures var m := if field == FirstNameKey then FirstNameMessages else LastNameMessages;
            var r := ValidateField(errors, field, value);
            var t := Trim(value);
            && (AllChars(value, IsSpace) ==> field in r && r[field] == m.required)
            && (0 < |t| < 4 ==> field in r && r[field] == m.tooShort)
            && (|t| >= 4 && (exists i :: 0 <= i < |t| && !IsLetterOrSpace(t[i])) ==>
                  field in r && r[field] == m.notLetters)
  {
  }

  /** The email rules: blank is "required", otherwise the pattern decides. */
  lemma EmailRulePriority(errors: Errors, value: string)
    ensures var r := ValidateField(errors, EmailKey, value);
            && (AllChars(value, IsSpace) ==> EmailKey in r && r[EmailKey] == EmailRequired)
            && (!AllChars(value, IsSpace) && !MatchesEmailRegex(Trim(value)) ==>
                  EmailKey in r && r[EmailKey] == EmailInvalid)
  {
    EmailTestMatchesRegex(Trim(value));
  }

  /** Validating a field again with the same value changes nothing. */
  lemma ValidateFieldIdempotent(errors: Errors, field: string, value: string)
    ensures ValidateField(ValidateField(errors, field, value), field, value) == ValidateField(errors, field, value)
  {
  }

  /** The entry for `field` depends only on the value, not on what the map held before. */
  lemma ValidateFieldForgetsOldEntry(e1: Errors, e2: Errors, field: string, value: string)
    requires IsKnownField(field)
    ensures field in ValidateField(e1, field, value) <==> field in ValidateField(e2, field, value)
    ensures field in ValidateField(e1, field, value) ==>
              ValidateField(e1, field, value)[field] == ValidateField(e2, field, value)[field]
  {
  }

  /** As written, the password is never reported as too weak, whatever it is. */
  lemma PasswordStrengthNeverReported(errors: Errors, value: string)
    ensures PasswordKey in ValidateField(errors, PasswordKey, value) ==>
              ValidateField(errors, PasswordKey, value)[PasswordKey] == PasswordRequired
  {
  }

  /** A concrete case: the one-letter password "a" is invalid yet clears the error. */
  lemma WeakPasswordAccepted()
    ensures !IsPasswordValid("a")
    ensures PasswordKey !in ValidateField(map[], PasswordKey, "a")
  {
  }

  /**
    `validateField` with the password branch calling `isPasswordValid(value)`.
    The password ends without an error exactly when it is valid, and a
    non-empty invalid password is reported as not meeting the requirements.
    Every other field is validated as before.
   */
  function ValidateFieldIntended(errors: Errors, field: string, value: string): (r: Errors)
    ensures forall k :: k != field ==> (k in r <==> k in errors) && (k in r ==> r[k] == errors[k])
    ensures field != PasswordKey ==> r == ValidateField(errors, field, value)
    ensures field == PasswordKey ==> (field !in r <==> IsPasswordValid(value))
    ensures field == PasswordKey && value != "" && !IsPasswordValid(value) ==> r[field] == PasswordWeak
    ensures field == PasswordKey && value == "" ==> field in r && r[field] == PasswordRequired
  {
    PasswordValidIffAllRules(value);
    if field == PasswordKey then Apply(errors, field, PasswordErrorIntended(value))
    else ValidateField(errors, field, value)
  }

  /** The body of the `POST /signup` request. */
  datatype SignupPayload = SignupPayload(firstName: string, lastName: string, emailId: string, password: string)

  /**
    The payload `handleSignup` sends: trimmed names, a trimmed lower-case
    email, and the password exactly as typed.
   */
  function SignupPayloadOf(firstName: string, lastName: string, emailId: string, password: string): (p: SignupPayload)
    ensures p.password == password
    ensures IsTrimmed(p.firstName) && IsTrimmed(p.lastName) && IsTrimmed(p.emailId)
    ensures exists lo :: SliceAmidSpace(firstName, p.firstName, lo)
    ensures exists lo :: SliceAmidSpace(lastName, p.lastName, lo)
    ensures |p.emailId| == |Trim(emailId)|
    ensures forall i :: 0 <= i < |p.emailId| ==> p.emailId[i] == LowerChar(Trim(emailId)[i])
    ensures !AnyChar(p.emailId, IsAsciiUpper)
  {
    ToLowerKeepsTrimmed(Trim(emailId));
    SignupPayload(Trim(firstName), Trim(lastName), ToLower(Trim(emailId)), password)
  }

  /** Normalising an already normalised payload gives it back. */
  lemma SignupPayloadIsNormalised(firstName: string, lastName: string, emailId: string, password: string)
    ensures var p := SignupPayloadOf(firstName, lastName, emailId, password);
            SignupPayloadOf(p.firstName, p.lastName, p.emailId, p.password) == p
  {
    var p := SignupPayloadOf(firstName, lastName, emailId, password);
    TrimOfTrimmed(p.firstName);
    TrimOfTrimmed(p.lastName);
    TrimOfTrimmed(p.emailId);
    ToLowerIdempotent(Trim(emailId));
  }

  const SignupBadInput: string := "Invalid input data. Please check your information."
  const SignupEmailTaken: string := "Email already exists. Please try with a different email."
  const SignupServerError: string := "Server error. Please try again later."
  const SignupGeneric: string := "Something went wrong. Please try again."

  /**
    The message `handleSignup` shows when the request fails: the server's
    own `message` first, then by status 400, 409, 500 and above, and
    otherwise (or with no response at all) a generic message.
   */
  function SignupErrorMessage(response: Option<Response>): (m: string)
    ensures m != ""
    ensures response.Some? && Truthy(response.value.message) ==> m == response.value.message.value
    ensures response.None? ==> m == SignupGeneric
  {
    if response.Some? && Truthy(response.value.message) then response.value.message.value
    else if response.Some? && response.value.status == 400 then SignupBadInput
    else if response.Some? && response.value.status == 409 then SignupEmailTaken
    else if response.Some? && response.value.status >= 500 then SignupServerError
    else SignupGeneric
  }

  /**
    Without a truthy server message (absent or empty), the status decides;
    the `error` field is never consulted, and a truthy message wins over
    every status.
   */
  lemma SignupStatusMessages(status: int, error: Option<string>, message: Option<string>)
    ensures !Truthy(message) ==>
            var m := SignupErrorMessage(Some(Response(status, message, error)));
            && (status == 400 ==> m == SignupBadInput)
            && (status == 409 ==> m == SignupEmailTaken)
            && (status >= 500 ==> m == SignupServerError)
            && (status != 400 && status != 409 && status < 500 ==> m == SignupGeneric)
    ensures Truthy(message) ==>
              SignupErrorMessage(Some(Response(status, message, error))) == message.value
  {
  }
}
