/** The request validation of the authentication endpoints (app/api/auth/serializers.py):
    the field length constraints of the login form and the password rule of registration. */
module AuthSerializers {
  import opened Wrappers

  /** A character `[a-zA-Z]` matches. */
  predicate IsAsciiLetter(c: char)
  {
    ('a' <= c <= 'z') || ('A' <= c <= 'Z')
  }

  /** A character `\d` matches, taken as an ASCII digit. */
  predicate IsDigit(c: char)
  {
    '0' <= c <= '9'
  }

  /** `re.search(r"[a-zA-Z]", value)` finds a match: a left-to-right scan. */
  function SearchLetter(value: string): (found: bool)
    ensures found <==> exists i :: 0 <= i < |value| && IsAsciiLetter(value[i])
  {
    if value == [] then false
    else if IsAsciiLetter(value[0]) then true
    else
      var found := SearchLetter(value[1..]);
      assert forall i :: 1 <= i < |value| ==> value[i] == value[1..][i - 1];
      found
  }

  /** `re.search(r"\d", value)` finds a match: a left-to-right scan. */
  function SearchDigit(value: string): (found: bool)
    ensures found <==> exists i :: 0 <= i < |value| && IsDigit(value[i])
  {
    if value == [] then false
    else if IsDigit(value[0]) then true
    else
      var found := SearchDigit(value[1..]);
      assert forall i :: 1 <= i < |value| ==> value[i] == value[1..][i - 1];
      found
  }

  /** The two ValueErrors of the password validator. */
  datatype PasswordError = MissingLetterOrDigit | TooShort

  /** The `ValueError` messages. */
  function PasswordErrorText(e: PasswordError): string
  {
    match e
    case MissingLetterOrDigit => "Пароль должен содержать хотя бы одну букву и одну цифру"
    case TooShort => "Пароль должен быть не короче 8 символов"
  }

  const MinPasswordLength := 8
  const MinLoginLength := 3

  /** `password_complexity`: the letter-and-digit rule is checked first, then the length; an
      accepted value is returned unchanged. */
  function PasswordComplexity(value: string): (r: Result<string, PasswordError>)
    ensures r.Success? <==>
              (exists i :: 0 <= i < |value| && IsAsciiLetter(value[i]))
              && (exists i :: 0 <= i < |value| && IsDigit(value[i]))
              && |value| >= MinPasswordLength
    ensures r.Success? ==> r.value == value
    ensures !(exists i :: 0 <= i < |value| && IsAsciiLetter(value[i])) ==> r == Failure(MissingLetterOrDigit)
    ensures !(exists i :: 0 <= i < |value| && IsDigit(value[i])) ==> r == Failure(MissingLetterOrDigit)
    ensures r == Failure(TooShort) <==>
              (exists i :: 0 <= i < |value| && IsAsciiLetter(value[i]))
              && (exists i :: 0 <= i < |value| && IsDigit(value[i]))
              && |value| < MinPasswordLength
  {
    if !SearchLetter(value) || !SearchDigit(value) then Failure(MissingLetterOrDigit)
    else if |value| < MinPasswordLength then Failure(TooShort)
    else Success(value)
  }

  /** A field of a request body that failed a constraint. */
  datatype FieldError = LoginTooShort | PasswordTooShort | PasswordRule(error: PasswordError)

  /** AuthUserSerializer: every field is checked and each failed constraint is reported,
      in field order. */
  function LoginFormErrors(login: string, password: string): (errors: seq<FieldError>)
    ensures errors == [] <==> |login| >= MinLoginLength && |password| >= MinPasswordLength
    ensures LoginTooShort in errors <==> |login| < MinLoginLength
    ensures PasswordTooShort in errors <==> |password| < MinPasswordLength
    ensures |errors| <= 2 && (|errors| == 2 ==> errors == [LoginTooShort, PasswordTooShort])
  {
    (if |login| < MinLoginLength then [LoginTooShort] else [])
    + (if |password| < MinPasswordLength then [PasswordTooShort] else [])
  }

  /** AuthUserRegistrationSerializer's login and password: the login is unconstrained and the
      password goes through `password_complexity`. */
  function RegistrationFormErrors(login: string, password: string): (errors: seq<FieldError>)
    ensures errors == [] <==> PasswordComplexity(password).Success?
    ensures |errors| <= 1
  {
    match PasswordComplexity(password)
    case Success(_) => []
    case Failure(e) => [PasswordRule(e)]
  }

  /** The registration login may be of any length, even empty, unlike the login form's. */
  lemma RegistrationLoginUnconstrained(login: string, password: string)
    ensures RegistrationFormErrors(login, password) == RegistrationFormErrors("", password)
    ensures PasswordComplexity(password).Success? ==> RegistrationFormErrors("", password) == []
    ensures LoginFormErrors("", password) != []
  {
  }

  /** The letter-and-digit rule wins over the length rule: a password lacking a letter or a
      digit reports that error whatever its length, and the length error is reported exactly
      for short passwords that have both. */
  lemma RuleBeforeLength(value: string)
    ensures PasswordComplexity(value) == Failure(MissingLetterOrDigit) <==>
              !(exists i :: 0 <= i < |value| && IsAsciiLetter(value[i]))
              || !(exists i :: 0 <= i < |value| && IsDigit(value[i]))
    ensures |value| < MinPasswordLength ==> PasswordComplexity(value).Failure?
    ensures |value| < MinPasswordLength ==>
              (PasswordComplexity(value) == Failure(TooShort) <==>
                 (exists i :: 0 <= i < |value| && IsAsciiLetter(value[i]))
                 && (exists i :: 0 <= i < |value| && IsDigit(value[i])))
  {
  }

  /** Three passwords, one per outcome: too plain, too short, accepted. */
  lemma RuleBeforeLengthExamples()
    ensures PasswordComplexity("abc") == Failure(MissingLetterOrDigit)
    ensures PasswordComplexity("abc1") == Failure(TooShort)
    ensures PasswordComplexity("abcdefg1") == Success("abcdefg1")
  {
    assert IsAsciiLetter("abc1"[0]) && IsDigit("abc1"[3]);
    assert IsAsciiLetter("abcdefg1"[0]) && IsDigit("abcdefg1"[7]);
    assert forall i :: 0 <= i < |"abc"| ==> !IsDigit("abc"[i]);
  }

  /** A password accepted at registration also satisfies the login form's password length. */
  lemma RegisteredPasswordFitsLoginForm(login: string, password: string)
    requires PasswordComplexity(password).Success?
    requires |login| >= MinLoginLength
    ensures LoginFormErrors(login, password) == []
  {
  }
}
