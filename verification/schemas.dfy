/** The field validators of the user backend's request schemas
    (user_backend/app/api/v1/core/schemas.py). A validator either returns the
    cleaned value or fails with the text of its `ValueError`. */
module Schemas {
  import opened Wrappers
  import opened Text
  import CoreSecurity

  type Checked<T> = Result<T, string>

  // ----- names -----

  /** The class `[a-zA-Z\s\-']` of the name pattern. */
  predicate IsNameChar(c: char) {
    IsAlpha(c) || IsSpace(c) || c == '-' || c == '\''
  }

  /** `^[a-zA-Z\s\-']+$` on a stripped value: non-empty, every character in the class. */
  predicate MatchesNamePattern(s: string) {
    |s| > 0 && forall i :: 0 <= i < |s| ==> IsNameChar(s[i])
  }

  const NameBlank := "Name cannot be empty or just whitespace"
  const NameCharacters := "Name can only contain letters, spaces, hyphens, and apostrophes"

  /** `validate_names` of the registration and profile schemas. */
  function ValidateName(v: string): (r: Checked<string>)
    ensures r.Ok? <==> Strip(v) != "" && MatchesNamePattern(Strip(v))
    ensures r.Ok? ==> r.value == Strip(v)
    ensures Strip(v) == "" ==> r == Err(NameBlank)
    ensures Strip(v) != "" && !MatchesNamePattern(Strip(v)) ==> r == Err(NameCharacters)
  {
    var cleaned := Strip(v);
    if v == "" || cleaned == "" then Err(NameBlank)
    else if !MatchesNamePattern(cleaned) then Err(NameCharacters)
    else Ok(cleaned)
  }

  /** A cleaned name passes again unchanged. */
  lemma ValidateNameIdempotent(v: string)
    requires ValidateName(v).Ok?
    ensures ValidateName(ValidateName(v).value) == ValidateName(v)
  {
    StripIdempotent(v);
  }

  /** `validate_names` of the admin update schema: strip, and only emptiness is refused. */
  function ValidateAdminName(v: Option<string>): (r: Checked<Option<string>>)
    ensures v.None? ==> r == Ok(None)
    ensures v.Some? ==> (r.Ok? <==> Strip(v.value) != "")
    ensures v.Some? && r.Ok? ==> r.value == Some(Strip(v.value))
    ensures r.Err? ==> r.error == "Name cannot be empty"
  {
    match v
    case None => Ok(None)
    case Some(s) => if Strip(s) == "" then Err("Name cannot be empty") else Ok(Some(Strip(s)))
  }

  /** The admin rule is the looser one: every name the users' own schemas
      accept it accepts with the same value, and it also takes names with
      digits or other punctuation. */
  lemma AdminNamesLooser(v: string)
    ensures ValidateName(v).Ok? ==> ValidateAdminName(Some(v)) == Ok(Some(ValidateName(v).value))
    ensures ValidateAdminName(Some("R2")).Ok? && ValidateName("R2").Err?
  {
    StripUntouched("R2");
    assert !IsNameChar("R2"[1]);
  }

  // ----- email -----

  /** `str(v).lower().strip()`: the form every stored address takes. */
  function NormaliseEmail(v: string): (e: string)
    ensures forall i :: 0 <= i < |e| ==> !IsUpper(e[i])
    ensures Strip(e) == e
    ensures |e| <= |v|
  {
    var lowered := Lower(v);
    StripIdempotent(lowered);
    Strip(lowered)
  }

  /** Normalising twice is normalising once. */
  lemma NormaliseEmailIdempotent(v: string)
    ensures NormaliseEmail(NormaliseEmail(v)) == NormaliseEmail(v)
  {
    var e := NormaliseEmail(v);
    assert Lower(e) == e;
  }

  /** `validate_email`, after the address syntax check: normalised, at most
      254 characters. */
  function ValidateEmail(v: string): (r: Checked<string>)
    ensures r.Ok? <==> |NormaliseEmail(v)| <= 254
    ensures r.Ok? ==> r.value == NormaliseEmail(v)
    ensures r.Err? ==> r.error == "Email address is too long"
  {
    var email := NormaliseEmail(v);
    if |email| > 254 then Err("Email address is too long") else Ok(email)
  }

  /** Cleaning is stable: an accepted address passes again unchanged. */
  lemma ValidateEmailIdempotent(v: string)
    requires ValidateEmail(v).Ok?
    ensures ValidateEmail(ValidateEmail(v).value) == ValidateEmail(v)
  {
    NormaliseEmailIdempotent(v);
  }

  /** The optional fields of the profile update schema: `None` passes untouched. */
  function ValidateOptional(v: Option<string>, check: string -> Checked<string>): (r: Checked<Option<string>>)
    ensures v.None? ==> r == Ok(None)
    ensures v.Some? ==> (r.Ok? <==> check(v.value).Ok?)
    ensures v.Some? && r.Ok? ==> r.value == Some(check(v.value).value)
    ensures v.Some? && r.Err? ==> r.error == check(v.value).error
  {
    match v
    case None => Ok(None)
    case Some(s) =>
      var c :- check(s);
      Ok(Some(c))
  }

  // ----- passwords -----

  /** The passwords the registration schema refuses however strong they look,
      compared after lower-casing. */
  const WeakPasswords: seq<string> := ["password123", "12345678", "qwerty123", "admin123"]

  const TooCommon := "Password is too common, please choose a stronger password"

  /** `UserRegisterSchema.validate_password`: length, then each class on its
      own, then the weak list. */
  function ValidateRegisterPassword(v: string): (r: Checked<string>)
    ensures r.Ok? <==> 8 <= |v| <= 128 && CoreSecurity.HasAllClasses(v) && Lower(v) !in WeakPasswords
    ensures r.Ok? ==> r.value == v
    ensures |v| < 8 ==> r == Err("Password must be at least 8 characters long")
    ensures |v| > 128 ==> r == Err("Password must be less than 128 characters")
    ensures 8 <= |v| <= 128 && !CoreSecurity.AnyChar(v, IsUpper) ==>
              r == Err("Password must contain at least one uppercase letter")
    ensures 8 <= |v| <= 128 && CoreSecurity.HasAllClasses(v) && Lower(v) in WeakPasswords ==> r == Err(TooCommon)
  {
    if |v| < 8 then Err("Password must be at least 8 characters long")
    else if |v| > 128 then Err("Password must be less than 128 characters")
    else if !CoreSecurity.AnyChar(v, IsUpper) then Err("Password must contain at least one uppercase letter")
    else if !CoreSecurity.AnyChar(v, IsLower) then Err("Password must contain at least one lowercase letter")
    else if !CoreSecurity.AnyChar(v, IsDigit) then Err("Password must contain at least one number")
    else if Lower(v) in WeakPasswords then Err(TooCommon)
    else Ok(v)
  }

  const TooShort := " must be at least 8 characters long"
  const TooLong := " must be less than 128 characters"
  const MissingClass := " must contain at least one uppercase letter, one lowercase letter, and one number"

  /** The new-password validators of the change and reset schemas; `subject`
      is "New password" or "Password" as in their messages. */
  function ValidateNewPassword(v: string, subject: string): (r: Checked<string>)
    ensures r.Ok? <==> 8 <= |v| <= 128 && CoreSecurity.HasAllClasses(v)
    ensures r.Ok? ==> r.value == v
    ensures |v| < 8 ==> r == Err(subject + TooShort)
    ensures |v| > 128 ==> r == Err(subject + TooLong)
    ensures 8 <= |v| <= 128 && !CoreSecurity.HasAllClasses(v) ==> r == Err(subject + MissingClass)
  {
    if |v| < 8 then Err(subject + TooShort)
    else if |v| > 128 then Err(subject + TooLong)
    else if !(CoreSecurity.AnyChar(v, IsUpper) && CoreSecurity.AnyChar(v, IsLower) && CoreSecurity.AnyChar(v, IsDigit)) then
      Err(subject + MissingClass)
    else Ok(v)
  }

  /** Registration is exactly the change/reset rule plus the weak list, and the
      change/reset rule is exactly the service's strength policy. */
  lemma PasswordRulesCompared(v: string, subject: string)
    ensures ValidateRegisterPassword(v).Ok? <==> ValidateNewPassword(v, subject).Ok? && Lower(v) !in WeakPasswords
    ensures ValidateNewPassword(v, subject).Ok? <==> CoreSecurity.ValidatePasswordStrength(v).Ok?
  {
  }

  /** `passwords_match`: checked only when the password itself validated
      (only then is it among `values`). */
  function ConfirmMatches(password: Checked<string>, confirm: string, message: string): (r: Checked<string>)
    ensures r.Err? <==> password.Ok? && confirm != password.value
    ensures r.Ok? ==> r.value == confirm
    ensures r.Err? ==> r.error == message
  {
    if password.Ok? && confirm != password.value then Err(message) else Ok(confirm)
  }

  /** `validate_user_type`: absent, or one of the three known types. */
  function ValidateUserType(v: Option<int>): (r: Checked<Option<int>>)
    ensures r.Ok? <==> v.None? || v.value in {1, 2, 3}
    ensures r.Ok? ==> r.value == v
    ensures r.Err? ==> r.error == "Invalid user type ID"
  {
    if v.Some? && v.value !in {1, 2, 3} then Err("Invalid user type ID") else Ok(v)
  }

  // ----- declared field constraints -----

  /** pydantic's message for a string shorter than `min_length`. */
  function AtLeast(n: nat): string {
    "String should have at least " + NatToString(n) + (if n == 1 then " character" else " characters")
  }

  /** pydantic's message for a string longer than `max_length`. */
  function AtMost(n: nat): string {
    "String should have at most " + NatToString(n) + (if n == 1 then " character" else " characters")
  }

  /** `Field(min_length=..., max_length=...)` on a `str` field: the value as
      sent is measured first, and the field's validator runs only when it fits. */
  function Constrained(v: string, minLength: nat, maxLength: nat, validate: string -> Checked<string>)
    : (r: Checked<string>)
    ensures r.Ok? <==> minLength <= |v| <= maxLength && validate(v).Ok?
    ensures minLength <= |v| <= maxLength ==> r == validate(v)
    ensures |v| < minLength ==> r == Err(AtLeast(minLength))
    ensures minLength <= |v| && |v| > maxLength ==> r == Err(AtMost(maxLength))
  {
    if |v| < minLength then Err(AtLeast(minLength))
    else if |v| > maxLength then Err(AtMost(maxLength))
    else validate(v)
  }

  /** `first_name`/`last_name`: `Field(min_length=1, max_length=100)`, then
      `validate_names`. Over-long names are refused whatever they hold. */
  function NameField(v: string): (r: Checked<string>)
    ensures r.Ok? <==> |v| <= 100 && Strip(v) != "" && MatchesNamePattern(Strip(v))
    ensures r.Ok? ==> r.value == Strip(v)
    ensures |v| > 100 ==> r == Err(AtMost(100))
    ensures v == "" ==> r == Err(AtLeast(1))
  {
    Constrained(v, 1, 100, ValidateName)
  }

  const NotAnEmail := "value is not a valid email address"

  /** `email: EmailStr`, then `validate_email`. `isEmail` stands for the
      address syntax check of the `email-validator` package. */
  function EmailField(v: string, isEmail: string -> bool): (r: Checked<string>)
    ensures r.Ok? <==> isEmail(v) && |NormaliseEmail(v)| <= 254
    ensures r.Ok? ==> r.value == NormaliseEmail(v)
    ensures !isEmail(v) ==> r == Err(NotAnEmail)
  {
    if !isEmail(v) then Err(NotAnEmail) else ValidateEmail(v)
  }

  /** The registration `password`: `Field(min_length=8, max_length=128)`,
      then `validate_password`. The field bounds are the validator's own, so
      they refuse nothing more; they only word the length messages. */
  function RegisterPasswordField(v: string): (r: Checked<string>)
    ensures r.Ok? <==> ValidateRegisterPassword(v).Ok?
    ensures r.Ok? ==> r.value == v
    ensures |v| < 8 ==> r == Err(AtLeast(8))
    ensures |v| > 128 ==> r == Err(AtMost(128))
    ensures 8 <= |v| <= 128 ==> r == ValidateRegisterPassword(v)
  {
    Constrained(v, 8, 128, ValidateRegisterPassword)
  }

  // ----- whole schemas -----

  /** What a registration form holds once validated. */
  datatype Registration = Registration(firstName: string, lastName: string, email: string,
                                       password: string, userTypeId: Option<int>)

  /** The fields in declaration order, each checked against its declared
      type and bounds and then its validator; all failures are reported, in
      that order. */
  function ValidateRegistration(firstName: string, lastName: string, email: string, password: string,
                                confirm: string, userTypeId: Option<int>, isEmail: string -> bool)
    : (r: Result<Registration, seq<string>>)
    ensures r.Ok? <==> && |firstName| <= 100 && |lastName| <= 100
                       && ValidateName(firstName).Ok? && ValidateName(lastName).Ok?
                       && isEmail(email) && ValidateEmail(email).Ok? && ValidateRegisterPassword(password).Ok?
                       && password == confirm && ValidateUserType(userTypeId).Ok?
    ensures r.Ok? ==> r.value == Registration(Strip(firstName), Strip(lastName), NormaliseEmail(email), password, userTypeId)
    ensures r.Err? ==> |r.error| > 0
    ensures |firstName| > 100 ==> r.Err? && r.error[0] == AtMost(100)
    ensures !isEmail(email) ==> r.Err? && NotAnEmail in r.error
  {
    var pw := RegisterPasswordField(password);
    var errors := Message(NameField(firstName)) + Message(NameField(lastName))
                  + Message(EmailField(email, isEmail)) + Message(pw)
                  + Message(ConfirmMatches(pw, confirm, "Passwords do not match"))
                  + Message(ValidateUserType(userTypeId));
    if errors == [] then
      Ok(Registration(NameField(firstName).value, NameField(lastName).value,
                      EmailField(email, isEmail).value, password, userTypeId))
    else Err(errors)
  }

  /** The message of a failed field, none for a passing one. */
  function Message<T>(r: Checked<T>): (m: seq<string>)
    ensures m == [] <==> r.Ok?
  {
    if r.Ok? then [] else [r.error]
  }
}
