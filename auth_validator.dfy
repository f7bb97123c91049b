/** The request schemas of the authentication routes: the credentials (an e-mail trimmed and
    lower-cased before its format check, a password of 6 to 100 characters), the registration
    (credentials plus first and last names of 2 to 50 characters once trimmed) and the login (the
    credentials alone). The e-mail format check is a parameter of the model. */
module AuthValidator {
  import opened Common
  import opened Strings
  import opened Models

  const MsgRequired: string := "Required"
  const MsgBadEmail: string := "Correo electrónico inválido"
  const MsgShortPassword: string := "La contraseña debe tener al menos 8 caracteres"
  const MsgLongPassword: string := "La contraseña no puede exceder 100 caracteres"
  const MsgShortFirstName: string := "El nombre debe tener al menos 2 caracteres"
  const MsgLongFirstName: string := "El nombre no puede exceder 50 caracteres"
  const MsgShortLastName: string := "El apellido debe tener al menos 2 caracteres"
  const MsgLongLastName: string := "El apellido no puede exceder 50 caracteres"

  const MinPassword: nat := 6
  const MaxPassword: nat := 100
  const MinName: nat := 2
  const MaxName: nat := 50

  /** A parsed field: the value after its transformations, or the messages of the checks it
      failed. */
  datatype Checked = Accepted(value: string) | Issues(messages: seq<string>)

  /** A string field with a minimum and a maximum length, each with its message; `trim` first when
      the schema trims. */
  function CheckLength(v: Option<string>, trim: bool, min: nat, max: nat, minMsg: string, maxMsg: string): (c: Checked)
    ensures v.None? ==> c == Issues([MsgRequired])
    ensures v.Some? ==> var s := if trim then Trim(v.value) else v.value;
      (c.Accepted? <==> min <= |s| <= max) && (c.Accepted? ==> c.value == s)
    ensures c.Issues? ==> c.messages != []
  {
    match v
    case None => Issues([MsgRequired])
    case Some(raw) =>
      var s := if trim then Trim(raw) else raw;
      var issues := (if |s| < min then [minMsg] else []) + (if |s| > max then [maxMsg] else []);
      if issues == [] then Accepted(s) else Issues(issues)
  }

  /** The e-mail field: trimmed, lower-cased, then checked for format. */
  function CheckEmail(v: Option<string>, isEmail: string -> bool): (c: Checked)
    ensures v.None? ==> c == Issues([MsgRequired])
    ensures v.Some? ==> (c.Accepted? <==> isEmail(NormalizeEmail(v.value)))
    ensures c.Accepted? ==> c.value == NormalizeEmail(v.value)
    ensures c.Issues? ==> c.messages != []
  {
    match v
    case None => Issues([MsgRequired])
    case Some(raw) =>
      var s := ToLower(Trim(raw));
      if isEmail(s) then Accepted(s) else Issues([MsgBadEmail])
  }

  function CheckPassword(v: Option<string>): Checked {
    CheckLength(v, false, MinPassword, MaxPassword, MsgShortPassword, MsgLongPassword)
  }

  function IssuesOf(c: Checked): seq<string> {
    if c.Issues? then c.messages else []
  }

  datatype LoginBody = LoginBody(email: Option<string>, password: Option<string>)
  datatype RegisterBody = RegisterBody(
    email: Option<string>, password: Option<string>, firstName: Option<string>, lastName: Option<string>)

  datatype Credentials = Credentials(email: string, password: string)
  datatype Registration = Registration(email: string, password: string, firstName: string, lastName: string)

  datatype Parsed<T> = Valid(value: T) | Invalid(issues: seq<string>)

  /** `loginSchema`: the credentials, with every failed check reported in field order. */
  function ParseLogin(body: LoginBody, isEmail: string -> bool): (r: Parsed<Credentials>)
    ensures r.Invalid? ==> r.issues != []
    ensures body.email.None? ==> r.Invalid? && MsgRequired in r.issues
  {
    var e, p := CheckEmail(body.email, isEmail), CheckPassword(body.password);
    if e.Accepted? && p.Accepted? then Valid(Credentials(e.value, p.value))
    else Invalid(IssuesOf(e) + IssuesOf(p))
  }

  function CheckFirstName(v: Option<string>): Checked {
    CheckLength(v, true, MinName, MaxName, MsgShortFirstName, MsgLongFirstName)
  }

  function CheckLastName(v: Option<string>): Checked {
    CheckLength(v, true, MinName, MaxName, MsgShortLastName, MsgLongLastName)
  }

  function CredentialsOf(body: RegisterBody): LoginBody {
    LoginBody(body.email, body.password)
  }

  function IssuesOfParsed<T>(p: Parsed<T>): seq<string> {
    if p.Invalid? then p.issues else []
  }

  /** `registerSchema`, the credentials schema extended with the two names: the credentials'
      checks come first, then the names'. */
  function ParseRegister(body: RegisterBody, isEmail: string -> bool): (r: Parsed<Registration>)
    ensures r.Invalid? ==> r.issues != []
    ensures r.Valid? ==> ParseLogin(CredentialsOf(body), isEmail).Valid?
  {
    var c := ParseLogin(CredentialsOf(body), isEmail);
    var f, l := CheckFirstName(body.firstName), CheckLastName(body.lastName);
    if c.Valid? && f.Accepted? && l.Accepted? then
      Valid(Registration(c.value.email, c.value.password, f.value, l.value))
    else Invalid(IssuesOfParsed(c) + IssuesOf(f) + IssuesOf(l))
  }

  /** The password rule is a length of 6 to 100 characters; its message speaks of 8, so a password
      of 6 or 7 characters passes although the message says it should not. */
  lemma PasswordRule(password: string)
    ensures CheckPassword(Some(password)).Accepted? <==> 6 <= |password| <= 100
    ensures |password| < 6 ==> CheckPassword(Some(password)) == Issues([MsgShortPassword])
    ensures |password| > 100 ==> CheckPassword(Some(password)) == Issues([MsgLongPassword])
  {
  }

  /** A login body is valid exactly when the normalised e-mail has the format and the password has
      an allowed length; the result carries the normalised e-mail and the password unchanged. */
  lemma LoginAccepts(body: LoginBody, isEmail: string -> bool)
    ensures ParseLogin(body, isEmail).Valid? <==>
      && body.email.Some? && body.password.Some?
      && isEmail(NormalizeEmail(body.email.value))
      && MinPassword <= |body.password.value| <= MaxPassword
    ensures ParseLogin(body, isEmail).Valid? ==>
      ParseLogin(body, isEmail).value == Credentials(NormalizeEmail(body.email.value), body.password.value)
    ensures ParseLogin(body, isEmail).Invalid? ==> ParseLogin(body, isEmail).issues != []
  {
  }

  /** A registration body is valid exactly when its credentials are and both names have 2 to 50
      characters once trimmed; the result carries the trimmed names. */
  lemma RegisterAccepts(body: RegisterBody, isEmail: string -> bool)
    ensures ParseRegister(body, isEmail).Valid? <==>
      && ParseLogin(CredentialsOf(body), isEmail).Valid?
      && body.firstName.Some? && MinName <= |Trim(body.firstName.value)| <= MaxName
      && body.lastName.Some? && MinName <= |Trim(body.lastName.value)| <= MaxName
    ensures ParseRegister(body, isEmail).Valid? ==>
      var r, c := ParseRegister(body, isEmail).value, ParseLogin(CredentialsOf(body), isEmail).value;
      && r.email == c.email && r.password == c.password
      && r.firstName == Trim(body.firstName.value) && r.lastName == Trim(body.lastName.value)
    ensures ParseRegister(body, isEmail).Invalid? ==> ParseRegister(body, isEmail).issues != []
  {
    LoginAccepts(CredentialsOf(body), isEmail);
  }

  /** A registration body's issues are its credentials' issues followed by those of the first and
      then the last name. */
  lemma RegisterIssuesInFieldOrder(body: RegisterBody, isEmail: string -> bool)
    requires ParseRegister(body, isEmail).Invalid?
    ensures ParseRegister(body, isEmail).issues ==
      IssuesOfParsed(ParseLogin(CredentialsOf(body), isEmail))
      + IssuesOf(CheckFirstName(body.firstName)) + IssuesOf(CheckLastName(body.lastName))
    ensures ParseLogin(CredentialsOf(body), isEmail).Invalid? ==>
      ParseLogin(CredentialsOf(body), isEmail).issues != [] && ParseRegister(body, isEmail).issues != []
  {
    LoginAccepts(CredentialsOf(body), isEmail);
  }

  /** The accepted e-mail is already in the form the service normalises to, so normalising it
      again changes nothing; the accepted names are already trimmed. */
  lemma AcceptedValuesAreNormal(body: RegisterBody, isEmail: string -> bool)
    requires ParseRegister(body, isEmail).Valid?
    ensures var r := ParseRegister(body, isEmail).value;
      NormalizeEmail(r.email) == r.email && Trim(r.firstName) == r.firstName && Trim(r.lastName) == r.lastName
  {
    var c := ParseLogin(CredentialsOf(body), isEmail);
    var f, l := CheckFirstName(body.firstName), CheckLastName(body.lastName);
    assert c.Valid? && f.Accepted? && l.Accepted?;
    assert c.value.email == NormalizeEmail(body.email.value);
    assert f.value == Trim(body.firstName.value) && l.value == Trim(body.lastName.value);
    NormalizeEmailIdempotent(body.email.value);
    TrimIdempotent(body.firstName.value);
    TrimIdempotent(body.lastName.value);
  }

  /** The e-mail is normalised before the format check: surrounding whitespace and upper case do
      not change the answer. */
  lemma EmailCheckIgnoresVariant(s: string, pre: string, post: string, isEmail: string -> bool)
    requires AllWhitespace(pre) && AllWhitespace(post)
    ensures CheckEmail(Some(pre + ToUpper(s) + post), isEmail) == CheckEmail(Some(s), isEmail)
  {
    NormalizeEmailForgetsVariant(s, pre, post);
  }
}
