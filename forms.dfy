/**
 * The validators of account/forms.py, each a function that returns the
 * cleaned value or the error the source raises. Django's own field cleaning
 * (strip, required, max_length, no NUL character) is modelled too, since it
 * decides which values reach the `clean_*` methods.
 */
module Forms {
  import opened Wrappers
  import opened Models

  // ---------------------------------------------------------------------
  // Django's CharField cleaning
  // ---------------------------------------------------------------------

  /** Python's `str.isspace`, which `str.strip()` removes at both ends. */
  predicate IsSpace(c: char) {
    var n := c as int;
    || 9 <= n <= 13 || 28 <= n <= 32 || n == 0x85 || n == 0xA0 || n == 0x1680
    || 0x2000 <= n <= 0x200A || n == 0x2028 || n == 0x2029 || n == 0x202F
    || n == 0x205F || n == 0x3000
  }

  /** The number of leading whitespace characters. */
  function LeadingSpaces(s: string): (n: nat)
    ensures n <= |s|
    ensures forall k :: 0 <= k < n ==> IsSpace(s[k])
    ensures n < |s| ==> !IsSpace(s[n])
  {
    if |s| > 0 && IsSpace(s[0]) then 1 + LeadingSpaces(s[1..]) else 0
  }

  /** The length of `s` once its trailing whitespace is removed. */
  function TrailingStart(s: string): (m: nat)
    ensures m <= |s|
    ensures forall k :: m <= k < |s| ==> IsSpace(s[k])
    ensures m > 0 ==> !IsSpace(s[m - 1])
  {
    if |s| > 0 && IsSpace(s[|s| - 1]) then TrailingStart(s[..|s| - 1]) else |s|
  }

  /** `str.strip()`: the longest slice of `s` that neither starts nor ends with whitespace. */
  function Strip(s: string): (r: string)
    ensures |r| <= |s|
    ensures r != [] ==> !IsSpace(r[0]) && !IsSpace(r[|r| - 1])
    ensures r == [] <==> forall k :: 0 <= k < |s| ==> IsSpace(s[k])
    ensures forall c :: c in r ==> c in s
    ensures exists a, b ::
              && 0 <= a <= b <= |s| && r == s[a..b]
              && (forall k :: 0 <= k < a ==> IsSpace(s[k]))
              && (forall k :: b <= k < |s| ==> IsSpace(s[k]))
  {
    var a := LeadingSpaces(s);
    if a == |s| then
      assert s[a..a] == [];
      []
    else
      var m := TrailingStart(s);
      assert a < m by { assert !IsSpace(s[a]); }
      s[a..m]
  }

  datatype FieldError = Required | TooLong(limit: nat) | NullCharacter | InvalidEmail

  /**
   * `CharField(max_length=...).clean(raw)`: strips, refuses a missing or
   * blank value, then a value longer than `max_length` or holding a NUL.
   * `raw == None` is a field absent from the POST data.
   */
  function CleanCharField(raw: Option<string>, maxLength: Option<nat>): (r: Result<string, FieldError>)
    ensures r.Success? <==>
              && raw.Some? && Strip(raw.value) != []
              && (maxLength.Some? ==> |Strip(raw.value)| <= maxLength.value)
              && '\0' !in Strip(raw.value)
    ensures r.Success? ==> r.value == Strip(raw.value)
  {
    match raw
    case None => Failure(Required)
    case Some(s) =>
      var v := Strip(s);
      if v == [] then Failure(Required)
      else if maxLength.Some? && |v| > maxLength.value then Failure(TooLong(maxLength.value))
      else if '\0' in v then Failure(NullCharacter)
      else Success(v)
  }

  /**
   * `EmailField(max_length=...).clean(raw)`: a CharField whose value must
   * also pass Django's email validator, which is library code and is passed
   * in as `isEmail`.
   */
  function CleanEmailField(raw: Option<string>, maxLength: Option<nat>, isEmail: string -> bool): (r: Result<string, FieldError>)
    ensures r.Success? <==> CleanCharField(raw, maxLength).Success? && isEmail(CleanCharField(raw, maxLength).value)
    ensures r.Success? ==> r.value == Strip(raw.value)
  {
    match CleanCharField(raw, maxLength)
    case Failure(e) => Failure(e)
    case Success(v) => if isEmail(v) then Success(v) else Failure(InvalidEmail)
  }

  /** The value a field leaves in `cleaned_data`: absent when its cleaning failed. */
  function Cleaned<E>(r: Result<string, E>): Option<string> {
    match r
    case Success(v) => Some(v)
    case Failure(_) => None
  }

  // ---------------------------------------------------------------------
  // Password policy: RegisterForm.clean_password and NewPasswordForm.clean_password
  // ---------------------------------------------------------------------

  /** The character classes of the five `re.search` patterns. */
  datatype CharClass = Digit | Upper | Lower | Special

  /** The ASCII digits (`\d`; see Left out for the Unicode digits Python also matches). */
  predicate IsAsciiDigit(c: char) {
    '0' <= c <= '9'
  }

  /**
   * Membership in each class. `[!@#$%^&*()_+=-{};:'<>,./?]` is read as the
   * regex engine reads it: the `=-{` in its middle is the RANGE from `=`
   * (0x3D) to `{` (0x7B), which takes in every ASCII letter and digit-free
   * symbol in between, not the three characters `=`, `-` and `{`.
   */
  predicate InClass(c: char, k: CharClass) {
    match k
    case Digit => IsAsciiDigit(c)
    case Upper => 'A' <= c <= 'Z'
    case Lower => 'a' <= c <= 'z'
    case Special => c in "!@#$%^&*()_+" || ('=' <= c <= '{') || c in "};:'<>,./?"
  }

  /** Some character of `p` is in class `k`. */
  predicate Contains(p: string, k: CharClass) {
    exists i :: 0 <= i < |p| && InClass(p[i], k)
  }

  /** `re.search(pattern, s)` for a single-character class, scanning left to right. */
  function Search(s: string, k: CharClass): (r: bool)
    ensures r <==> Contains(s, k)
  {
    if |s| == 0 then false
    else if InClass(s[0], k) then true
    else
      var rest := Search(s[1..], k);
      assert rest <==> exists i :: 1 <= i < |s| && InClass(s[i], k) by {
        forall i | 1 <= i < |s| ensures s[i] == s[1..][i - 1] { }
        if rest {
          var j :| 0 <= j < |s| - 1 && InClass(s[1..][j], k);
          assert InClass(s[j + 1], k);
        }
      }
      rest
  }

  /** The five rules, in the order `clean_password` checks them. */
  datatype PasswordError = TooShort | NoDigit | NoUpper | NoLower | NoSpecial

  /** `clean_password`: raises the error of the FIRST rule that fails. */
  function CleanPassword(p: string): Outcome<PasswordError> {
    if |p| < 8 then Fail(TooShort)
    else if !Search(p, Digit) then Fail(NoDigit)
    else if !Search(p, Upper) then Fail(NoUpper)
    else if !Search(p, Lower) then Fail(NoLower)
    else if !Search(p, Special) then Fail(NoSpecial)
    else Pass
  }

  /** The rules a password breaks, all of them collected (not checked in order). */
  function Violations(p: string): set<PasswordError> {
    (if |p| < 8 then {TooShort} else {})
    + (if !Contains(p, Digit) then {NoDigit} else {})
    + (if !Contains(p, Upper) then {NoUpper} else {})
    + (if !Contains(p, Lower) then {NoLower} else {})
    + (if !Contains(p, Special) then {NoSpecial} else {})
  }

  function Rank(e: PasswordError): nat {
    match e
    case TooShort => 0
    case NoDigit => 1
    case NoUpper => 2
    case NoLower => 3
    case NoSpecial => 4
  }

  /**
   * `clean_password` accepts exactly the passwords that break no rule, and
   * when it refuses, it reports the earliest broken rule.
   */
  lemma CleanPasswordReportsFirstViolation(p: string)
    ensures CleanPassword(p) == Pass <==> Violations(p) == {}
    ensures CleanPassword(p) == Pass <==>
              |p| >= 8 && Contains(p, Digit) && Contains(p, Upper) && Contains(p, Lower) && Contains(p, Special)
    ensures CleanPassword(p).Fail? ==>
              && CleanPassword(p).error in Violations(p)
              && forall e :: e in Violations(p) ==> Rank(CleanPassword(p).error) <= Rank(e)
  {
    var v := Violations(p);
    if CleanPassword(p) == Pass {
      assert v == {};
    } else {
      var e := CleanPassword(p).error;
      assert e in v;
    }
  }

  /**
   * Because the special class holds the range `=`..`{`, every uppercase
   * letter is "special": a password that passes the uppercase rule passes
   * the special rule too.
   */
  lemma UppercaseIsSpecial(p: string)
    ensures Contains(p, Upper) ==> Contains(p, Special)
  {
    if Contains(p, Upper) {
      var i :| 0 <= i < |p| && InClass(p[i], Upper);
      assert InClass(p[i], Special);
    }
  }

  /** So the special rule never fires: `clean_password` never reports `NoSpecial`. */
  lemma SpecialRuleIsRedundant(p: string)
    ensures CleanPassword(p) != Fail(NoSpecial)
    ensures Violations(p) == {} <==> (|p| >= 8 && Contains(p, Digit) && Contains(p, Upper) && Contains(p, Lower))
  {
    UppercaseIsSpecial(p);
  }

  /** A password with no symbol at all is accepted: the letters count as special characters. */
  lemma SymbolFreePasswordAccepted()
    ensures CleanPassword("Password1") == Pass
    ensures forall i :: 0 <= i < |"Password1"| ==> IsAsciiLetterOrDigit("Password1"[i])
  {
    PasswordOneIsAlphanumeric();
    var p := "Password1";
    assert Search(p, Digit) by { assert InClass(p[8], Digit); }
    assert Search(p, Upper) by { assert InClass(p[0], Upper); }
    assert Search(p, Lower) by { assert InClass(p[1], Lower); }
    assert Search(p, Special) by { assert InClass(p[0], Special); }
  }

  /** `Password1` is made of ASCII letters and digits. */
  lemma PasswordOneIsAlphanumeric()
    ensures forall i :: 0 <= i < |"Password1"| ==> IsAsciiLetterOrDigit("Password1"[i])
  {
  }

  /** RegisterForm's password field: `CharField(max_length=100)`, then `clean_password`. */
  function RegisterPasswordField(raw: Option<string>): Result<string, PasswordFieldError> {
    match CleanCharField(raw, Some(100))
    case Failure(e) => Failure(FieldFailed(e))
    case Success(p) => if CleanPassword(p).Fail? then Failure(Weak(CleanPassword(p).error)) else Success(p)
  }

  /** NewPasswordForm's password field: a `CharField` with no `max_length`, then `clean_password`. */
  function NewPasswordField(raw: Option<string>): Result<string, PasswordFieldError> {
    match CleanCharField(raw, None)
    case Failure(e) => Failure(FieldFailed(e))
    case Success(p) => if CleanPassword(p).Fail? then Failure(Weak(CleanPassword(p).error)) else Success(p)
  }

  datatype PasswordFieldError = FieldFailed(field: FieldError) | Weak(rule: PasswordError)

  /**
   * The two `clean_password` methods are the same rule, so the two forms
   * accept the same passwords, except that RegisterForm's field also caps
   * the (stripped) length at 100.
   */
  lemma PasswordFieldsAgree(raw: Option<string>)
    ensures RegisterPasswordField(raw).Success? <==>
              NewPasswordField(raw).Success? && |NewPasswordField(raw).value| <= 100
    ensures RegisterPasswordField(raw).Success? ==> RegisterPasswordField(raw) == NewPasswordField(raw)
    ensures raw.Some? && |Strip(raw.value)| <= 100 ==> RegisterPasswordField(raw) == NewPasswordField(raw)
  {
  }

  // ---------------------------------------------------------------------
  // RegisterForm
  // ---------------------------------------------------------------------

  predicate IsAsciiLetterOrDigit(c: char) {
    'a' <= c <= 'z' || 'A' <= c <= 'Z' || IsAsciiDigit(c)
  }

  /** `string.ascii_lowercase`, `string.ascii_uppercase` and `string.digits`. */
  const AsciiLowercase: string := "abcdefghijklmnopqrstuvwxyz"
  const AsciiUppercase: string := "ABCDEFGHIJKLMNOPQRSTUVWXYZ"
  const AsciiDigits: string := "0123456789"

  /** `string.ascii_letters + string.digits`. */
  const CaptchaAlphabet: string := AsciiLowercase + AsciiUppercase + AsciiDigits

  /**
   * `generate_code`: six `random.choice` draws from the alphabet; `picks`
   * are the indices the random source chose.
   */
  function GenerateCaptcha(picks: seq<nat>): (code: string)
    requires |picks| == 6 && forall i :: 0 <= i < 6 ==> picks[i] < |CaptchaAlphabet|
    ensures |code| == 6
    ensures forall i :: 0 <= i < 6 ==> code[i] == CaptchaAlphabet[picks[i]]
    ensures forall i :: 0 <= i < 6 ==> IsAsciiLetterOrDigit(code[i])
  {
    CaptchaAlphabetIsAlphanumeric();
    seq(6, i requires 0 <= i < 6 => CaptchaAlphabet[picks[i]])
  }

  /** The captcha alphabet has 62 characters, each an ASCII letter or digit. */
  lemma CaptchaAlphabetIsAlphanumeric()
    ensures |CaptchaAlphabet| == 62
    ensures forall j :: 0 <= j < |CaptchaAlphabet| ==> IsAsciiLetterOrDigit(CaptchaAlphabet[j])
  {
    PartIsAlphanumeric(AsciiLowercase);
    PartIsAlphanumeric(AsciiUppercase);
    PartIsAlphanumeric(AsciiDigits);
    forall j | 0 <= j < |CaptchaAlphabet| ensures IsAsciiLetterOrDigit(CaptchaAlphabet[j]) {
      if j < 26 { assert CaptchaAlphabet[j] == AsciiLowercase[j]; }
      else if j < 52 { assert CaptchaAlphabet[j] == AsciiUppercase[j - 26]; }
      else { assert CaptchaAlphabet[j] == AsciiDigits[j - 52]; }
    }
  }

  /** Each of the three parts of the alphabet is made of ASCII letters or digits. */
  lemma PartIsAlphanumeric(part: string)
    requires part == AsciiLowercase || part == AsciiUppercase || part == AsciiDigits
    ensures forall j :: 0 <= j < |part| ==> IsAsciiLetterOrDigit(part[j])
  {
  }

  /** The fields a registration POST carries (`None`: absent). */
  datatype RegisterPost = RegisterPost(
    name: Option<string>,
    email: Option<string>,
    password: Option<string>,
    repeatPassword: Option<string>,
    codeGeneration: Option<string>,
    confirmCode: Option<string>)

  /** `cleaned_data` after every field has been cleaned: a failed field is absent. */
  datatype RegisterCleaned = RegisterCleaned(
    name: Option<string>,
    email: Option<string>,
    password: Option<string>,
    repeatPassword: Option<string>,
    codeGeneration: Option<string>,
    confirmCode: Option<string>)

  function CleanRegisterFields(post: RegisterPost, isEmail: string -> bool): RegisterCleaned {
    RegisterCleaned(
      Cleaned(CleanCharField(post.name, Some(100))),
      Cleaned(CleanEmailField(post.email, Some(100), isEmail)),
      Cleaned(RegisterPasswordField(post.password)),
      Cleaned(CleanCharField(post.repeatPassword, Some(100))),
      Cleaned(CleanCharField(post.codeGeneration, Some(6))),
      Cleaned(CleanCharField(post.confirmCode, Some(6))))
  }

  /** The non-field errors `RegisterForm.clean` adds with `add_error(None, ...)`. */
  datatype FormError = PasswordsDiffer | CaptchaMismatch

  /** A value Python treats as true in `if password and ...`: present and non-empty. */
  predicate Truthy(v: Option<string>) {
    v.Some? && v.value != ""
  }

  /** `RegisterForm.clean`: the errors it appends, in the order it appends them. */
  function RegisterCleanErrors(c: RegisterCleaned): (errors: seq<FormError>)
    ensures PasswordsDiffer in errors <==> Truthy(c.password) && Truthy(c.repeatPassword) && c.password != c.repeatPassword
    ensures CaptchaMismatch in errors <==> c.confirmCode != c.codeGeneration
    ensures |errors| <= 2 && (|errors| == 2 ==> errors == [PasswordsDiffer, CaptchaMismatch])
  {
    (if Truthy(c.password) && Truthy(c.repeatPassword) && c.password != c.repeatPassword
     then [PasswordsDiffer] else [])
    + (if c.confirmCode != c.codeGeneration then [CaptchaMismatch] else [])
  }

  /** `RegisterForm(request.POST).is_valid()`: every field cleans and `clean` adds no error. */
  predicate RegisterFormIsValid(post: RegisterPost, isEmail: string -> bool) {
    var c := CleanRegisterFields(post, isEmail);
    && c.name.Some? && c.email.Some? && c.password.Some?
    && c.repeatPassword.Some? && c.codeGeneration.Some? && c.confirmCode.Some?
    && RegisterCleanErrors(c) == []
  }

  /**
   * What a valid registration form promises the view: a name, an email and
   * an acceptable password, the repeat equal to the password, and the two
   * captcha fields equal.
   */
  lemma RegisterFormValidMeans(post: RegisterPost, isEmail: string -> bool)
    requires RegisterFormIsValid(post, isEmail)
    ensures var c := CleanRegisterFields(post, isEmail);
            && c.name.Some? && c.name.value != "" && |c.name.value| <= 100
            && c.password == c.repeatPassword
            && c.confirmCode == c.codeGeneration
            && CleanPassword(c.password.value) == Pass
            && c.email.value != "" && |c.email.value| <= 100 && isEmail(c.email.value)
  {
    var c := CleanRegisterFields(post, isEmail);
    assert PasswordsDiffer !in RegisterCleanErrors(c);
  }

  /**
   * A form as `RegisterForm.__init__` builds it: the captcha the server
   * generated is only the initial value shown, the data is what was posted.
   */
  datatype RegisterForm = RegisterForm(initialCaptcha: string, data: Option<RegisterPost>)

  function NewRegisterForm(picks: seq<nat>, data: Option<RegisterPost>): (f: RegisterForm)
    requires |picks| == 6 && forall i :: 0 <= i < 6 ==> picks[i] < |CaptchaAlphabet|
    ensures f.data == data && |f.initialCaptcha| == 6
  {
    RegisterForm(GenerateCaptcha(picks), data)
  }

  predicate IsValid(f: RegisterForm, isEmail: string -> bool) {
    f.data.Some? && RegisterFormIsValid(f.data.value, isEmail)
  }

  /**
   * The captcha compares two POSTED fields: whatever code the server drew
   * for the form, the verdict is the same, and the captcha check passes
   * whenever the posted `confirm_code` equals the posted `code_generation`.
   */
  lemma CaptchaIgnoresServerCode(picks1: seq<nat>, picks2: seq<nat>, post: RegisterPost, isEmail: string -> bool)
    requires |picks1| == 6 && forall i :: 0 <= i < 6 ==> picks1[i] < |CaptchaAlphabet|
    requires |picks2| == 6 && forall i :: 0 <= i < 6 ==> picks2[i] < |CaptchaAlphabet|
    ensures IsValid(NewRegisterForm(picks1, Some(post)), isEmail) == IsValid(NewRegisterForm(picks2, Some(post)), isEmail)
    ensures var c := CleanRegisterFields(post, isEmail);
            CaptchaMismatch !in RegisterCleanErrors(c) <==> c.confirmCode == c.codeGeneration
  {
  }

  // ---------------------------------------------------------------------
  // ForgotPasswordForm
  // ---------------------------------------------------------------------

  datatype EmailError = EmailFieldFailed(field: FieldError) | NoSuchAccount | AccountInactive

  /** `ForgotPasswordForm.clean_email` against the current table. */
  function CleanEmail(rows: seq<Account>, email: string): Outcome<EmailError> {
    if email != "" then
      match FindFirst(rows, ByEmail(email))
      case None => Fail(NoSuchAccount)
      case Some(i) => if !rows[i].isActive then Fail(AccountInactive) else Pass
    else Pass
  }

  /** The forgot-password form: a required `CharField`, then `clean_email`. */
  function ForgotPasswordFormClean(rows: seq<Account>, raw: Option<string>): (r: Result<string, EmailError>)
  {
    match CleanCharField(raw, None)
    case Failure(e) => Failure(EmailFieldFailed(e))
    case Success(email) =>
      if CleanEmail(rows, email).Fail? then Failure(CleanEmail(rows, email).error) else Success(email)
  }

  /**
   * The form refuses an email with no account and an email whose account is
   * inactive, and accepts the email of an active account; an accepted email
   * always names an existing active account.
   */
  lemma ForgotPasswordFormVerdict(rows: seq<Account>, raw: Option<string>)
    requires CleanCharField(raw, None).Success?
    ensures var email := CleanCharField(raw, None).value;
            && (FindFirst(rows, ByEmail(email)).None? ==> ForgotPasswordFormClean(rows, raw) == Failure(NoSuchAccount))
            && (FindFirst(rows, ByEmail(email)).Some? && !rows[FindFirst(rows, ByEmail(email)).value].isActive ==>
                  ForgotPasswordFormClean(rows, raw) == Failure(AccountInactive))
            && (FindFirst(rows, ByEmail(email)).Some? && rows[FindFirst(rows, ByEmail(email)).value].isActive ==>
                  ForgotPasswordFormClean(rows, raw) == Success(email))
    ensures ForgotPasswordFormClean(rows, raw).Success? ==>
              var i := FindFirst(rows, ByEmail(ForgotPasswordFormClean(rows, raw).value));
              i.Some? && rows[i.value].isActive
  {
  }

  // ---------------------------------------------------------------------
  // ConfirmCodeForm
  // ---------------------------------------------------------------------

  /** Python's `str.isdigit` on ASCII text: non-empty and all digits. */
  predicate IsDigits(s: string) {
    |s| > 0 && forall i :: 0 <= i < |s| ==> IsAsciiDigit(s[i])
  }

  datatype CodeError = NotDigits | WrongLength

  /** `ConfirmCodeForm.clean_code`: the digit check first, then the length check. */
  function CleanCode(code: string): Outcome<CodeError> {
    if !IsDigits(code) then Fail(NotDigits)
    else if |code| != 6 then Fail(WrongLength)
    else Pass
  }

  predicate IsSixDigits(s: string) {
    |s| == 6 && forall i :: 0 <= i < 6 ==> IsAsciiDigit(s[i])
  }

  /**
   * `clean_code` accepts exactly six ASCII digits; a value that is both
   * non-numeric and of the wrong length gets the non-digit error.
   */
  lemma CleanCodeVerdict(code: string)
    ensures CleanCode(code) == Pass <==> IsSixDigits(code)
    ensures CleanCode(code) == Fail(WrongLength) <==> IsDigits(code) && |code| != 6
    ensures !IsDigits(code) ==> CleanCode(code) == Fail(NotDigits)
  {
  }

  datatype CodeFieldError = CodeFieldFailed(field: FieldError) | BadCode(code: CodeError)

  /** `ConfirmCodeForm(request.POST)` cleaned: `CharField(max_length=6)`, then `clean_code`. */
  function ConfirmCodeFormClean(raw: Option<string>): Result<string, CodeFieldError> {
    match CleanCharField(raw, Some(6))
    case Failure(e) => Failure(CodeFieldFailed(e))
    case Success(v) => if CleanCode(v).Fail? then Failure(BadCode(CleanCode(v).error)) else Success(v)
  }

  /**
   * The whole form accepts a posted code exactly when, stripped, it is six
   * digits; a code longer than six is stopped by `max_length` before
   * `clean_code` sees it, so the form reports `WrongLength` only for a
   * shorter run of digits.
   */
  lemma ConfirmCodeFormVerdict(raw: Option<string>)
    ensures ConfirmCodeFormClean(raw).Success? <==> raw.Some? && IsSixDigits(Strip(raw.value))
    ensures ConfirmCodeFormClean(raw).Success? ==> ConfirmCodeFormClean(raw).value == Strip(raw.value)
    ensures ConfirmCodeFormClean(raw) == Failure(BadCode(WrongLength)) ==> |Strip(raw.value)| < 6
  {
    if raw.Some? && IsSixDigits(Strip(raw.value)) {
      var v := Strip(raw.value);
      assert forall i :: 0 <= i < 6 ==> v[i] != '\0';
    }
  }

  // ---------------------------------------------------------------------
  // NewPasswordForm
  // ---------------------------------------------------------------------

  datatype NewPasswordError = PasswordFieldFailed(e: PasswordFieldError) | RepeatFieldFailed(f: FieldError) | Mismatch

  /**
   * `NewPasswordForm(request.POST)` cleaned: the password field, the repeat
   * field, then `clean`, which raises when the two cleaned values differ
   * (a failed field counts as `None` in that comparison).
   */
  function NewPasswordFormClean(password: Option<string>, repeat: Option<string>): Result<string, NewPasswordError> {
    var p := NewPasswordField(password);
    var q := CleanCharField(repeat, None);
    if p.Failure? then Failure(PasswordFieldFailed(p.error))
    else if q.Failure? then Failure(RepeatFieldFailed(q.error))
    else if Cleaned(p) != Cleaned(q) then Failure(Mismatch)
    else Success(p.value)
  }

  /** The form accepts exactly an acceptable password posted twice (after strip). */
  lemma NewPasswordFormVerdict(password: Option<string>, repeat: Option<string>)
    ensures NewPasswordFormClean(password, repeat).Success? <==>
              && password.Some? && repeat.Some?
              && Strip(password.value) == Strip(repeat.value)
              && NewPasswordField(password).Success?
    ensures NewPasswordFormClean(password, repeat).Success? ==>
              NewPasswordFormClean(password, repeat).value == Strip(password.value)
              && CleanPassword(Strip(password.value)) == Pass
  {
  }
}
