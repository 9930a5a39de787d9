/**
 * The `post` handlers of account/views.py as steps of a state machine over
 * the table of accounts: each takes the rows (in primary-key order), the
 * posted fields, the current instant and the random draws it may consume,
 * and gives the new rows with an outcome that stands for the redirect, the
 * flash message and the mail sent.
 */
module Lifecycle {
  import opened Wrappers
  import opened Models
  import opened Forms
  import opened Base64Url
  import opened SendEmail

  datatype Step<O> = Step(rows: seq<Account>, outcome: O)

  /** What one issuance draws from the random sources: an integer for the code, bytes for the token. */
  predicate IsDraw(n: int, bytes: seq<byte>) {
    LowestCode <= n <= HighestCode && |bytes| == TokenBytes
  }

  /** A fresh challenge written over an account: code, token and both stamps. */
  function Reissue(a: Account, code: string, token: string, now: Instant): Account {
    a.(token := Some(token), tokenCreatedAt := Some(now), code := Some(code), codeCreatedAt := Some(now))
  }

  // ---------------------------------------------------------------------
  // RegisterPageView.post
  // ---------------------------------------------------------------------

  datatype RegisterOutcome =
    | RegisterRejected           // the form is re-rendered with its errors
    | CodeSent(mail: Mail)       // new account created
    | CodeResent(mail: Mail)     // inactive account, new challenge
    | AlreadyActive              // "already registered and active"

  function Register(rows: seq<Account>, post: RegisterPost, isEmail: string -> bool,
                    now: Instant, n: int, bytes: seq<byte>): Step<RegisterOutcome>
    requires IsDraw(n, bytes)
  {
    if !RegisterFormIsValid(post, isEmail) then Step(rows, RegisterRejected)
    else
      var c := CleanRegisterFields(post, isEmail);
      var email := c.email.value;
      var code, token := GenerateVerificationCode(n), GenerateToken(bytes);
      match FindFirst(rows, ByEmail(email))
      case Some(i) =>
        if !rows[i].isActive then
          Step(rows[i := Reissue(rows[i], code, token, now)], CodeResent(RegistrationMail(email, code, token)))
        else
          Step(rows, AlreadyActive)
      case None =>
        var user := Reissue(SetPassword(NewAccount(email, c.name.value), c.password), code, token, now);
        Step(rows + [user], CodeSent(RegistrationMail(email, code, token)))
  }

  /** The email, name and password a valid registration form carries. */
  function RegisteredEmail(post: RegisterPost, isEmail: string -> bool): string
    requires RegisterFormIsValid(post, isEmail)
  {
    CleanRegisterFields(post, isEmail).email.value
  }

  /**
   * A new email creates one inactive, non-staff account at the end of the
   * table with the posted name and password and a challenge stamped `now`,
   * valid now, and mails its code and registration URL.
   */
  lemma RegisterCreates(rows: seq<Account>, post: RegisterPost, isEmail: string -> bool,
                        now: Instant, n: int, bytes: seq<byte>)
    requires IsDraw(n, bytes) && RegisterFormIsValid(post, isEmail)
    requires FindFirst(rows, ByEmail(RegisteredEmail(post, isEmail))).None?
    ensures var s := Register(rows, post, isEmail, now, n, bytes);
            var c := CleanRegisterFields(post, isEmail);
            var a := s.rows[|rows|];
            && |s.rows| == |rows| + 1 && s.rows[..|rows|] == rows
            && a.email == c.email.value && a.name == c.name.value
            && a.password == Hashed(c.password.value)
            && !a.isActive && !a.isStaff
            && a.code == Some(GenerateVerificationCode(n)) && a.token == Some(GenerateToken(bytes))
            && a.codeCreatedAt == Some(now) && a.tokenCreatedAt == Some(now)
            && IsCodeValid(a, now) && IsTokenValid(a, now)
            && s.outcome == CodeSent(Mail(a.email, a.code.value, RegistrationUrl(a.token.value)))
  {
    var s := Register(rows, post, isEmail, now, n, bytes);
    assert s.rows[..|rows|] == rows;
  }

  /**
   * An existing inactive account gets a new challenge unconditionally, even
   * while its current one is still valid; its name, password and flags are
   * untouched, and so is every other row.
   */
  lemma RegisterReissues(rows: seq<Account>, post: RegisterPost, isEmail: string -> bool,
                         now: Instant, n: int, bytes: seq<byte>, i: nat)
    requires IsDraw(n, bytes) && RegisterFormIsValid(post, isEmail)
    requires FindFirst(rows, ByEmail(RegisteredEmail(post, isEmail))) == Some(i) && !rows[i].isActive
    ensures var s := Register(rows, post, isEmail, now, n, bytes);
            && |s.rows| == |rows|
            && (forall j :: 0 <= j < |rows| && j != i ==> s.rows[j] == rows[j])
            && s.rows[i].email == rows[i].email && s.rows[i].name == rows[i].name
            && s.rows[i].password == rows[i].password && !s.rows[i].isActive && s.rows[i].isStaff == rows[i].isStaff
            && s.rows[i].token == Some(GenerateToken(bytes)) && s.rows[i].code == Some(GenerateVerificationCode(n))
            && s.rows[i].tokenCreatedAt == Some(now) && s.rows[i].codeCreatedAt == Some(now)
            && s.outcome == CodeResent(RegistrationMail(rows[i].email, GenerateVerificationCode(n), GenerateToken(bytes)))
  {
    RegisterReissueStep(rows, post, isEmail, now, n, bytes, i);
    ReissuedRows(rows, i, GenerateVerificationCode(n), GenerateToken(bytes), now);
  }

  /** Reissuing row `i` keeps every other row and every other field of row `i`. */
  lemma ReissuedRows(rows: seq<Account>, i: nat, code: string, token: string, now: Instant)
    requires i < |rows|
    ensures var t := rows[i := Reissue(rows[i], code, token, now)];
            && |t| == |rows|
            && (forall j :: 0 <= j < |rows| && j != i ==> t[j] == rows[j])
            && t[i].email == rows[i].email && t[i].name == rows[i].name
            && t[i].password == rows[i].password && t[i].isActive == rows[i].isActive && t[i].isStaff == rows[i].isStaff
            && t[i].token == Some(token) && t[i].code == Some(code)
            && t[i].tokenCreatedAt == Some(now) && t[i].codeCreatedAt == Some(now)
  {
  }

  /** The step the registration takes for an inactive account. */
  lemma RegisterReissueStep(rows: seq<Account>, post: RegisterPost, isEmail: string -> bool,
                            now: Instant, n: int, bytes: seq<byte>, i: nat)
    requires IsDraw(n, bytes) && RegisterFormIsValid(post, isEmail)
    requires FindFirst(rows, ByEmail(RegisteredEmail(post, isEmail))) == Some(i) && !rows[i].isActive
    ensures var code, token := GenerateVerificationCode(n), GenerateToken(bytes);
            Register(rows, post, isEmail, now, n, bytes)
              == Step(rows[i := Reissue(rows[i], code, token, now)], CodeResent(RegistrationMail(rows[i].email, code, token)))
  {
    assert rows[i].email == RegisteredEmail(post, isEmail);
  }

  /** An active account's email, or an invalid form, changes nothing. */
  lemma RegisterNoChange(rows: seq<Account>, post: RegisterPost, isEmail: string -> bool,
                         now: Instant, n: int, bytes: seq<byte>)
    requires IsDraw(n, bytes)
    ensures !RegisterFormIsValid(post, isEmail) ==> Register(rows, post, isEmail, now, n, bytes) == Step(rows, RegisterRejected)
    ensures RegisterFormIsValid(post, isEmail) ==>
              var i := FindFirst(rows, ByEmail(RegisteredEmail(post, isEmail)));
              i.Some? && rows[i.value].isActive ==> Register(rows, post, isEmail, now, n, bytes) == Step(rows, AlreadyActive)
  {
  }

  // ---------------------------------------------------------------------
  // ForgotPasswordPageView.post
  // ---------------------------------------------------------------------

  datatype ForgotOutcome =
    | ForgotRejected(error: EmailError)   // "please enter a valid email"
    | ResetSent(mail: Mail)               // new reset challenge mailed
    | ResetAlreadySent                    // "a code was already sent, wait 2 minutes"
    | UnknownEmail                        // "the email you entered is wrong"

  function ForgotPassword(rows: seq<Account>, rawEmail: Option<string>, now: Instant,
                          n: int, bytes: seq<byte>): Step<ForgotOutcome>
    requires IsDraw(n, bytes)
  {
    match ForgotPasswordFormClean(rows, rawEmail)
    case Failure(e) => Step(rows, ForgotRejected(e))
    case Success(email) =>
      match FindFirst(rows, ByEmail(email))
      case None => Step(rows, UnknownEmail)
      case Some(i) =>
        if !IsCodeValid(rows[i], now) then
          var code, token := GenerateVerificationCode(n), GenerateToken(bytes);
          Step(rows[i := Reissue(rows[i], code, token, now)], ResetSent(ResetMail(email, code, token)))
        else
          Step(rows, ResetAlreadySent)
  }

  /** While the account's code is still valid, a reset request changes nothing. */
  lemma ForgotPasswordWaits(rows: seq<Account>, rawEmail: Option<string>, now: Instant, n: int, bytes: seq<byte>)
    requires IsDraw(n, bytes)
    requires ForgotPasswordFormClean(rows, rawEmail).Success?
    requires IsCodeValid(rows[FindFirst(rows, ByEmail(ForgotPasswordFormClean(rows, rawEmail).value)).value], now)
    ensures ForgotPassword(rows, rawEmail, now, n, bytes) == Step(rows, ResetAlreadySent)
  {
    ForgotPasswordFormVerdict(rows, rawEmail);
  }

  /**
   * Otherwise the request replaces code and token and stamps both with
   * `now`; email, name, password and `is_active` stay as they were, and it
   * only ever touches an active account (the form refused the others).
   */
  lemma ForgotPasswordReissues(rows: seq<Account>, rawEmail: Option<string>, now: Instant, n: int, bytes: seq<byte>)
    requires IsDraw(n, bytes)
    ensures var s := ForgotPassword(rows, rawEmail, now, n, bytes);
            && |s.rows| == |rows|
            && (forall j :: 0 <= j < |rows| && s.rows[j] != rows[j] ==>
                  && rows[j].isActive && !IsCodeValid(rows[j], now)
                  && s.rows[j] == Reissue(rows[j], GenerateVerificationCode(n), GenerateToken(bytes), now))
            && (s.outcome.ResetSent? <==> s.rows != rows)
            && (s.outcome.ResetSent? ==> s.outcome.mail.url == VerificationUrl(GenerateToken(bytes)))
    ensures ForgotPassword(rows, rawEmail, now, n, bytes).outcome != UnknownEmail
  {
    if ForgotPasswordFormClean(rows, rawEmail).Success? {
      assert CleanCharField(rawEmail, None).Success?;
      ForgotPasswordFormVerdict(rows, rawEmail);
      var i := FindFirst(rows, ByEmail(ForgotPasswordFormClean(rows, rawEmail).value)).value;
      if !IsCodeValid(rows[i], now) {
        var code, token := GenerateVerificationCode(n), GenerateToken(bytes);
        ForgotPasswordReissuesExpired(rows, rawEmail, now, n, bytes);
        ReissuedRows(rows, i, code, token, now);
        ReissueRestampsExpiredCode(rows[i], now);
        assert Reissue(rows[i], code, token, now) != rows[i];
      } else {
        ForgotPasswordWaits(rows, rawEmail, now, n, bytes);
      }
    }
  }

  /**
   * Conversely, a request for a known email whose code has expired (or was
   * never issued) always reissues: the row gets the fresh code and token,
   * stamped `now`, and the reset mail carries the same code and token.
   */
  lemma ForgotPasswordReissuesExpired(rows: seq<Account>, rawEmail: Option<string>, now: Instant, n: int, bytes: seq<byte>)
    requires IsDraw(n, bytes)
    requires ForgotPasswordFormClean(rows, rawEmail).Success?
    requires !IsCodeValid(rows[FindFirst(rows, ByEmail(ForgotPasswordFormClean(rows, rawEmail).value)).value], now)
    ensures var email := ForgotPasswordFormClean(rows, rawEmail).value;
            var i := FindFirst(rows, ByEmail(email)).value;
            var code, token := GenerateVerificationCode(n), GenerateToken(bytes);
            ForgotPassword(rows, rawEmail, now, n, bytes)
              == Step(rows[i := Reissue(rows[i], code, token, now)], ResetSent(ResetMail(email, code, token)))
  {
    ForgotPasswordFormVerdict(rows, rawEmail);
  }

  /** A reissued account is distinguishable from the original when the original code had expired. */
  lemma ReissueRestampsExpiredCode(a: Account, now: Instant)
    requires !IsCodeValid(a, now)
    ensures forall code, token :: Reissue(a, code, token, now).codeCreatedAt != a.codeCreatedAt
  {
  }

  // ---------------------------------------------------------------------
  // VerifyEmailPageView.post (confirming the reset code)
  // ---------------------------------------------------------------------

  datatype VerifyOutcome =
    | CodeAccepted(token: string)   // redirect to the new-password page for this token
    | WrongCode                     // "the code is wrong"
    | LinkInvalid                   // the form is re-rendered, nothing said

  /** The handler reads the table and never writes it, so it returns only its outcome. */
  function VerifyEmail(rows: seq<Account>, token: string, rawCode: Option<string>, now: Instant): VerifyOutcome {
    var form := ConfirmCodeFormClean(rawCode);
    var user := FindFirst(rows, ByToken(token));
    if form.Success? && user.Some? && IsTokenValid(rows[user.value], now) then
      if rows[user.value].code == Some(form.value) then CodeAccepted(token) else WrongCode
    else LinkInvalid
  }

  /**
   * A reset code is accepted exactly when the posted code, stripped, is six
   * digits equal to the stored code of the first account holding the
   * token, and that token is still valid.
   */
  lemma VerifyEmailAccepts(rows: seq<Account>, token: string, rawCode: Option<string>, now: Instant)
    ensures VerifyEmail(rows, token, rawCode, now).CodeAccepted? <==>
              && rawCode.Some? && IsSixDigits(Strip(rawCode.value))
              && FindFirst(rows, ByToken(token)).Some?
              && IsTokenValid(rows[FindFirst(rows, ByToken(token)).value], now)
              && rows[FindFirst(rows, ByToken(token)).value].code == Some(Strip(rawCode.value))
  {
    ConfirmCodeFormVerdict(rawCode);
  }

  // ---------------------------------------------------------------------
  // NewPasswordPageView.post
  // ---------------------------------------------------------------------

  datatype NewPasswordOutcome = PasswordChanged | NewPasswordRejected

  function NewPassword(rows: seq<Account>, token: string, password: Option<string>,
                       repeat: Option<string>, now: Instant): Step<NewPasswordOutcome>
  {
    var form := NewPasswordFormClean(password, repeat);
    var user := FindFirst(rows, ByToken(token));
    if form.Success? && user.Some? && IsTokenValid(rows[user.value], now) then
      var i := user.value;
      Step(rows[i := rows[i].(password := Hashed(form.value), code := Some(""), token := Some(""))], PasswordChanged)
    else
      Step(rows, NewPasswordRejected)
  }

  /**
   * A new password is taken exactly when the form is valid and an account
   * holds the still-valid token, active or not; it is stored and code and
   * token become `''`, with nothing else changed. Otherwise nothing changes.
   */
  lemma NewPasswordEffect(rows: seq<Account>, token: string, password: Option<string>, repeat: Option<string>, now: Instant)
    ensures var s := NewPassword(rows, token, password, repeat, now);
            var user := FindFirst(rows, ByToken(token));
            && (s.outcome == PasswordChanged <==>
                  NewPasswordFormClean(password, repeat).Success? && user.Some? && IsTokenValid(rows[user.value], now))
            && (s.outcome == NewPasswordRejected ==> s.rows == rows)
            && (s.outcome == PasswordChanged ==>
                  && |s.rows| == |rows|
                  && (forall j :: 0 <= j < |rows| && j != user.value ==> s.rows[j] == rows[j])
                  && s.rows[user.value] == rows[user.value].(password := Hashed(Strip(password.value)), code := Some(""), token := Some(""))
                  && CleanPassword(Strip(password.value)) == Pass)
  {
    NewPasswordFormVerdict(password, repeat);
  }

  /**
   * After a successful reset, posting again with the same (non-empty) token
   * finds no account and changes nothing, provided tokens were unique.
   */
  lemma NewPasswordNotReplayable(rows: seq<Account>, token: string, password: Option<string>, repeat: Option<string>,
                                 now: Instant, password2: Option<string>, repeat2: Option<string>, code2: Option<string>,
                                 later: Instant)
    requires TokensUnique(rows) && token != ""
    requires NewPassword(rows, token, password, repeat, now).outcome == PasswordChanged
    ensures var s := NewPassword(rows, token, password, repeat, now);
            && FindFirst(s.rows, ByToken(token)).None?
            && NewPassword(s.rows, token, password2, repeat2, later) == Step(s.rows, NewPasswordRejected)
            && VerifyEmail(s.rows, token, code2, later) == LinkInvalid
  {
    var s := NewPassword(rows, token, password, repeat, now);
    var i := FindFirst(rows, ByToken(token)).value;
    forall j | 0 <= j < |s.rows| ensures !Matches(s.rows[j], ByToken(token)) {
      if j != i {
        assert s.rows[j] == rows[j];
        if j < i {
          assert !Matches(rows[j], ByToken(token));
        } else {
          assert rows[i].token.Some?;
        }
      }
    }
  }

  /**
   * The `token` column is declared unique, but the handler writes `''`, not
   * `None`. The model saves rows without enforcing that constraint, so once
   * two accounts complete a reset, both hold `''` and the uniqueness of
   * non-NULL tokens is broken. A database that enforces the constraint
   * refuses the second save instead (an `IntegrityError`): that password is
   * not changed, and no other account can finish a reset while some row
   * still holds `''`.
   */
  lemma SecondResetBreaksUniqueTokens(rows: seq<Account>, i: nat, j: nat, t1: string, t2: string,
                                      p: string, now: Instant)
    requires i < j < |rows| && TokensUnique(rows) && !TokenInUse(rows, "")
    requires rows[i].token == Some(t1) && rows[j].token == Some(t2)
    requires IsTokenValid(rows[i], now) && IsTokenValid(rows[j], now)
    requires NewPasswordFormClean(Some(p), Some(p)).Success?
    ensures var s1 := NewPassword(rows, t1, Some(p), Some(p), now);
            var s2 := NewPassword(s1.rows, t2, Some(p), Some(p), now);
            && s1.outcome == PasswordChanged && s2.outcome == PasswordChanged
            && TokensUnique(s1.rows) && !TokensUnique(s2.rows)
  {
    var h := Hashed(NewPasswordFormClean(Some(p), Some(p)).value);
    assert FindFirst(rows, ByToken(t1)) == Some(i);
    ResetOfHolder(rows, i, t1, Some(p), Some(p), now);
    var rows1 := rows[i := rows[i].(password := h, code := Some(""), token := Some(""))];
    FirstResetKeepsUnique(rows, i, j, t2, rows1);
    ResetOfHolder(rows1, j, t2, Some(p), Some(p), now);
    var rows2 := rows1[j := rows1[j].(password := h, code := Some(""), token := Some(""))];
    assert rows2[i].token == Some("") && rows2[j].token == Some("");
  }

  /** After the first reset the tokens are still unique, and the second token is found where it was. */
  lemma FirstResetKeepsUnique(rows: seq<Account>, i: nat, j: nat, t2: string, rows1: seq<Account>)
    requires i < j < |rows| && TokensUnique(rows)
    requires rows[j].token == Some(t2) && !TokenInUse(rows, "")
    requires |rows1| == |rows| && rows1[i].token == Some("")
    requires forall k :: 0 <= k < |rows| && k != i ==> rows1[k] == rows[k]
    ensures TokensUnique(rows1)
    ensures FindFirst(rows1, ByToken(t2)) == Some(j)
  {
    forall m | 0 <= m < j ensures !Matches(rows1[m], ByToken(t2)) {
      if m != i { assert rows1[m] == rows[m]; }
    }
  }

  /** The reset of the account that holds the token, when its form passes and its token is valid. */
  lemma ResetOfHolder(rows: seq<Account>, i: nat, t: string, password: Option<string>, repeat: Option<string>, now: Instant)
    requires FindFirst(rows, ByToken(t)) == Some(i) && IsTokenValid(rows[i], now)
    requires NewPasswordFormClean(password, repeat).Success?
    ensures NewPassword(rows, t, password, repeat, now) ==
              Step(rows[i := rows[i].(password := Hashed(NewPasswordFormClean(password, repeat).value),
                                      code := Some(""), token := Some(""))], PasswordChanged)
  {
  }

  /** A password that the new-password form accepts, so the lemma above is not vacuous. */
  lemma SomePasswordIsAccepted()
    ensures NewPasswordFormClean(Some("Password1"), Some("Password1")) == Success("Password1")
  {
    var p := "Password1";
    SymbolFreePasswordAccepted();
    PasswordOneIsStripped();
    assert CleanCharField(Some(p), None) == Success(p);
    assert NewPasswordField(Some(p)) == Success(p);
    NewPasswordFormVerdict(Some(p), Some(p));
  }

  /** `Password1` has no surrounding whitespace and no NUL, so the char field keeps it as it is. */
  lemma PasswordOneIsStripped()
    ensures Strip("Password1") == "Password1" && '\0' !in "Password1"
  {
    var p := "Password1";
    assert LeadingSpaces(p) == 0;
    assert TrailingStart(p) == |p|;
  }

  // ---------------------------------------------------------------------
  // ConfirmRegistrationCodeView.post
  // ---------------------------------------------------------------------

  datatype ConfirmOutcome = Activated | ConfirmWrongCode | ConfirmExpired

  /**
   * Compares the RAW posted `code` (no form, no strip; `None` when absent)
   * with the stored one, and checks `is_code_valid`, not `is_token_valid`.
   */
  function ConfirmRegistration(rows: seq<Account>, token: string, codeInput: Option<string>, now: Instant): Step<ConfirmOutcome> {
    match FindFirst(rows, ByToken(token))
    case None => Step(rows, ConfirmExpired)
    case Some(i) =>
      if !IsCodeValid(rows[i], now) then Step(rows, ConfirmExpired)
      else if rows[i].code == codeInput then Step(rows[i := rows[i].(isActive := true)], Activated)
      else Step(rows, ConfirmWrongCode)
  }

  /**
   * Activation happens exactly when an account holds the token, its code is
   * still valid and the stored code equals the raw input; only `is_active`
   * of that account changes, code and token are never cleared, and on any
   * failure nothing changes.
   */
  lemma ConfirmRegistrationEffect(rows: seq<Account>, token: string, codeInput: Option<string>, now: Instant)
    ensures var s := ConfirmRegistration(rows, token, codeInput, now);
            var user := FindFirst(rows, ByToken(token));
            && (s.outcome == Activated <==>
                  user.Some? && IsCodeValid(rows[user.value], now) && rows[user.value].code == codeInput)
            && (s.outcome != Activated ==> s.rows == rows)
            && (s.outcome == Activated ==> s.rows == rows[user.value := rows[user.value].(isActive := true)])
            && |s.rows| == |rows|
            && (forall j :: 0 <= j < |rows| ==> s.rows[j].token == rows[j].token && s.rows[j].code == rows[j].code)
  {
  }

  // ---------------------------------------------------------------------
  // Properties of the whole machine
  // ---------------------------------------------------------------------

  /**
   * The scenario of a registration: right after it, the wrong code leaves
   * the account inactive and the mailed code activates it, at any instant
   * before the two minutes are up.
   */
  lemma RegisterThenConfirm(rows: seq<Account>, post: RegisterPost, isEmail: string -> bool,
                            now: Instant, later: Instant, n: int, bytes: seq<byte>, wrong: Option<string>)
    requires IsDraw(n, bytes) && RegisterFormIsValid(post, isEmail)
    requires FindFirst(rows, ByEmail(RegisteredEmail(post, isEmail))).None?
    requires !TokenInUse(rows, GenerateToken(bytes))
    requires now <= later < now + ChallengeLifetime
    requires wrong != Some(GenerateVerificationCode(n))
    ensures var s := Register(rows, post, isEmail, now, n, bytes);
            var t := GenerateToken(bytes);
            var k := |rows|;
            && |s.rows| == k + 1
            && ConfirmRegistration(s.rows, t, wrong, later) == Step(s.rows, ConfirmWrongCode)
            && !s.rows[k].isActive
            && ConfirmRegistration(s.rows, t, Some(GenerateVerificationCode(n)), later).outcome == Activated
            && |ConfirmRegistration(s.rows, t, Some(GenerateVerificationCode(n)), later).rows| == k + 1
            && ConfirmRegistration(s.rows, t, Some(GenerateVerificationCode(n)), later).rows[k].isActive
  {
    var s := Register(rows, post, isEmail, now, n, bytes);
    RegisterCreates(rows, post, isEmail, now, n, bytes);
    NewRowIsFirstHolder(rows, s.rows, GenerateToken(bytes));
    ConfirmHolder(s.rows, |rows|, GenerateToken(bytes), GenerateVerificationCode(n), later, wrong);
  }

  /** Confirming against the account that holds the token while its code is valid. */
  lemma ConfirmHolder(rows: seq<Account>, k: nat, t: string, code: string, now: Instant, wrong: Option<string>)
    requires FindFirst(rows, ByToken(t)) == Some(k) && rows[k].code == Some(code) && IsCodeValid(rows[k], now)
    requires wrong != Some(code)
    ensures ConfirmRegistration(rows, t, wrong, now) == Step(rows, ConfirmWrongCode)
    ensures ConfirmRegistration(rows, t, Some(code), now) == Step(rows[k := rows[k].(isActive := true)], Activated)
  {
  }

  /** A token held by no earlier row is found on the row appended after them. */
  lemma NewRowIsFirstHolder(rows: seq<Account>, rows': seq<Account>, t: string)
    requires !TokenInUse(rows, t)
    requires |rows'| == |rows| + 1 && rows'[..|rows|] == rows && rows'[|rows|].token == Some(t)
    ensures FindFirst(rows', ByToken(t)) == Some(|rows|)
  {
    forall j | 0 <= j < |rows| ensures !Matches(rows'[j], ByToken(t)) {
      assert rows'[j] == rows[j];
    }
  }

  /**
   * Registration and reset share the challenge fields, so a registration
   * challenge also opens the reset route: its code is accepted there, and
   * the new-password handler then sets the password of the still-inactive
   * account.
   */
  lemma RegistrationChallengeOpensReset(rows: seq<Account>, post: RegisterPost, isEmail: string -> bool,
                                        now: Instant, n: int, bytes: seq<byte>, p: string)
    requires IsDraw(n, bytes) && RegisterFormIsValid(post, isEmail)
    requires FindFirst(rows, ByEmail(RegisteredEmail(post, isEmail))).None?
    requires !TokenInUse(rows, GenerateToken(bytes))
    requires NewPasswordFormClean(Some(p), Some(p)).Success?
    ensures var s := Register(rows, post, isEmail, now, n, bytes);
            var t := GenerateToken(bytes);
            var s2 := NewPassword(s.rows, t, Some(p), Some(p), now);
            && VerifyEmail(s.rows, t, Some(GenerateVerificationCode(n)), now) == CodeAccepted(t)
            && s2.outcome == PasswordChanged
            && |s2.rows| == |rows| + 1
            && !s2.rows[|rows|].isActive
            && s2.rows[|rows|].password == Hashed(Strip(p))
  {
    var s := Register(rows, post, isEmail, now, n, bytes);
    var t, code := GenerateToken(bytes), GenerateVerificationCode(n);
    RegisterCreates(rows, post, isEmail, now, n, bytes);
    NewRowIsFirstHolder(rows, s.rows, t);
    CodeIsStripped(n);
    VerifyHolder(s.rows, |rows|, t, code, now);
    ResetOfHolder(s.rows, |rows|, t, Some(p), Some(p), now);
    NewPasswordFormVerdict(Some(p), Some(p));
  }

  /** A generated code has no surrounding whitespace. */
  lemma CodeIsStripped(n: int)
    requires LowestCode <= n <= HighestCode
    ensures Strip(GenerateVerificationCode(n)) == GenerateVerificationCode(n)
    ensures IsSixDigits(GenerateVerificationCode(n))
  {
    var code := GenerateVerificationCode(n);
    assert !IsSpace(code[0]) && !IsSpace(code[5]);
    assert LeadingSpaces(code) == 0;
    assert TrailingStart(code) == 6;
  }

  /** Checking the stored code of the account that holds a valid token. */
  lemma VerifyHolder(rows: seq<Account>, k: nat, t: string, code: string, now: Instant)
    requires FindFirst(rows, ByToken(t)) == Some(k) && rows[k].code == Some(code) && IsTokenValid(rows[k], now)
    requires Strip(code) == code && IsSixDigits(code)
    ensures VerifyEmail(rows, t, Some(code), now) == CodeAccepted(t)
  {
    VerifyEmailAccepts(rows, t, Some(code), now);
  }

  /**
   * Registration keeps the non-NULL tokens unique provided the token drawn
   * is not already in use (the source does not check; with 150 random bytes
   * a collision is negligible but not excluded).
   */
  lemma RegisterKeepsTokensUnique(rows: seq<Account>, post: RegisterPost, isEmail: string -> bool,
                                  now: Instant, n: int, bytes: seq<byte>)
    requires IsDraw(n, bytes) && TokensUnique(rows) && !TokenInUse(rows, GenerateToken(bytes))
    ensures TokensUnique(Register(rows, post, isEmail, now, n, bytes).rows)
  {
    if RegisterFormIsValid(post, isEmail) {
      var c := CleanRegisterFields(post, isEmail);
      var code, token := GenerateVerificationCode(n), GenerateToken(bytes);
      match FindFirst(rows, ByEmail(c.email.value))
      case Some(i) =>
        if !rows[i].isActive {
          UpdateFreshKeepsUnique(rows, i, Reissue(rows[i], code, token, now));
        }
      case None =>
        AppendFreshKeepsUnique(rows, Reissue(SetPassword(NewAccount(c.email.value, c.name.value), c.password), code, token, now));
    }
  }

  /** Appending a row whose token no row holds keeps tokens unique. */
  lemma AppendFreshKeepsUnique(rows: seq<Account>, a: Account)
    requires TokensUnique(rows)
    requires a.token.Some? && !TokenInUse(rows, a.token.value)
    ensures TokensUnique(rows + [a])
  {
    var rows' := rows + [a];
    forall i, j | 0 <= i < j < |rows'| && rows'[i].token.Some? ensures rows'[i].token != rows'[j].token {
      assert rows'[i] == rows[i];
      if j < |rows| {
        assert rows'[j] == rows[j];
      }
    }
  }

  /** Overwriting a row with one whose token no row holds keeps tokens unique. */
  lemma UpdateFreshKeepsUnique(rows: seq<Account>, k: nat, a: Account)
    requires TokensUnique(rows) && k < |rows|
    requires a.token.Some? && !TokenInUse(rows, a.token.value)
    ensures TokensUnique(rows[k := a])
  {
    var rows' := rows[k := a];
    forall i, j | 0 <= i < j < |rows'| && rows'[i].token.Some? ensures rows'[i].token != rows'[j].token {
      if i == k {
        assert rows'[j] == rows[j];
      } else if j == k {
        assert rows'[i] == rows[i];
      } else {
        assert rows'[i] == rows[i] && rows'[j] == rows[j];
      }
    }
  }

  /** So does a reset request, under the same proviso. */
  lemma ForgotPasswordKeepsTokensUnique(rows: seq<Account>, rawEmail: Option<string>, now: Instant, n: int, bytes: seq<byte>)
    requires IsDraw(n, bytes) && TokensUnique(rows) && !TokenInUse(rows, GenerateToken(bytes))
    ensures TokensUnique(ForgotPassword(rows, rawEmail, now, n, bytes).rows)
  {
    match ForgotPasswordFormClean(rows, rawEmail)
    case Failure(_) =>
    case Success(email) =>
      match FindFirst(rows, ByEmail(email))
      case None =>
      case Some(i) =>
        if !IsCodeValid(rows[i], now) {
          UpdateFreshKeepsUnique(rows, i, Reissue(rows[i], GenerateVerificationCode(n), GenerateToken(bytes), now));
        }
  }

  /** Confirming a registration never touches a token. */
  lemma ConfirmKeepsTokensUnique(rows: seq<Account>, token: string, codeInput: Option<string>, now: Instant)
    requires TokensUnique(rows)
    ensures TokensUnique(ConfirmRegistration(rows, token, codeInput, now).rows)
  {
    var s := ConfirmRegistration(rows, token, codeInput, now);
    ConfirmRegistrationEffect(rows, token, codeInput, now);
    assert forall j :: 0 <= j < |rows| ==> s.rows[j].token == rows[j].token;
  }

  /** A reset keeps tokens unique if no account already holds `''`. */
  lemma NewPasswordKeepsTokensUnique(rows: seq<Account>, token: string, password: Option<string>, repeat: Option<string>, now: Instant)
    requires TokensUnique(rows) && !TokenInUse(rows, "")
    ensures TokensUnique(NewPassword(rows, token, password, repeat, now).rows)
  {
  }
}
