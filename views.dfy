/**
 * The POST handlers of account/views.py over the table of accounts: each
 * method reads a row, assigns its fields one after another and saves it,
 * as the handler does, and its contract ties the new table and the outcome
 * to the step of the state machine in module Lifecycle.
 */
module Views {
  import opened Wrappers
  import opened Models
  import opened Forms
  import opened Base64Url
  import opened SendEmail
  import Lifecycle

  class AccountViews {
    /** The table every handler reads and writes. */
    const table: AccountTable

    constructor (table: AccountTable)
      ensures this.table == table
    {
      this.table := table;
    }

    /** `RegisterPageView.post`. */
    method Register(post: RegisterPost, isEmail: string -> bool, now: Instant, n: int, bytes: seq<byte>)
      returns (outcome: Lifecycle.RegisterOutcome)
      requires table.Valid() && Lifecycle.IsDraw(n, bytes)
      modifies table
      ensures table.Valid()
      ensures table.rows == Lifecycle.Register(old(table.rows), post, isEmail, now, n, bytes).rows
      ensures outcome == Lifecycle.Register(old(table.rows), post, isEmail, now, n, bytes).outcome
    {
      if !RegisterFormIsValid(post, isEmail) {
        return Lifecycle.RegisterRejected;
      }
      var data := CleanRegisterFields(post, isEmail);
      var name, email, password := data.name.value, data.email.value, data.password.value;
      DefaultTokenShape(bytes);
      var found := FindFirst(table.rows, ByEmail(email));
      if found.None? {
        // get_or_create made a new row: set the password and a first challenge.
        var user := NewAccount(email, name);
        user := SetPassword(user, Some(password));
        var token := GenerateToken(bytes);
        user := user.(token := Some(token));
        user := user.(tokenCreatedAt := Some(now));
        var code := GenerateVerificationCode(n);
        user := user.(code := Some(code));
        user := user.(codeCreatedAt := Some(now));
        AppendWellFormed(table.rows, user);
        table.rows := table.rows + [user];
        outcome := Lifecycle.CodeSent(RegistrationMail(email, code, token));
      } else {
        var i := found.value;
        var user := table.rows[i];
        if !user.isActive {
          var token := GenerateToken(bytes);
          user := user.(token := Some(token));
          user := user.(tokenCreatedAt := Some(now));
          var code := GenerateVerificationCode(n);
          user := user.(code := Some(code));
          user := user.(codeCreatedAt := Some(now));
          UpdateWellFormed(table.rows, i, user);
          table.rows := table.rows[i := user];
          outcome := Lifecycle.CodeResent(RegistrationMail(email, code, token));
        } else {
          outcome := Lifecycle.AlreadyActive;
        }
      }
    }

    /** `ForgotPasswordPageView.post`. */
    method ForgotPassword(rawEmail: Option<string>, now: Instant, n: int, bytes: seq<byte>)
      returns (outcome: Lifecycle.ForgotOutcome)
      requires table.Valid() && Lifecycle.IsDraw(n, bytes)
      modifies table
      ensures table.Valid()
      ensures table.rows == Lifecycle.ForgotPassword(old(table.rows), rawEmail, now, n, bytes).rows
      ensures outcome == Lifecycle.ForgotPassword(old(table.rows), rawEmail, now, n, bytes).outcome
    {
      var form := ForgotPasswordFormClean(table.rows, rawEmail);
      if form.Failure? {
        return Lifecycle.ForgotRejected(form.error);
      }
      var email := form.value;
      var found := FindFirst(table.rows, ByEmail(email));
      if found.None? {
        return Lifecycle.UnknownEmail;
      }
      var i := found.value;
      var user := table.rows[i];
      if !IsCodeValid(user, now) {
        DefaultTokenShape(bytes);
        var code := GenerateVerificationCode(n);
        var token := GenerateToken(bytes);
        user := user.(code := Some(code));
        user := user.(token := Some(token));
        user := user.(codeCreatedAt := Some(now));
        user := user.(tokenCreatedAt := Some(now));
        UpdateWellFormed(table.rows, i, user);
        table.rows := table.rows[i := user];
        outcome := Lifecycle.ResetSent(ResetMail(email, code, token));
      } else {
        outcome := Lifecycle.ResetAlreadySent;
      }
    }

    /** `VerifyEmailPageView.post`: reads the table and changes nothing. */
    method VerifyEmail(token: string, rawCode: Option<string>, now: Instant)
      returns (outcome: Lifecycle.VerifyOutcome)
      ensures outcome == Lifecycle.VerifyEmail(table.rows, token, rawCode, now)
    {
      var form := ConfirmCodeFormClean(rawCode);
      var found := FindFirst(table.rows, ByToken(token));
      if form.Success? && found.Some? && IsTokenValid(table.rows[found.value], now) {
        var code := form.value;
        if table.rows[found.value].code == Some(code) {
          outcome := Lifecycle.CodeAccepted(token);
        } else {
          outcome := Lifecycle.WrongCode;
        }
      } else {
        outcome := Lifecycle.LinkInvalid;
      }
    }

    /** `NewPasswordPageView.post`. */
    method NewPassword(token: string, password: Option<string>, repeat: Option<string>, now: Instant)
      returns (outcome: Lifecycle.NewPasswordOutcome)
      requires table.Valid()
      modifies table
      ensures table.Valid()
      ensures table.rows == Lifecycle.NewPassword(old(table.rows), token, password, repeat, now).rows
      ensures outcome == Lifecycle.NewPassword(old(table.rows), token, password, repeat, now).outcome
    {
      var form := NewPasswordFormClean(password, repeat);
      var found := FindFirst(table.rows, ByToken(token));
      if form.Success? && found.Some? && IsTokenValid(table.rows[found.value], now) {
        var i := found.value;
        var user := table.rows[i];
        user := user.(password := Hashed(form.value));
        user := user.(code := Some(""));
        user := user.(token := Some(""));
        UpdateWellFormed(table.rows, i, user);
        table.rows := table.rows[i := user];
        outcome := Lifecycle.PasswordChanged;
      } else {
        outcome := Lifecycle.NewPasswordRejected;
      }
    }

    /** `ConfirmRegistrationCodeView.post`; `codeInput` is `request.POST.get('code')`. */
    method ConfirmRegistration(token: string, codeInput: Option<string>, now: Instant)
      returns (outcome: Lifecycle.ConfirmOutcome)
      requires table.Valid()
      modifies table
      ensures table.Valid()
      ensures table.rows == Lifecycle.ConfirmRegistration(old(table.rows), token, codeInput, now).rows
      ensures outcome == Lifecycle.ConfirmRegistration(old(table.rows), token, codeInput, now).outcome
    {
      var found := FindFirst(table.rows, ByToken(token));
      if found.Some? && IsCodeValid(table.rows[found.value], now) {
        var i := found.value;
        var user := table.rows[i];
        if user.code == codeInput {
          user := user.(isActive := true);
          UpdateWellFormed(table.rows, i, user);
          table.rows := table.rows[i := user];
          outcome := Lifecycle.Activated;
        } else {
          outcome := Lifecycle.ConfirmWrongCode;
        }
      } else {
        outcome := Lifecycle.ConfirmExpired;
      }
    }
  }
}
