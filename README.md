# Account challenges: a Dafny model

This project models the `account` application of a Django site. The
application registers users by email. It confirms a registration with a
six-digit code, mailed together with a link that carries a random token. It
resets a forgotten password with the same code-and-token challenge.
What is modelled:

- **Models** (`models.dfy`): the `UserAccount` row and the two validity
  predicates `is_token_valid` and `is_code_valid` (a strict two-minute
  window).
  - The manager's `create_user` and `create_superuser` are methods of the
    class `AccountTable`, which holds the table as a sequence in
    primary-key order. So `filter(...).first()` is the lowest matching
    index (`FindFirst`).
  - The table's invariant `Valid()` holds the column constraints and the
    uniqueness of emails. It also holds that each row's two stamps
    `token_created_at` and `code_created_at` are equal. That holds because
    every handler writes both stamps from the one instant `now` it is given.
  - The uniqueness of non-NULL tokens is stated separately, as
    `TokensUnique`, because the views break it.
- **Forms** (`forms.dfy`): the four forms, each as a function that returns
  the cleaned value or the error the source raises.
  - Django's own `CharField`/`EmailField` cleaning is modelled too, because
    it decides what reaches the `clean_*` methods: strip, required,
    `max_length`, no NUL character.
  - The password rules of `clean_password`, with the special-character class
    read exactly as the regex engine reads it. Its `=-{` is a range.
  - The captcha generator and `RegisterForm.clean`.
- **Base64Url** (`base64url.dfy`): URL-safe base64 with padding, as in
  section 5 of RFC 4648, which `base64.urlsafe_b64encode` implements. It
  comes with a decoder, proved a left inverse of the encoder.
- **SendEmail** (`send_email.py` → `send_email.dfy`): the code generator
  (`str(randint(100000, 999999))`), the token generator (150 random bytes,
  base64url-encoded) and the two URLs the mails carry.
- **Lifecycle** (`lifecycle.dfy`): the five POST handlers of `views.py` as
  pure steps over the table. Each step takes the rows, the posted fields,
  the current instant and the random draws. It returns the new rows and an
  outcome that stands for the flash message, the redirect and the mail
  sent. The lemmas about the whole machine live here.
- **Views** (`views.dfy`): the same handlers as methods of
  `AccountViews`. Each method finds the row, assigns its fields in the
  source's order and saves it back into the table. Each method's `ensures`
  ties the new table and the outcome to the Lifecycle step.

The randomness and the clock are parameters:

- the integer drawn for the code (`n`);
- the 150 bytes drawn for the token (`bytes`);
- the six indices drawn for the captcha (`picks`);
- the current instant `now`, an integer count of microseconds.

Library code the model cannot see is also a parameter or an uninterpreted
constructor:

- `normalize_email` is a function parameter;
- the email validator is a function parameter;
- `set_password` stores `Hashed(raw)`.

The model does what the code does, including where the code behaves in
ways a reader may not expect. Lemmas state the consequences:

- An inactive account that registers again always gets a new challenge,
  even while its current one is valid (`Lifecycle.RegisterReissues`,
  account/views.py:159-167). The reset route, in contrast, waits until the
  code has expired (account/views.py:63, 73-74; `Lifecycle.ForgotPasswordWaits`).
- `clean_password` raises on the first rule that fails, so only the first
  broken rule is reported (`Forms.CleanPasswordReportsFirstViolation`,
  account/forms.py:44-57).
- The special-character class `[!@#$%^&*()_+=-{};:'<>,./?]` reads like a
  list of symbols, but its `=-{` is the range `=`..`{`, which contains every
  uppercase letter (account/forms.py:56). So the special rule can never fail
  on its own (`Forms.SpecialRuleIsRedundant`), and `Password1`, which has no
  symbol at all, is accepted (`Forms.SymbolFreePasswordAccepted`).
- Registration and reset share one code and one token. A registration
  challenge therefore opens the password-reset route, and an inactive
  account's password can be set there
  (`Lifecycle.RegistrationChallengeOpensReset`).
- Confirming a registration checks `is_code_valid`, compares the raw posted
  code, and never clears the challenge (`Lifecycle.ConfirmRegistrationEffect`).
- A reset writes `''`, not NULL, into the `token` column, which is declared
  unique (account/models.py:28; account/views.py:134-136). The model does
  not enforce uniqueness when a row is saved, so it shows two accounts
  holding `''` after two resets (`Lifecycle.SecondResetBreaksUniqueTokens`).
  A database that enforces the UNIQUE constraint refuses the second such
  save instead. The `user.save()` at account/views.py:136 then raises
  `IntegrityError`, and that account's password is not changed. From then
  on no other account can finish a reset until the row holding `''` gets a
  new token from a reset request or a registration.
- Registration looks the email up as posted, without normalising its case.
  Only `create_user` normalises.

## Model

| member | source | states |
|---|---|---|
| Models.IsTokenValid | account/models.py:40-43 | `is_token_valid`; its contract is stated by `Models.TokenWindow` and `Models.TokenWithoutStampIsInvalid` |
| Models.IsCodeValid | account/models.py:45-48 | `is_code_valid`; its contract is stated by `Models.CodeWindow` |
| Models.TokenWindow | account/models.py:40-43 | a token stamped at t is valid exactly at instants before t + 120 s: still valid at +119 s and at 120 s minus one microsecond, invalid at +120 s |
| Models.TokenWithoutStampIsInvalid | account/models.py:40-43 | with no `token_created_at` the token is never valid |
| Models.CodeWindow | account/models.py:45-48 | the same strict two-minute window for the code, measured from `code_created_at` |
| Models.ExpiryIsPermanent | account/models.py:40-48 | once a token or code is expired it stays expired at every later instant |
| Models.ValidityReadsOwnStampOnly | account/models.py:40-48 | each validity predicate depends on its own timestamp and on no other field |
| Models.ValiditiesCanDisagree | account/models.py:40-48 | a valid code can sit beside an expired token, so the two checks are not interchangeable |
| Models.EqualStampsAgree | account/models.py:40-48 | when both stamps are equal the two predicates agree |
| Models.HasPerm | account/models.py:60-61 | every account has every permission on any object |
| Models.HasModulePerms | account/models.py:63-64 | every account may see every app |
| Models.NewAccount | account/models.py:24-33 | a new row has the given email and name, is inactive and non-staff, and has no token, code or stamps, so neither validity check holds at any instant |
| Models.SetPassword | account/models.py:12 | `set_password(raw)` stores the hash of raw, `set_password(None)` an unusable password; nothing else changes |
| Models.FindFirst | account/views.py:61 | `filter(...).first()`: the lowest index of a matching row, and None exactly when no row matches |
| Models.AccountTable.CreateUser | account/models.py:7-14 | an empty email fails with nothing saved; otherwise the normalised email, name and password are appended as one new row, or the call fails unchanged when that email exists; the table invariant is kept |
| Models.AccountTable.CreateSuperuser | account/models.py:16-21 | `create_user` followed by `is_staff = True` on the saved row: an empty email fails, an existing email fails with the duplicate error, a new email always succeeds; on success the one appended row is staff and inactive, on failure nothing changes |
| Models.WellFormed | account/models.py:26-31 | the table invariant: `token` and `code` within their `max_length` (200 and 6), each present exactly when its stamp is, both stamps equal, and emails unique (`unique=True`); `Models.AccountTable.CreateUser`, `Models.AccountTable.CreateSuperuser` and the `Views.AccountViews` methods keep it |
| Models.TokensUnique | account/models.py:28 | the `unique=True` of `token`: non-NULL tokens are pairwise distinct, with `''` not exempt; its preservation is stated by `Lifecycle.RegisterKeepsTokensUnique`, `Lifecycle.ForgotPasswordKeepsTokensUnique`, `Lifecycle.ConfirmKeepsTokensUnique` and `Lifecycle.NewPasswordKeepsTokensUnique`, its break by `Lifecycle.SecondResetBreaksUniqueTokens` |
| Forms.Strip | account/forms.py:10-15 | the stripped value is a slice of the raw value with only whitespace cut off before and after it; it neither starts nor ends with whitespace, and is empty exactly when the raw value is all whitespace |
| Forms.CleanCharField | account/forms.py:10-15 | a field cleans exactly when it is present, non-blank after strip, within `max_length` and free of NUL, and then yields the stripped value |
| Forms.CleanEmailField | account/forms.py:11 | an email field cleans exactly when the char field cleans and the validator accepts the stripped value |
| Forms.Search | account/forms.py:47-57 | `re.search` of a one-class pattern, scanning left to right, is true exactly when some character is in the class (`Forms.Contains`) |
| Forms.CleanPassword | account/forms.py:40-59 | `clean_password`; its contract is stated by `Forms.CleanPasswordReportsFirstViolation` and `Forms.SpecialRuleIsRedundant` |
| Forms.CleanPasswordReportsFirstViolation | account/forms.py:40-59 | `clean_password` accepts exactly the passwords that break none of the five rules, and otherwise reports the earliest broken rule |
| Forms.UppercaseIsSpecial | account/forms.py:50-57 | a password with an uppercase letter has a character in the special class |
| Forms.SpecialRuleIsRedundant | account/forms.py:44-57 | the special rule is never reported, and acceptance is length, digit, uppercase and lowercase alone |
| Forms.SymbolFreePasswordAccepted | account/forms.py:44-57 | `Password1`, made of letters and digits only, is accepted |
| Forms.PasswordFieldsAgree | account/forms.py:113-132 | the register and new-password password fields accept the same passwords, except that the register field caps the length at 100 |
| Forms.RegisterPasswordField | account/forms.py:12-59 | RegisterForm's `password` field: `CharField(max_length=100)` cleaning, then `clean_password`; its contract is stated by `Forms.PasswordFieldsAgree` |
| Forms.NewPasswordField | account/forms.py:102-132 | NewPasswordForm's `password` field: `CharField` cleaning with no `max_length`, then `clean_password`; its contract is stated by `Forms.PasswordFieldsAgree` |
| Forms.GenerateCaptcha | account/forms.py:21-23 | the captcha has six characters, each the drawn index into letters-then-digits, so each an ASCII letter or digit |
| Forms.NewRegisterForm | account/forms.py:17-19 | a built form keeps the posted data and shows a six-character initial captcha |
| Forms.RegisterCleanErrors | account/forms.py:25-38 | `clean` adds the mismatch error exactly when both passwords cleaned, are non-empty and differ, and the captcha error exactly when the two posted captcha fields differ, in that order |
| Forms.RegisterFormIsValid | account/forms.py:9-38 | `RegisterForm.is_valid()`; its contract is stated by `Forms.RegisterFormValidMeans` and `Forms.RegisterCleanErrors` |
| Forms.CleanRegisterFields | account/forms.py:10-15 | the per-field cleaning of RegisterForm with each field's `max_length`, leaving a field absent from `cleaned_data` when it fails; its contract is stated by `Forms.RegisterFormValidMeans` |
| Forms.RegisterFormValidMeans | account/forms.py:9-38 | a valid registration form has a non-blank name of at most 100 characters, a non-blank email of at most 100 characters that the validator accepts, an acceptable password equal to its repeat, and equal captcha fields |
| Forms.CaptchaIgnoresServerCode | account/forms.py:17-36 | the verdict does not depend on the captcha the server drew; only the two posted captcha fields are compared |
| Forms.CleanEmail | account/forms.py:75-83 | `ForgotPasswordForm.clean_email`; its contract is stated by `Forms.ForgotPasswordFormVerdict` |
| Forms.ForgotPasswordFormClean | account/forms.py:71-83 | the whole forgot-password form; its contract is stated by `Forms.ForgotPasswordFormVerdict` |
| Forms.ForgotPasswordFormVerdict | account/forms.py:71-83 | the form refuses an email with no account and one whose account is inactive, and an accepted email names an active account |
| Forms.CleanCode | account/forms.py:89-98 | `clean_code`; its contract is stated by `Forms.CleanCodeVerdict` |
| Forms.CleanCodeVerdict | account/forms.py:89-98 | `clean_code` accepts exactly six ASCII digits, and reports the digit error before the length error |
| Forms.ConfirmCodeFormVerdict | account/forms.py:86-98 | the form accepts a posted code exactly when, stripped, it is six digits, and yields the stripped code |
| Forms.ConfirmCodeFormClean | account/forms.py:86-98 | ConfirmCodeForm's `CharField(max_length=6)` cleaning, then `clean_code`; its contract is stated by `Forms.ConfirmCodeFormVerdict` |
| Forms.NewPasswordFormClean | account/forms.py:101-132 | the whole new-password form; its contract is stated by `Forms.NewPasswordFormVerdict` |
| Forms.NewPasswordFormVerdict | account/forms.py:101-132 | the form accepts exactly an acceptable password posted twice, equal after strip, and yields it |
| Base64Url.Encode | account/send_email.py:16 | `base64.urlsafe_b64encode`; its contract is stated by `Base64Url.EncodeLength`, `Base64Url.EncodeAlphabet` and `Base64Url.DecodeEncode` |
| Base64Url.Decode | account/send_email.py:16 | the inverse of the encoder (the source never decodes); its contract is stated by `Base64Url.DecodeEncode` |
| Base64Url.SextetRoundTrip | account/send_email.py:16 | each six-bit value maps to a URL-safe alphabet character that decodes back to it |
| Base64Url.EncodeLength | account/send_email.py:16 | the encoding of k bytes has 4·⌈k/3⌉ characters |
| Base64Url.EncodeAlphabet | account/send_email.py:16 | `=` occurs exactly in the final padding positions, and every other character is URL-safe |
| Base64Url.DecodeEncode | account/send_email.py:16 | decoding an encoding gives back the bytes |
| Base64Url.EncodeInjective | account/send_email.py:16 | distinct byte strings encode to distinct strings |
| SendEmail.DecimalShape | account/send_email.py:11 | `str(n)` of a (k+1)-digit number is k+1 ASCII digits with no leading zero |
| SendEmail.DecimalString | account/send_email.py:11 | `str(n)` for a natural number; its contract is stated by `SendEmail.DecimalShape` and `SendEmail.DecimalRoundTrip` |
| SendEmail.DecimalRoundTrip | account/send_email.py:11 | reading `str(n)` back as decimal gives n |
| SendEmail.GenerateVerificationCode | account/send_email.py:10-12 | the code is six ASCII digits, not starting with 0, that read back as the drawn integer |
| SendEmail.CodeAcceptedByForm | account/send_email.py:10-12 | every generated code passes `clean_code` and fits the six-character column |
| SendEmail.GenerateToken | account/send_email.py:14-17 | the token has the base64 length, URL-safe characters with padding only at the end, and decodes back to the drawn bytes |
| SendEmail.DefaultTokenShape | account/send_email.py:14-17 | 150 bytes give 200 URL-safe characters with no padding, exactly the column's `max_length` |
| SendEmail.TokensFromDistinctBytesDiffer | account/send_email.py:14-17 | distinct random bytes give distinct tokens |
| SendEmail.VerificationUrl | account/send_email.py:21 | the reset URL; its contract is stated by `SendEmail.UrlsCaptureToken` |
| SendEmail.RegistrationUrl | account/send_email.py:38 | the registration URL; its contract is stated by `SendEmail.UrlsCaptureToken` |
| SendEmail.UrlsCaptureToken | account/urls.py:12-14 | each mailed URL resolves to its own route, with the token segment capturing exactly the token, and not to the other route |
| SendEmail.MatchTokenRoute | account/urls.py:12-14 | a `<str:token>` route: the path starts with the route and the rest is a non-empty segment without `/`, which is captured; its contract is stated by `SendEmail.UrlsCaptureToken` |
| Lifecycle.Register | account/views.py:151-183 | `RegisterPageView.post`; its contract is stated by `Lifecycle.RegisterCreates`, `Lifecycle.RegisterReissues` and `Lifecycle.RegisterNoChange` |
| Lifecycle.RegisterCreates | account/views.py:170-178 | a new email appends one inactive row with the posted name, email and password and a fresh challenge stamped now and valid now, and mails its code and registration URL |
| Lifecycle.RegisterReissues | account/views.py:159-167 | an inactive account gets a new challenge even while the old one is valid; its other fields and all other rows are untouched |
| Lifecycle.RegisterNoChange | account/views.py:151-183 | an invalid form, or the email of an active account, changes nothing |
| Lifecycle.Reissue | account/views.py:64-69 | the four assignments of a new challenge (also at account/views.py:161-164 and 172-175): token, code and both stamps set to the drawn values and `now`; its contract is stated by `Lifecycle.ReissuedRows` |
| Lifecycle.ReissuedRows | account/views.py:161-164 | reissuing one row sets its token, code and both stamps and keeps every other field of it and every other row |
| Lifecycle.ForgotPassword | account/views.py:57-81 | `ForgotPasswordPageView.post`; its contract is stated by `Lifecycle.ForgotPasswordWaits`, `Lifecycle.ForgotPasswordReissuesExpired` and `Lifecycle.ForgotPasswordReissues` |
| Lifecycle.ForgotPasswordWaits | account/views.py:57-74 | while the account's code is valid, a reset request changes nothing and says a code was already sent |
| Lifecycle.ForgotPasswordReissues | account/views.py:57-81 | a reset request only ever reissues the challenge of an active account whose code expired, and mails the reset URL; the unknown-email branch is unreachable |
| Lifecycle.ForgotPasswordReissuesExpired | account/views.py:63-72 | conversely, for an accepted email whose code is not valid, the first matching row gets the drawn code and token stamped now, and the reset mail carries that code and token |
| Lifecycle.VerifyEmail | account/views.py:100-114 | `VerifyEmailPageView.post`; its contract is stated by `Lifecycle.VerifyEmailAccepts` |
| Lifecycle.VerifyEmailAccepts | account/views.py:100-114 | a reset code is accepted exactly when it is six digits after strip, equal to the stored code of the first holder of the token, and the token is valid |
| Lifecycle.NewPassword | account/views.py:128-140 | `NewPasswordPageView.post`; its contract is stated by `Lifecycle.NewPasswordEffect` |
| Lifecycle.NewPasswordEffect | account/views.py:128-140 | a new password is stored exactly when the form passes and the token is held and valid; code and token become `''`, nothing else changes, and otherwise the table is unchanged |
| Lifecycle.NewPasswordNotReplayable | account/views.py:128-140 | after a reset with a non-empty token, that token finds no account, so replaying the reset or the code check fails |
| Lifecycle.SecondResetBreaksUniqueTokens | account/views.py:133-136 | two successful resets leave two rows holding `''`, breaking the uniqueness of non-NULL tokens that the first reset still kept |
| Lifecycle.SomePasswordIsAccepted | account/forms.py:101-132 | the new-password form accepts `Password1` posted twice |
| Lifecycle.ConfirmRegistration | account/views.py:197-213 | `ConfirmRegistrationCodeView.post`; its contract is stated by `Lifecycle.ConfirmRegistrationEffect` |
| Lifecycle.ConfirmRegistrationEffect | account/views.py:197-213 | activation happens exactly when the token is held, the code is valid and the raw input equals it; only `is_active` changes, and code and token are never cleared |
| Lifecycle.RegisterThenConfirm | account/views.py:151-213 | after registering, a wrong code leaves the account inactive and the mailed code activates it, at any instant within the two minutes |
| Lifecycle.RegistrationChallengeOpensReset | account/views.py:100-140 | a registration challenge is accepted by the reset route, and the new-password handler then sets the password of the still-inactive account |
| Lifecycle.RegisterKeepsTokensUnique | account/views.py:151-178 | registration keeps non-NULL tokens unique when the drawn token is not already in use |
| Lifecycle.ForgotPasswordKeepsTokensUnique | account/views.py:57-70 | a reset request keeps non-NULL tokens unique under the same proviso |
| Lifecycle.ConfirmKeepsTokensUnique | account/views.py:197-204 | confirming a registration never touches a token |
| Lifecycle.NewPasswordKeepsTokensUnique | account/views.py:128-136 | one reset keeps tokens unique as long as no row already holds `''` |
| Views.AccountViews.Register | account/views.py:151-183 | the handler's new table and outcome are those of the registration step, and the table invariant is kept |
| Views.AccountViews.ForgotPassword | account/views.py:57-81 | the handler's new table and outcome are those of the reset-request step, and the table invariant is kept |
| Views.AccountViews.VerifyEmail | account/views.py:100-114 | the handler changes nothing, and its outcome is that of the code-check step |
| Views.AccountViews.NewPassword | account/views.py:128-140 | the handler's new table and outcome are those of the new-password step, and the table invariant is kept |
| Views.AccountViews.ConfirmRegistration | account/views.py:197-213 | the handler's new table and outcome are those of the confirmation step, and the table invariant is kept |

## Left out

- Mail delivery: rendering `verification_email.html` and sending through SMTP are I/O. The model keeps only the recipient, the code and the URL, as a `Mail` value in the outcome.
- Randomness: `random.randint`, `secrets.token_bytes` and `random.choice` are replaced by the values they draw, passed in as parameters.
- The clock: each handler takes one instant `now`. The source calls `timezone.now()` twice, once per stamp, microseconds apart, and the model writes the same instant into both stamps.
- The login and logout views, `LoginForm`, `authenticate`, `login(request, user)` after activation, sessions, and `last_login` are outside the challenge machinery.
- The user panel (`UserPanelView`, `UserPanelForm`), the `image` field and `__str__` are outside the challenge machinery.
- The GET handlers only render pages or redirect. The checks they make are the same predicates the POST handlers use.
- Messages, templates and redirects are collapsed into the outcome datatypes.
- `set_password`'s hashing, `normalize_email` and Django's email validator are library code. They are modelled as the constructor `Hashed(raw)` and as function parameters.
- The `max_length=255` and `max_length=100` of the `email` and `name` columns are not part of the table invariant. The form caps both at 100.
- Database concurrency: racing requests are not modelled. A unique-constraint failure at save time is not modelled either, except in `create_user`, which fails without saving when the email exists. So the `IntegrityError` a second reset to `''` raises on such a database is not modelled; the model saves the row and `Lifecycle.SecondResetBreaksUniqueTokens` shows the broken uniqueness instead.
- Models.AccountTable.CreateSuperuser: `is_superuser = True` is not stored, because the model has no such column.
- `\d` and `str.isdigit` also accept non-ASCII digits in Python. The model accepts ASCII digits only.

- Lifecycle.RegisterKeepsTokensUnique: the new token is assumed not already in use. The source does not check this; a collision of 150-byte random tokens is negligible but possible.
- Lifecycle.ForgotPasswordKeepsTokensUnique: the same assumption about the new token.
