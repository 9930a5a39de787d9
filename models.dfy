/**
 * The account record of account/models.py: its fields, the two validity
 * predicates of a challenge, the permission hooks, and the manager that
 * creates users in the table of accounts.
 */
module Models {
  import opened Wrappers

  /** A point in time, in microseconds (the resolution of a Python datetime). */
  type Instant = int

  const MicrosPerSecond: int := 1_000_000

  /** `timedelta(minutes=2)`: how long a token or a code stays valid. */
  const ChallengeLifetime: int := 120 * MicrosPerSecond

  /** `max_length` of the `token` and `code` columns. */
  const TokenMaxLength: nat := 200
  const CodeMaxLength: nat := 6

  /**
   * What `set_password` stores: a hash of the raw password, or the unusable
   * marker that `set_password(None)` writes. Hashing itself is library code;
   * the constructor stands for it.
   */
  datatype PasswordHash = Unusable | Hashed(raw: string)

  /** One row of the `UserAccount` table (the image column is not modelled). */
  datatype Account = Account(
    email: string,
    name: string,
    password: PasswordHash,
    token: Option<string>,
    code: Option<string>,
    tokenCreatedAt: Option<Instant>,
    codeCreatedAt: Option<Instant>,
    isActive: bool,
    isStaff: bool)

  /** `is_token_valid`, with `timezone.now()` passed in as `now`. */
  predicate IsTokenValid(a: Account, now: Instant) {
    match a.tokenCreatedAt
    case Some(t) => now < t + ChallengeLifetime
    case None => false
  }

  /** `is_code_valid`, with `timezone.now()` passed in as `now`. */
  predicate IsCodeValid(a: Account, now: Instant) {
    match a.codeCreatedAt
    case Some(t) => now < t + ChallengeLifetime
    case None => false
  }

  /** A token without a creation time is never valid. */
  lemma TokenWithoutStampIsInvalid(a: Account, now: Instant)
    requires a.tokenCreatedAt.None?
    ensures !IsTokenValid(a, now)
  {
  }

  /**
   * The window is strict and two minutes long: a token stamped at `t` is
   * valid exactly at the instants before `t + 120 s`, so still valid 119 s
   * (and 119.999999 s) later and no longer valid at 120 s.
   */
  lemma TokenWindow(a: Account, t: Instant, now: Instant)
    requires a.tokenCreatedAt == Some(t)
    ensures IsTokenValid(a, now) <==> now < t + 120 * MicrosPerSecond
    ensures IsTokenValid(a, t + 119 * MicrosPerSecond)
    ensures IsTokenValid(a, t + 120 * MicrosPerSecond - 1)
    ensures !IsTokenValid(a, t + 120 * MicrosPerSecond)
  {
  }

  /** The same strict two-minute window holds for the code. */
  lemma CodeWindow(a: Account, t: Instant, now: Instant)
    requires a.codeCreatedAt == Some(t)
    ensures IsCodeValid(a, now) <==> now < t + 120 * MicrosPerSecond
    ensures IsCodeValid(a, t + 119 * MicrosPerSecond)
    ensures !IsCodeValid(a, t + 120 * MicrosPerSecond)
  {
  }

  /** Once expired, a challenge stays expired. */
  lemma ExpiryIsPermanent(a: Account, now: Instant, later: Instant)
    requires now <= later
    ensures !IsTokenValid(a, now) ==> !IsTokenValid(a, later)
    ensures !IsCodeValid(a, now) ==> !IsCodeValid(a, later)
  {
  }

  /**
   * `is_code_valid` reads only `code_created_at` and `is_token_valid` only
   * `token_created_at`: the two are independent of each other and of every
   * other field.
   */
  lemma ValidityReadsOwnStampOnly(a: Account, b: Account, now: Instant)
    ensures a.codeCreatedAt == b.codeCreatedAt ==> IsCodeValid(a, now) == IsCodeValid(b, now)
    ensures a.tokenCreatedAt == b.tokenCreatedAt ==> IsTokenValid(a, now) == IsTokenValid(b, now)
  {
  }

  /** The two predicates can disagree: a valid code beside an expired token. */
  lemma ValiditiesCanDisagree(a: Account, t: Instant)
    requires a.codeCreatedAt == Some(t) && a.tokenCreatedAt == Some(t - ChallengeLifetime)
    ensures IsCodeValid(a, t) && !IsTokenValid(a, t)
  {
  }

  /** When both stamps are equal, as every issuance in the views writes them, the predicates agree. */
  lemma EqualStampsAgree(a: Account, now: Instant)
    requires a.tokenCreatedAt == a.codeCreatedAt
    ensures IsTokenValid(a, now) == IsCodeValid(a, now)
  {
  }

  /** `has_perm`: every account has every permission, on any object. */
  function HasPerm<T>(a: Account, perm: string, obj: Option<T>): (r: bool)
    ensures r
  {
    true
  }

  /** `has_module_perms`: every account may see every app. */
  function HasModulePerms(a: Account, appLabel: string): (r: bool)
    ensures r
  {
    true
  }

  /**
   * The row `self.model(email=email, name=name)` builds: no token, code or
   * stamps, inactive and non-staff, and a password that stays unusable
   * until `set_password` runs.
   */
  function NewAccount(email: string, name: string): (a: Account)
    ensures a.email == email && a.name == name
    ensures !a.isActive && !a.isStaff
    ensures a.token.None? && a.code.None? && a.tokenCreatedAt.None? && a.codeCreatedAt.None?
    ensures forall now :: !IsTokenValid(a, now) && !IsCodeValid(a, now)
  {
    Account(email, name, Unusable, None, None, None, None, false, false)
  }

  /** `set_password`: a raw password is hashed, `None` makes the password unusable. */
  function SetPassword(a: Account, password: Option<string>): (b: Account)
    ensures b == a.(password := b.password)
    ensures password.Some? <==> b.password.Hashed?
    ensures password.Some? ==> b.password.raw == password.value
  {
    a.(password := match password case Some(p) => Hashed(p) case None => Unusable)
  }

  datatype CreateError =
    | MissingEmail     // `ValueError('Users must have an email address')`
    | DuplicateEmail   // the `unique=True` email column refuses the insert

  /** A lookup key: the two columns the views filter on. */
  datatype Key = ByEmail(email: string) | ByToken(token: string)

  predicate Matches(a: Account, key: Key) {
    match key
    case ByEmail(e) => a.email == e
    case ByToken(t) => a.token == Some(t)
  }

  /**
   * `UserAccount.objects.filter(...).first()` (and `get`) over the rows in
   * primary-key order: the index of the first row that matches, if any.
   */
  function FindFirst(rows: seq<Account>, key: Key): (r: Option<nat>)
    ensures r.Some? ==> r.value < |rows| && Matches(rows[r.value], key)
    ensures r.Some? ==> forall j :: 0 <= j < r.value ==> !Matches(rows[j], key)
    ensures r.None? <==> forall j :: 0 <= j < |rows| ==> !Matches(rows[j], key)
  {
    if |rows| == 0 then None
    else if Matches(rows[0], key) then Some(0)
    else
      match FindFirst(rows[1..], key)
      case Some(i) => Some(i + 1)
      case None => None
  }

  /** Some row holds the token `t`. */
  predicate TokenInUse(rows: seq<Account>, t: string) {
    exists i :: 0 <= i < |rows| && rows[i].token == Some(t)
  }

  /**
   * The invariant the table keeps: declared column bounds, emails unique,
   * each value present exactly when its stamp is, and both stamps equal.
   */
  ghost predicate WellFormed(rows: seq<Account>) {
    && (forall i :: 0 <= i < |rows| ==> RowWellFormed(rows[i]))
    && (forall i, j :: 0 <= i < j < |rows| ==> rows[i].email != rows[j].email)
  }

  predicate RowWellFormed(a: Account) {
    && (a.token.Some? ==> |a.token.value| <= TokenMaxLength)
    && (a.code.Some? ==> |a.code.value| <= CodeMaxLength)
    && (a.token.Some? <==> a.tokenCreatedAt.Some?)
    && (a.code.Some? <==> a.codeCreatedAt.Some?)
    && a.tokenCreatedAt == a.codeCreatedAt
  }

  /**
   * The `unique=True` declaration on `token`: tokens that are not NULL are
   * pairwise distinct (NULL is exempt, the empty string is not).
   */
  ghost predicate TokensUnique(rows: seq<Account>) {
    forall i, j :: 0 <= i < j < |rows| && rows[i].token.Some? ==> rows[i].token != rows[j].token
  }

  /** Adding a row whose email is new keeps the table well formed. */
  lemma AppendWellFormed(rows: seq<Account>, a: Account)
    requires WellFormed(rows) && RowWellFormed(a)
    requires FindFirst(rows, ByEmail(a.email)).None?
    ensures WellFormed(rows + [a])
  {
    var r := rows + [a];
    forall i, j | 0 <= i < j < |r| ensures r[i].email != r[j].email {
      if j == |rows| {
        assert !Matches(rows[i], ByEmail(a.email));
      }
    }
  }

  /** Replacing a row by one with the same email and well-formed fields keeps the table well formed. */
  lemma UpdateWellFormed(rows: seq<Account>, i: nat, a: Account)
    requires WellFormed(rows) && i < |rows| && RowWellFormed(a) && a.email == rows[i].email
    ensures WellFormed(rows[i := a])
  {
  }

  /**
   * The table of accounts, `UserAccount.objects`, with the manager's
   * `create_user` and `create_superuser`.
   */
  class AccountTable {
    /** The rows in primary-key order. */
    var rows: seq<Account>

    ghost predicate Valid()
      reads this
    {
      WellFormed(rows)
    }

    constructor ()
      ensures Valid() && rows == []
    {
      rows := [];
    }

    /**
     * `create_user`: refuses an empty email; otherwise normalises it, builds
     * the row, sets the password and saves it. `normalize` is Django's
     * `normalize_email`.
     */
    method CreateUser(email: string, name: string, password: Option<string>, normalize: string -> string)
      returns (r: Result<Account, CreateError>)
      requires Valid()
      modifies this
      ensures Valid()
      ensures email == "" ==> r == Failure(MissingEmail) && rows == old(rows)
      ensures email != "" && FindFirst(old(rows), ByEmail(normalize(email))).Some? ==>
                r == Failure(DuplicateEmail) && rows == old(rows)
      ensures r.Success? ==>
                && r.value == SetPassword(NewAccount(normalize(email), name), password)
                && rows == old(rows) + [r.value]
      ensures r.Failure? ==> rows == old(rows)
      ensures email != "" && FindFirst(old(rows), ByEmail(normalize(email))).None? ==> r.Success?
    {
      if email == "" {
        return Failure(MissingEmail);
      }
      var normalized := normalize(email);
      var user := NewAccount(normalized, name);
      user := SetPassword(user, password);
      if FindFirst(rows, ByEmail(normalized)).Some? {
        return Failure(DuplicateEmail);
      }
      AppendWellFormed(rows, user);
      rows := rows + [user];
      r := Success(user);
    }

    /**
     * `create_superuser`: `create_user`, then `is_staff = True` and a second
     * save. (`is_superuser` is not a column of this model, so setting it
     * leaves nothing in the table.)
     */
    method CreateSuperuser(email: string, name: string, password: string, normalize: string -> string)
      returns (r: Result<Account, CreateError>)
      requires Valid()
      modifies this
      ensures Valid()
      ensures email == "" ==> r == Failure(MissingEmail)
      ensures email != "" && FindFirst(old(rows), ByEmail(normalize(email))).Some? ==>
                r == Failure(DuplicateEmail)
      ensures email != "" && FindFirst(old(rows), ByEmail(normalize(email))).None? ==> r.Success?
      ensures r.Failure? ==> rows == old(rows)
      ensures r.Success? ==>
                && r.value == SetPassword(NewAccount(normalize(email), name), Some(password)).(isStaff := true)
                && rows == old(rows) + [r.value]
      ensures r.Success? ==> r.value.isStaff && !r.value.isActive
    {
      var created := CreateUser(email, name, Some(password), normalize);
      if created.Failure? {
        return created;
      }
      var user := created.value.(isStaff := true);
      UpdateWellFormed(rows, |rows| - 1, user);
      rows := rows[|rows| - 1 := user];
      r := Success(user);
    }
  }
}
