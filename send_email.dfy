/**
 * The generators of account/send_email.py, with their random inputs passed
 * in, and the confirmation URLs the two send functions build, together with
 * how the routes of account/urls.py take the token back out of them.
 */
module SendEmail {
  import opened Wrappers
  import opened Base64Url
  import Forms

  /** The bounds of `random.randint(100000, 999999)`. */
  const LowestCode: int := 100000
  const HighestCode: int := 999999

  /** The default `length` of `generate_token`: 150 random bytes. */
  const TokenBytes: nat := 150

  function DigitChar(d: int): (c: char)
    requires 0 <= d < 10
    ensures Forms.IsAsciiDigit(c)
  {
    ('0' as int + d) as char
  }

  /** `str(n)` for a natural number: its decimal digits, most significant first. */
  function DecimalString(n: nat): string
    decreases n
  {
    if n < 10 then [DigitChar(n)] else DecimalString(n / 10) + [DigitChar(n % 10)]
  }

  /** The value of a string of ASCII digits (Python's `int(s)` on such a string). */
  function DecimalValue(s: string): int
    decreases |s|
  {
    if |s| == 0 then 0 else DecimalValue(s[..|s| - 1]) * 10 + (s[|s| - 1] as int - '0' as int)
  }

  function Pow10(k: nat): nat {
    if k == 0 then 1 else 10 * Pow10(k - 1)
  }

  /** A number in `[10^k, 10^(k+1))` has exactly `k + 1` ASCII digits, the first not `0`. */
  lemma {:induction false} DecimalShape(n: nat, k: nat)
    requires Pow10(k) <= n < Pow10(k + 1)
    ensures |DecimalString(n)| == k + 1
    ensures forall i :: 0 <= i < |DecimalString(n)| ==> Forms.IsAsciiDigit(DecimalString(n)[i])
    ensures DecimalString(n)[0] != '0'
    decreases k
  {
    if k == 0 {
      assert 1 <= n < 10;
    } else {
      DecimalShape(n / 10, k - 1);
      var s := DecimalString(n / 10);
      assert DecimalString(n) == s + [DigitChar(n % 10)];
    }
  }

  /** Reading the digits back gives the number: `int(str(n)) == n`. */
  lemma {:induction false} DecimalRoundTrip(n: nat)
    ensures DecimalValue(DecimalString(n)) == n
    decreases n
  {
    if n >= 10 {
      DecimalRoundTrip(n / 10);
      var s := DecimalString(n);
      assert s[..|s| - 1] == DecimalString(n / 10);
    }
  }

  /**
   * `generate_verification_code`: `str(random.randint(100000, 999999))`,
   * with the drawn integer `n` passed in. The code is six ASCII digits, the
   * first not `0`, and it reads back as `n`, so distinct draws give
   * distinct codes.
   */
  function GenerateVerificationCode(n: int): (code: string)
    requires LowestCode <= n <= HighestCode
    ensures |code| == 6 && code[0] != '0'
    ensures forall i :: 0 <= i < 6 ==> Forms.IsAsciiDigit(code[i])
    ensures DecimalValue(code) == n
  {
    assert Pow10(5) == 100000 && Pow10(6) == 1000000;
    DecimalShape(n, 5);
    DecimalRoundTrip(n);
    DecimalString(n)
  }

  /**
   * The generated code passes `ConfirmCodeForm.clean_code` and fits the
   * `code` column (`max_length=6`).
   */
  lemma CodeAcceptedByForm(n: int)
    requires LowestCode <= n <= HighestCode
    ensures Forms.CleanCode(GenerateVerificationCode(n)) == Pass
    ensures |GenerateVerificationCode(n)| <= 6
  {
  }

  /**
   * `generate_token`: `base64.urlsafe_b64encode(secrets.token_bytes(length))`
   * decoded as UTF-8, with the random bytes passed in.
   */
  function GenerateToken(bytes: seq<byte>): (token: string)
    ensures |token| == 4 * ((|bytes| + 2) / 3)
    ensures forall i :: 0 <= i < |token| ==>
              (token[i] == '=' <==> i >= |token| - PaddingLength(|bytes|))
              && (token[i] != '=' ==> IsUrlSafeChar(token[i]))
    ensures Decode(token) == Some(bytes)
  {
    EncodeLength(bytes);
    EncodeAlphabet(bytes);
    DecodeEncode(bytes);
    Encode(bytes)
  }

  /**
   * At the default length of 150 bytes the token is 200 characters, all
   * from the URL-safe alphabet with no padding: exactly the `max_length`
   * of the `token` column.
   */
  lemma DefaultTokenShape(bytes: seq<byte>)
    requires |bytes| == TokenBytes
    ensures |GenerateToken(bytes)| == 200
    ensures forall i :: 0 <= i < 200 ==> IsUrlSafeChar(GenerateToken(bytes)[i])
  {
    var t := GenerateToken(bytes);
    assert PaddingLength(|bytes|) == 0 && 4 * ((|bytes| + 2) / 3) == 200;
    forall i | 0 <= i < 200 ensures IsUrlSafeChar(t[i]) {
      assert t[i] != '=';
    }
  }

  /** Distinct random byte strings give distinct tokens. */
  lemma TokensFromDistinctBytesDiffer(a: seq<byte>, b: seq<byte>)
    requires a != b
    ensures GenerateToken(a) != GenerateToken(b)
  {
  }

  /** The host and application prefix of both confirmation URLs. */
  const SitePrefix: string := "http://localhost:8000/account/"

  /** The route patterns of account/urls.py, without their `<str:token>` part. */
  const ResetRoute: string := "confirm_code/"
  const RegistrationRoute: string := "confirm_registration_code/"

  /** The URL of `send_verification_email` (the password-reset mail). */
  function VerificationUrl(token: string): string {
    SitePrefix + ResetRoute + token
  }

  /** The URL of `send_registration_email`. */
  function RegistrationUrl(token: string): string {
    SitePrefix + RegistrationRoute + token
  }

  /**
   * The resolver's match of `route + '<str:token>'` against an application
   * path: the `str` converter takes a non-empty segment without `/`.
   */
  function MatchTokenRoute(route: string, path: string): Option<string> {
    if |route| <= |path| && path[..|route|] == route && |path| > |route| && '/' !in path[|route|..]
    then Some(path[|route|..])
    else None
  }

  /** The path the application's routes see for a URL of this site, if it is one. */
  function AppPath(url: string): Option<string> {
    if |SitePrefix| <= |url| && url[..|SitePrefix|] == SitePrefix then Some(url[|SitePrefix|..]) else None
  }

  /**
   * A generated token is non-empty and has no `/`, so each mailed URL
   * resolves to its own route with the `<str:token>` segment capturing
   * exactly the token, and not to the other route.
   */
  lemma UrlsCaptureToken(bytes: seq<byte>)
    requires |bytes| > 0
    ensures var t := GenerateToken(bytes);
            && AppPath(VerificationUrl(t)) == Some(ResetRoute + t)
            && MatchTokenRoute(ResetRoute, ResetRoute + t) == Some(t)
            && MatchTokenRoute(RegistrationRoute, ResetRoute + t).None?
            && AppPath(RegistrationUrl(t)) == Some(RegistrationRoute + t)
            && MatchTokenRoute(RegistrationRoute, RegistrationRoute + t) == Some(t)
            && MatchTokenRoute(ResetRoute, RegistrationRoute + t).None?
  {
    var t := GenerateToken(bytes);
    assert '/' !in t by {
      forall i | 0 <= i < |t| ensures t[i] != '/' { }
    }
    assert t != [];
    AppPathOf(ResetRoute, t);
    AppPathOf(RegistrationRoute, t);
    RouteCaptures(ResetRoute, t);
    RouteCaptures(RegistrationRoute, t);
    RoutesDisjoint(t);
  }

  /** Removing the site prefix from a URL built on it. */
  lemma AppPathOf(route: string, t: string)
    ensures AppPath(SitePrefix + route + t) == Some(route + t)
  {
    var u := SitePrefix + route + t;
    assert u == SitePrefix + (route + t);
    assert u[..|SitePrefix|] == SitePrefix && u[|SitePrefix|..] == route + t;
  }

  /** A route followed by a non-empty segment without `/` captures that segment. */
  lemma RouteCaptures(route: string, t: string)
    requires t != [] && '/' !in t
    ensures MatchTokenRoute(route, route + t) == Some(t)
  {
    var p := route + t;
    assert p[..|route|] == route && p[|route|..] == t;
  }

  /** Neither route is a prefix of a path on the other one. */
  lemma RoutesDisjoint(t: string)
    ensures MatchTokenRoute(RegistrationRoute, ResetRoute + t).None?
    ensures MatchTokenRoute(ResetRoute, RegistrationRoute + t).None?
  {
    var p, q := ResetRoute + t, RegistrationRoute + t;
    if |RegistrationRoute| <= |p| {
      assert p[..|RegistrationRoute|] != RegistrationRoute by { assert p[8] != RegistrationRoute[8]; }
    }
    assert q[..|ResetRoute|] != ResetRoute by { assert q[8] != ResetRoute[8]; }
  }

  /** A mail: its recipient, the code and the confirmation URL it carries. */
  datatype Mail = Mail(recipient: string, code: string, url: string)

  function ResetMail(email: string, code: string, token: string): Mail {
    Mail(email, code, VerificationUrl(token))
  }

  function RegistrationMail(email: string, code: string, token: string): Mail {
    Mail(email, code, RegistrationUrl(token))
  }
}
