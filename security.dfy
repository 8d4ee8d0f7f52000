/**
 * Passwords, decimal subjects and bearer tokens (app/core/security.py,
 * with the constants of app/config.py).
 *
 * bcrypt and the JWT library are outside the model. They are replaced by
 * stand-ins with bodies that have exactly the properties the code relies
 * on: a hash verifies against the password it was made from and no other,
 * and a token decodes to the claims it was encoded with, under the same
 * key and algorithm, until its `exp` instant has passed (RFC 7519, section
 * 4.1.4; HS256 is the HMAC-SHA256 algorithm of RFC 7518, section 3.2).
 * Time is an integer number of seconds since the epoch.
 */
module Security {
  import opened Wrappers

  /** The configuration values the token service reads. */
  datatype Settings = Settings(secretKey: string, algorithm: string, accessTokenExpireMinutes: int)

  /** The defaults of app/config.py. */
  const DefaultSettings := Settings("change-me-in-production", "HS256", 60)

  // ---------------------------------------------------------------------
  // Passwords
  // ---------------------------------------------------------------------

  /**
   * A salted bcrypt hash. In the model the hash remembers the password it
   * was made from so that verification can be stated; nothing outside this
   * module looks inside it, and it is a different type from a string, so a
   * stored hash can never be equal to a plaintext.
   */
  datatype PasswordHash = BcryptHash(salt: nat, source: string)

  /** `verify_password(plain, hashed)`: does the plaintext match the hash? */
  predicate VerifyPassword(plain: string, hashed: PasswordHash)
  {
    hashed.source == plain
  }

  /**
   * `hash_password(plain)`: the salt that `bcrypt.gensalt()` draws at
   * random is a parameter.
   */
  function HashPassword(plain: string, salt: nat): (h: PasswordHash)
    ensures VerifyPassword(plain, h)
    ensures forall other :: VerifyPassword(other, h) <==> other == plain
  {
    BcryptHash(salt, plain)
  }

  // ---------------------------------------------------------------------
  // Decimal strings: Python's str(int) and int(str)
  // ---------------------------------------------------------------------

  predicate IsDigit(c: char)
  {
    '0' <= c <= '9'
  }

  predicate AllDigits(s: string)
  {
    forall i :: 0 <= i < |s| ==> IsDigit(s[i])
  }

  function DigitChar(d: nat): (c: char)
    requires d < 10
    ensures IsDigit(c) && (c as int) - ('0' as int) == d
  {
    "0123456789"[d]
  }

  /** `str(n)` for a non-negative integer: its shortest decimal numeral. */
  function NatToString(n: nat): (s: string)
    ensures |s| > 0 && AllDigits(s)
    ensures |s| > 1 ==> s[0] != '0'
    decreases n
  {
    if n < 10 then [DigitChar(n)] else NatToString(n / 10) + [DigitChar(n % 10)]
  }

  /** `str(i)` for any integer: a minus sign in front of negative numbers. */
  function IntToString(i: int): (s: string)
    ensures |s| > 0
    ensures i >= 0 <==> IsDigit(s[0])
  {
    if i < 0 then "-" + NatToString(-i) else NatToString(i)
  }

  /** The value of a string of decimal digits (leading zeros allowed). */
  function DigitsValue(s: string): nat
    requires AllDigits(s)
  {
    if s == [] then 0
    else DigitsValue(s[..|s| - 1]) * 10 + ((s[|s| - 1] as int) - ('0' as int))
  }

  /**
   * `int(s)`: an optional sign followed by one or more decimal digits;
   * anything else raises ValueError, which is `None` here.
   */
  function ParseInt(s: string): (r: Option<int>)
    ensures r.Some? ==> |s| > 0
    ensures AllDigits(s) && |s| > 0 ==> r == Some(DigitsValue(s))
    ensures r.Some? && s[0] == '-' ==> AllDigits(s[1..]) && r.value == 0 - DigitsValue(s[1..])
    ensures r.Some? && s[0] == '+' ==> AllDigits(s[1..]) && r.value == DigitsValue(s[1..])
    ensures r.None? <==> (
      if |s| > 0 && (s[0] == '+' || s[0] == '-') then |s| == 1 || !AllDigits(s[1..])
      else |s| == 0 || !AllDigits(s))
  {
    if |s| > 0 && (s[0] == '+' || s[0] == '-') then
      var rest := s[1..];
      if rest == [] || !AllDigits(rest) then None
      else
        var magnitude: int := DigitsValue(rest);
        Some(if s[0] == '-' then -magnitude else magnitude)
    else if s == [] || !AllDigits(s) then None
    else Some(DigitsValue(s))
  }

  lemma {:induction false} NatToStringValue(n: nat)
    ensures DigitsValue(NatToString(n)) == n
    decreases n
  {
    var s := NatToString(n);
    if n >= 10 {
      var prefix := NatToString(n / 10);
      NatToStringValue(n / 10);
      assert s == prefix + [DigitChar(n % 10)];
      assert s[..|s| - 1] == prefix;
    }
  }

  /** `int(str(i)) == i`: the subject written into a token reads back as the same id. */
  lemma ParseIntRoundTrip(i: int)
    ensures ParseInt(IntToString(i)) == Some(i)
  {
    var s := IntToString(i);
    if i < 0 {
      var digits := NatToString(-i);
      NatToStringValue(-i);
      assert s == "-" + digits;
      assert s[0] == '-' && s[1..] == digits;
    } else {
      NatToStringValue(i);
      assert s[0] != '+' && s[0] != '-';
    }
  }

  // ---------------------------------------------------------------------
  // Tokens
  // ---------------------------------------------------------------------

  /** The registered claims the code uses: `sub` (RFC 7519, 4.1.2) and `exp` (4.1.4). */
  datatype Claims = Claims(sub: Option<string>, exp: Option<int>)

  /** A compact JWS as the client presents it: either signed claims or a string that is not a JWT. */
  datatype Token = Signed(claims: Claims, key: string, alg: string) | Malformed(text: string)

  /** Why the JWT library refused a token; every reason is a `JWTError`. */
  datatype JwtError = BadFormat | BadSignature | Expired | MissingSubject

  /** `jwt.encode(payload, key, algorithm)`. */
  function Encode(claims: Claims, key: string, alg: string): Token
  {
    Signed(claims, key, alg)
  }

  /**
   * `jwt.decode(token, key, algorithms=[...])`: the signature must have been
   * made with `key` by one of the allowed algorithms, and an `exp` claim
   * must not lie before `now`.
   */
  function Decode(token: Token, key: string, algorithms: seq<string>, now: int): (r: Result<Claims, JwtError>)
    ensures r.Ok? <==> token.Signed? && token.key == key && token.alg in algorithms
                        && (token.claims.exp.Some? ==> now <= token.claims.exp.value)
    ensures r.Ok? ==> r.value == token.claims
  {
    match token
    case Malformed(_) => Err(BadFormat)
    case Signed(claims, k, a) =>
      if k != key || a !in algorithms then Err(BadSignature)
      else if claims.exp.Some? && claims.exp.value < now then Err(Expired)
      else Ok(claims)
  }

  /** The lifetime, in seconds, of a token made with `expires_delta` at `now`. */
  function Lifetime(expiresDelta: Option<int>, settings: Settings): int
  {
    // `expires_delta or timedelta(...)`: a zero timedelta is falsy.
    if expiresDelta.Some? && expiresDelta.value != 0 then expiresDelta.value
    else settings.accessTokenExpireMinutes * 60
  }

  /** `create_access_token(subject, expires_delta)` at instant `now`. */
  function CreateAccessToken(subject: int, expiresDelta: Option<int>, settings: Settings, now: int): Token
  {
    Encode(Claims(Some(IntToString(subject)), Some(now + Lifetime(expiresDelta, settings))),
           settings.secretKey, settings.algorithm)
  }

  /** `decode_token(token)`: the `sub` claim, or the JWTError that decoding raised. */
  function DecodeToken(token: Token, settings: Settings, now: int): (r: Result<string, JwtError>)
    ensures r.Ok? <==> token.Signed? && token.key == settings.secretKey && token.alg == settings.algorithm
                        && (token.claims.exp.Some? ==> now <= token.claims.exp.value)
                        && token.claims.sub.Some?
    ensures r.Ok? ==> r.value == token.claims.sub.value
    ensures token.Signed? && token.claims.sub.None? ==> r.Err?
  {
    match Decode(token, settings.secretKey, [settings.algorithm], now)
    case Err(e) => Err(e)
    case Ok(claims) =>
      if claims.sub.None? then Err(MissingSubject) else Ok(claims.sub.value)
  }

  /**
   * A token made for `subject` decodes to `str(subject)` exactly until its
   * expiry instant, and fails with a JWTError from the next second on.
   */
  lemma TokenRoundTrip(subject: int, expiresDelta: Option<int>, settings: Settings, issuedAt: int, now: int)
    ensures var t := CreateAccessToken(subject, expiresDelta, settings, issuedAt);
            DecodeToken(t, settings, now)
              == if now <= issuedAt + Lifetime(expiresDelta, settings) then Ok(IntToString(subject))
                 else Err(Expired)
  {
  }

  /** With the default settings a token lives for exactly one hour. */
  lemma DefaultTokenLivesOneHour(subject: int, issuedAt: int)
    ensures var t := CreateAccessToken(subject, None, DefaultSettings, issuedAt);
            DecodeToken(t, DefaultSettings, issuedAt + 3600).Ok?
            && DecodeToken(t, DefaultSettings, issuedAt + 3601).Err?
  {
  }

  /** `timedelta(0)` is falsy, so a zero delta gives the default lifetime rather than an already-expired token. */
  lemma ZeroDeltaMeansDefault(subject: int, settings: Settings, issuedAt: int)
    ensures CreateAccessToken(subject, Some(0), settings, issuedAt)
            == CreateAccessToken(subject, None, settings, issuedAt)
  {
  }

  /** A token signed under another key or algorithm never decodes. */
  lemma ForeignTokenRejected(t: Token, settings: Settings, now: int)
    requires t.Signed? && (t.key != settings.secretKey || t.alg != settings.algorithm)
    ensures DecodeToken(t, settings, now).Err?
  {
  }
}
