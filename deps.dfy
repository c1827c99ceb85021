/**
 * The authentication gate `get_current_user` (backend/app/deps.py): a fixed
 * chain of guards from the bearer token to a user row, every one of which
 * fails with HTTP 401. The user table is the map from primary key to row.
 */
module Deps {
  import opened Outcomes
  import opened Models
  import Chars
  import Auth
  import Config

  const HTTP_UNAUTHORIZED: int := 401

  /** The guard that rejected the request, in the order the guards run. */
  datatype GateFailure = NoToken | InvalidToken | InvalidTokenFormat | InvalidUserId | UserNotFound

  /** The `detail` of the 401 response raised by each guard. */
  function Detail(f: GateFailure): string {
    match f
    case NoToken => "No token provided"
    case InvalidToken => "Invalid token"
    case InvalidTokenFormat => "Invalid token format"
    case InvalidUserId => "Invalid user ID in token"
    case UserNotFound => "User not found"
  }

  // ---------------------------------------------------------------------------
  // Python's `int()` on the `sub` claim

  /** Python's `str.isspace()`, the characters `int()` ignores around a number. */
  predicate IsPyWhitespace(c: char) {
    var n := c as int;
    (9 <= n <= 13) || (28 <= n <= 32) || n == 0x85 || n == 0xA0 || n == 0x1680
    || (0x2000 <= n <= 0x200A) || n == 0x2028 || n == 0x2029 || n == 0x202F
    || n == 0x205F || n == 0x3000
  }

  predicate DigitsOrUnderscores(b: string) {
    forall i :: 0 <= i < |b| ==> Chars.IsDigit(b[i]) || b[i] == '_'
  }

  /** Decimal digits, with single underscores allowed between two digits. */
  predicate IsDigitRun(b: string) {
    && |b| > 0
    && DigitsOrUnderscores(b)
    && forall i :: 0 <= i < |b| && b[i] == '_' ==> 0 < i < |b| - 1 && Chars.IsDigit(b[i - 1]) && Chars.IsDigit(b[i + 1])
  }

  function RemoveUnderscores(b: string): (r: string)
    ensures DigitsOrUnderscores(b) ==> Chars.AllDigits(r)
    ensures Chars.AllDigits(b) ==> r == b
  {
    if b == [] then [] else (if b[0] == '_' then [] else [b[0]]) + RemoveUnderscores(b[1..])
  }

  /**
   * `int(text)` in base 10: surrounding whitespace, an optional sign, and a run
   * of digits with single underscores between digits; `None` for the
   * `ValueError` of every other text.
   */
  function ParsePyInt(text: string): (r: Option<int>)
    ensures Chars.AllDigits(text) && text != [] ==> r == Some(Chars.DigitsValue(text))
    ensures (forall i :: 0 <= i < |text| ==> IsPyWhitespace(text[i])) ==> r.None?
  {
    PlainDigits(text);
    var t := Chars.Strip(text, IsPyWhitespace);
    if t == [] then None
    else
      var body := if t[0] == '-' || t[0] == '+' then t[1..] else t;
      if !IsDigitRun(body) then None
      else
        var v: int := Chars.DigitsValue(RemoveUnderscores(body));
        Some(if t[0] == '-' then -v else v)
  }

  /** A plain run of digits is its own stripped text and its own digit run. */
  lemma PlainDigits(text: string)
    ensures Chars.AllDigits(text) && text != [] ==>
              && Chars.Strip(text, IsPyWhitespace) == text && text[0] != '-' && text[0] != '+'
              && IsDigitRun(text) && RemoveUnderscores(text) == text
  {
    if Chars.AllDigits(text) && text != [] {
      assert forall i :: 0 <= i < |text| ==> !IsPyWhitespace(text[i]) by {
        forall i | 0 <= i < |text|
          ensures !IsPyWhitespace(text[i])
        {
          assert Chars.IsDigit(text[i]);
        }
      }
      StripNothing(text);
      assert Chars.IsDigit(text[0]);
      DigitRunOfDigits(text);
    }
  }

  lemma StripNothing(s: string)
    requires forall i :: 0 <= i < |s| ==> !IsPyWhitespace(s[i])
    ensures Chars.Strip(s, IsPyWhitespace) == s
  {
    var r := Chars.Strip(s, IsPyWhitespace);
    if s != [] {
      assert Chars.StripStart(s, IsPyWhitespace) == 0;
    }
  }

  lemma {:induction false} ParseUnpadded(t: string, digits: string)
    requires forall i :: 0 <= i < |t| ==> !IsPyWhitespace(t[i])
    requires Chars.AllDigits(digits) && |digits| > 0
    requires t == digits || t == "-" + digits
    ensures ParsePyInt(t) == Some(if t[0] == '-' then 0 - Chars.DigitsValue(digits) as int else Chars.DigitsValue(digits))
  {
    if t != digits {
      StripNothing(t);
      assert t[1..] == digits;
      DigitRunOfDigits(digits);
    }
  }

  lemma DigitRunOfDigits(digits: string)
    requires Chars.AllDigits(digits) && |digits| > 0
    ensures IsDigitRun(digits) && RemoveUnderscores(digits) == digits
  {
    assert forall i :: 0 <= i < |digits| ==> digits[i] != '_' by {
      forall i | 0 <= i < |digits|
        ensures digits[i] != '_'
      {
        assert Chars.IsDigit(digits[i]);
      }
    }
  }

  /** A decimal rendering holds only digits and perhaps a leading `-`, none of them whitespace. */
  lemma DecimalHasNoWhitespace(n: int)
    ensures forall i :: 0 <= i < |Chars.IntToDecimal(n)| ==> !IsPyWhitespace(Chars.IntToDecimal(n)[i])
  {
    var s := Chars.IntToDecimal(n);
    if n < 0 {
      var digits := Chars.NatToDecimal(-n);
      assert s == "-" + digits;
      forall i | 0 < i < |s|
        ensures !IsPyWhitespace(s[i])
      {
        assert s[i] == digits[i - 1];
      }
    }
  }

  /** `str(n)` read back by `int()` gives `n`. */
  lemma {:induction false} ParsePyIntDecimal(n: int)
    ensures ParsePyInt(Chars.IntToDecimal(n)) == Some(n)
  {
    var m: nat := if n < 0 then -n else n;
    var digits := Chars.NatToDecimal(m);
    Chars.NatToDecimalValue(m);
    DecimalHasNoWhitespace(n);
    ParseUnpadded(Chars.IntToDecimal(n), digits);
  }

  /** Python truthiness of the `sub` claim (`if not user_id`). */
  predicate Truthy(c: Claim) {
    match c
    case Str(s) => s != ""
    case Int(i) => i != 0
    case Bool(b) => b
    case Null => false
  }

  /** `int(value)`: `None` for the `ValueError` or `TypeError` it raises. */
  function PyInt(c: Claim): Option<int> {
    match c
    case Str(s) => ParsePyInt(s)
    case Int(i) => Some(i)
    case Bool(b) => Some(if b then 1 else 0)
    case Null => None
  }

  type Claim = Auth.Claim

  /** `payload.get('sub')`, with an absent claim read as `None`. */
  function Subject(payload: Auth.Claims): Claim {
    if "sub" in payload then payload["sub"] else Auth.Null
  }

  /**
   * `get_current_user(token)` at instant `now` over the user table `users`:
   * the token must be non-empty, decode to a non-empty payload, carry a truthy
   * `sub` that `int()` accepts, and name an existing user, which is returned.
   * The first guard that fails names the failure; the table is consulted only
   * once every token check has passed.
   */
  function GetCurrentUser(token: Auth.Token, users: map<int, User>, now: int): (r: Result<User, GateFailure>)
    ensures token == Auth.Unparsed("") <==> r == Failure(NoToken)
    ensures r == Failure(InvalidToken) <==>
              token != Auth.Unparsed("") && (Auth.DecodeAccessToken(token, now).None? || token.claims == map[])
    ensures r == Failure(InvalidTokenFormat) <==>
              Auth.DecodeAccessToken(token, now).Some? && token.claims != map[] && !Truthy(Subject(token.claims))
    ensures r == Failure(InvalidUserId) <==>
              && Auth.DecodeAccessToken(token, now).Some? && token.claims != map[]
              && Truthy(Subject(token.claims)) && PyInt(Subject(token.claims)).None?
    ensures r == Failure(UserNotFound) <==>
              && Auth.DecodeAccessToken(token, now).Some? && token.claims != map[]
              && Truthy(Subject(token.claims)) && PyInt(Subject(token.claims)).Some?
              && PyInt(Subject(token.claims)).value !in users
    ensures r.Success? <==>
              && Auth.DecodeAccessToken(token, now).Some? && token.claims != map[]
              && Truthy(Subject(token.claims)) && PyInt(Subject(token.claims)).Some?
              && PyInt(Subject(token.claims)).value in users
    ensures r.Success? ==> r.value == users[PyInt(Subject(token.claims)).value]
    ensures r.Success? && KeyedById(users) ==> Some(r.value.id) == PyInt(Subject(token.claims))
  {
    if token == Auth.Unparsed("") then Failure(NoToken)
    else
      match Auth.DecodeAccessToken(token, now)
      case None => Failure(InvalidToken)
      case Some(payload) =>
        if payload == map[] then Failure(InvalidToken)
        else if !Truthy(Subject(payload)) then Failure(InvalidTokenFormat)
        else
          match PyInt(Subject(payload))
          case None => Failure(InvalidUserId)
          case Some(id) => if id in users then Success(users[id]) else Failure(UserNotFound)
  }

  /**
   * The token `login` issues for a user, `create_access_token({'sub': str(id)})`,
   * authenticates that user for the whole default lifetime.
   */
  lemma {:induction false} LoginTokenAuthenticates(users: map<int, User>, id: int, issuedAt: int, now: int)
    requires id in users
    requires now <= issuedAt + Auth.DEFAULT_LIFETIME
    ensures GetCurrentUser(Auth.CreateAccessToken(map["sub" := Auth.Str(Chars.IntToDecimal(id))], None, issuedAt), users, now)
            == Success(users[id])
  {
    var data := map["sub" := Auth.Str(Chars.IntToDecimal(id))];
    Auth.IssuedTokenLifetime(data, None, issuedAt, now);
    ParsePyIntDecimal(id);
  }

  /** A token that is forged, signed for another algorithm, unparsable, expired or with a non-string subject stops at the decode guard. */
  lemma UntrustedTokenRejected(token: Auth.Token, users: map<int, User>, now: int)
    requires token != Auth.Unparsed("")
    requires token.Unparsed? || token.key != Config.JWT_SECRET || token.alg != Auth.ALGORITHM
             || !Auth.NotExpired(token.claims, now) || !Auth.SubjectIsString(token.claims)
    ensures GetCurrentUser(token, users, now) == Failure(InvalidToken)
  {
  }

  /** Every guard's failure other than the last one is reached without reading the user table. */
  lemma {:induction false} TokenChecksPrecedeLookup(token: Auth.Token, users: map<int, User>, others: map<int, User>, now: int)
    requires GetCurrentUser(token, users, now).Failure?
    requires GetCurrentUser(token, users, now).error != UserNotFound
    ensures GetCurrentUser(token, others, now) == GetCurrentUser(token, users, now)
  {
  }

}
