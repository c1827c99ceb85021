/**
 * The part of JavaScript's `JSON.stringify` and `JSON.parse` that the
 * frontend's local-storage records use: a value is a scalar (string, integer,
 * boolean or null) or an object whose members are scalars.
 *
 * `Stringify` produces exactly the text of `JSON.stringify`, with no
 * insignificant whitespace. `Parse` accepts JSON text (RFC 8259) within the
 * subset, with insignificant whitespace anywhere between tokens, and is
 * `None` both for text `JSON.parse` rejects with a `SyntaxError` and for JSON
 * outside the subset (arrays, nested objects, numbers with a fraction or an
 * exponent, `\u` escapes of surrogate halves).
 *
 * Object members are kept in JavaScript's property order: keys that are array
 * indices (canonical decimal numbers up to 2^32 - 2) first, in ascending
 * numeric order, then the other keys in the order they were first created.
 * Assigning to an existing key keeps its place.
 */
module Json {
  import opened Outcomes
  import Chars

  datatype Scalar = Str(s: string) | Num(n: int) | Bool(b: bool) | Null

  type Member = (string, Scalar)

  datatype Value = Prim(p: Scalar) | Object(members: seq<Member>)

  // ---------------------------------------------------------------------------
  // Objects as ordered members

  const MAX_INDEX: nat := 4294967294

  /** A key JavaScript treats as an array index. */
  predicate IsIndexKey(k: string) {
    && |k| > 0 && Chars.AllDigits(k) && (k[0] == '0' ==> |k| == 1)
    && Chars.DigitsValue(k) <= MAX_INDEX
  }

  /** `a` may be listed before `b` in a JavaScript object. */
  predicate MayPrecede(a: string, b: string) {
    IsIndexKey(b) ==> IsIndexKey(a) && Chars.DigitsValue(a) <= Chars.DigitsValue(b)
  }

  /** Distinct keys in JavaScript's property order. */
  predicate WellOrdered(ms: seq<Member>) {
    forall i, j :: 0 <= i < j < |ms| ==> ms[i].0 != ms[j].0 && MayPrecede(ms[i].0, ms[j].0)
  }

  /** The value of property `k`, `undefined` being `None`. */
  function Lookup(ms: seq<Member>, k: string): (r: Option<Scalar>)
    ensures r.None? <==> forall i :: 0 <= i < |ms| ==> ms[i].0 != k
  {
    if ms == [] then None else if ms[0].0 == k then Some(ms[0].1) else Lookup(ms[1..], k)
  }

  lemma {:induction false} LookupAt(ms: seq<Member>, i: nat)
    requires WellOrdered(ms) && i < |ms|
    ensures Lookup(ms, ms[i].0) == Some(ms[i].1)
  {
    if i > 0 {
      assert WellOrdered(ms[1..]);
      assert ms[1..][i - 1] == ms[i];
      LookupAt(ms[1..], i - 1);
    }
  }

  function Replace(ms: seq<Member>, k: string, v: Scalar): (r: seq<Member>)
    ensures |r| == |ms|
    ensures forall i :: 0 <= i < |ms| ==> r[i].0 == ms[i].0
  {
    if ms == [] then [] else if ms[0].0 == k then [(k, v)] + ms[1..] else [ms[0]] + Replace(ms[1..], k, v)
  }

  /** A new key `k` is placed before the present key `first`: `k` is an index and `first` is not a smaller or equal one. */
  predicate GoesBefore(k: string, first: string) {
    IsIndexKey(k) && !(IsIndexKey(first) && Chars.DigitsValue(first) <= Chars.DigitsValue(k))
  }

  /** A new property: an index key goes after the smaller indices, any other key at the end. */
  function Insert(ms: seq<Member>, k: string, v: Scalar): (r: seq<Member>)
    ensures |r| == |ms| + 1
  {
    if ms == [] then [(k, v)]
    else if GoesBefore(k, ms[0].0) then [(k, v)] + ms
    else [ms[0]] + Insert(ms[1..], k, v)
  }

  /** The assignment `obj[k] = v`. */
  function Put(ms: seq<Member>, k: string, v: Scalar): seq<Member> {
    if Lookup(ms, k).Some? then Replace(ms, k, v) else Insert(ms, k, v)
  }

  lemma {:induction false} LookupReplace(ms: seq<Member>, k: string, v: Scalar, k': string)
    ensures Lookup(Replace(ms, k, v), k') == if k' == k && Lookup(ms, k).Some? then Some(v) else Lookup(ms, k')
  {
    if ms != [] && ms[0].0 != k {
      LookupReplace(ms[1..], k, v, k');
    }
  }

  lemma {:induction false} LookupInsert(ms: seq<Member>, k: string, v: Scalar, k': string)
    requires Lookup(ms, k).None?
    ensures Lookup(Insert(ms, k, v), k') == if k' == k then Some(v) else Lookup(ms, k')
  {
    if ms != [] && !(GoesBefore(k, ms[0].0)) {
      LookupInsert(ms[1..], k, v, k');
    }
  }

  /** After `obj[k] = v`, property `k` is `v` and every other property is as it was. */
  lemma LookupPut(ms: seq<Member>, k: string, v: Scalar, k': string)
    ensures Lookup(Put(ms, k, v), k) == Some(v)
    ensures k' != k ==> Lookup(Put(ms, k, v), k') == Lookup(ms, k')
  {
    if Lookup(ms, k).Some? {
      LookupReplace(ms, k, v, k);
      LookupReplace(ms, k, v, k');
    } else {
      LookupInsert(ms, k, v, k);
      LookupInsert(ms, k, v, k');
    }
  }

  /** Where a new key is inserted, and that the keys before it may precede it and it may precede the rest. */
  /** A key placed before the first key of a well-ordered object may precede every key of it. */
  lemma GoesBeforeAll(ms: seq<Member>, k: string)
    requires WellOrdered(ms) && ms != [] && GoesBefore(k, ms[0].0)
    ensures forall j :: 0 <= j < |ms| ==> MayPrecede(k, ms[j].0)
  {
    forall j | 0 < j < |ms|
      ensures MayPrecede(k, ms[j].0)
    {
      assert MayPrecede(ms[0].0, ms[j].0);
    }
  }

  lemma {:induction false} InsertShape(ms: seq<Member>, k: string, v: Scalar) returns (p: nat)
    requires WellOrdered(ms)
    ensures p <= |ms| && Insert(ms, k, v) == ms[..p] + [(k, v)] + ms[p..]
    ensures forall i :: 0 <= i < p ==> MayPrecede(ms[i].0, k)
    ensures forall j :: p <= j < |ms| ==> MayPrecede(k, ms[j].0)
  {
    if ms == [] {
      p := 0;
    } else if GoesBefore(k, ms[0].0) {
      p := 0;
      GoesBeforeAll(ms, k);
    } else {
      var tail := ms[1..];
      assert WellOrdered(tail);
      var q := InsertShape(tail, k, v);
      p := q + 1;
      InsertShapeStep(ms, k, v, q);
    }
  }

  /** The step of `InsertShape` past a first key that the new key does not go before. */
  lemma InsertShapeStep(ms: seq<Member>, k: string, v: Scalar, q: nat)
    requires ms != [] && !GoesBefore(k, ms[0].0)
    requires q <= |ms[1..]| && Insert(ms[1..], k, v) == ms[1..][..q] + [(k, v)] + ms[1..][q..]
    requires forall i :: 0 <= i < q ==> MayPrecede(ms[1..][i].0, k)
    requires forall j :: q <= j < |ms[1..]| ==> MayPrecede(k, ms[1..][j].0)
    ensures Insert(ms, k, v) == ms[..q + 1] + [(k, v)] + ms[q + 1..]
    ensures forall i :: 0 <= i < q + 1 ==> MayPrecede(ms[i].0, k)
    ensures forall j :: q + 1 <= j < |ms| ==> MayPrecede(k, ms[j].0)
  {
    InsertStepShape(ms, k, v, q);
    KeysShifted(ms, k, q);
  }

  lemma InsertStepShape(ms: seq<Member>, k: string, v: Scalar, q: nat)
    requires ms != [] && !GoesBefore(k, ms[0].0)
    requires q <= |ms[1..]| && Insert(ms[1..], k, v) == ms[1..][..q] + [(k, v)] + ms[1..][q..]
    ensures Insert(ms, k, v) == ms[..q + 1] + [(k, v)] + ms[q + 1..]
  {
    InsertPastFirst(ms, k, v);
    ConsSplice(ms, (k, v), q);
  }

  lemma InsertPastFirst(ms: seq<Member>, k: string, v: Scalar)
    requires ms != [] && !GoesBefore(k, ms[0].0)
    ensures Insert(ms, k, v) == [ms[0]] + Insert(ms[1..], k, v)
  {
  }

  /** Splicing `x` in at `q` after the head is splicing it in at `q + 1`. */
  lemma ConsSplice<T>(s: seq<T>, x: T, q: nat)
    requires s != [] && q <= |s| - 1
    ensures [s[0]] + (s[1..][..q] + [x] + s[1..][q..]) == s[..q + 1] + [x] + s[q + 1..]
  {
    var a, b, c, d := [s[0]], s[1..][..q], [x], s[1..][q..];
    Assoc(a, b + c, d);
    Assoc(a, b, c);
    assert s[..q + 1] == a + b;
    assert s[q + 1..] == d;
  }

  /** The precedence facts about `ms[1..]` and the first key, restated on `ms`. */
  lemma KeysShifted(ms: seq<Member>, k: string, q: nat)
    requires ms != [] && !GoesBefore(k, ms[0].0) && q + 1 <= |ms|
    requires forall i :: 0 <= i < q ==> MayPrecede(ms[1..][i].0, k)
    requires forall j :: q <= j < |ms[1..]| ==> MayPrecede(k, ms[1..][j].0)
    ensures forall i :: 0 <= i < q + 1 ==> MayPrecede(ms[i].0, k)
    ensures forall j :: q + 1 <= j < |ms| ==> MayPrecede(k, ms[j].0)
  {
    forall i | 0 < i < q + 1
      ensures MayPrecede(ms[i].0, k)
    {
      assert ms[i] == ms[1..][i - 1];
    }
    forall j | q + 1 <= j < |ms|
      ensures MayPrecede(k, ms[j].0)
    {
      assert ms[j] == ms[1..][j - 1];
    }
  }

  /** Assignment keeps an object's keys distinct and in property order. */
  lemma PutWellOrdered(ms: seq<Member>, k: string, v: Scalar)
    requires WellOrdered(ms)
    ensures WellOrdered(Put(ms, k, v))
  {
    if Lookup(ms, k).None? {
      var p := InsertShape(ms, k, v);
      var r := Insert(ms, k, v);
      forall i, j | 0 <= i < j < |r|
        ensures r[i].0 != r[j].0 && MayPrecede(r[i].0, r[j].0)
      {
        if j < p {
          assert r[i] == ms[i] && r[j] == ms[j];
        } else if j == p {
          assert r[i] == ms[i];
        } else if i < p {
          assert r[i] == ms[i] && r[j] == ms[j - 1];
          assert MayPrecede(ms[i].0, k) && MayPrecede(k, ms[j - 1].0);
        } else if i == p {
          assert r[j] == ms[j - 1];
        } else {
          assert r[i] == ms[i - 1] && r[j] == ms[j - 1];
        }
      }
    }
  }

  /** A new key that may follow every present key is appended. */
  lemma {:induction false} PutAppends(ms: seq<Member>, k: string, v: Scalar)
    requires forall i :: 0 <= i < |ms| ==> ms[i].0 != k && MayPrecede(ms[i].0, k)
    ensures Put(ms, k, v) == ms + [(k, v)]
  {
    if ms != [] {
      PutAppends(ms[1..], k, v);
      assert Insert(ms[1..], k, v) == ms[1..] + [(k, v)];
      assert ms == [ms[0]] + ms[1..];
    }
  }

  // ---------------------------------------------------------------------------
  // JSON.stringify

  /** The escape `JSON.stringify` writes for one character of a string. */
  function EscapeChar(c: char): string {
    if c == '"' then "\\\""
    else if c == '\\' then "\\\\"
    else if c as int == 8 then "\\b"
    else if c as int == 12 then "\\f"
    else if c == '\n' then "\\n"
    else if c == '\r' then "\\r"
    else if c == '\t' then "\\t"
    else if c as int < 0x20 then "\\u00" + [Chars.HexDigit(c as int / 16), Chars.HexDigit(c as int % 16)]
    else [c]
  }

  function Escape(s: string): string {
    if s == [] then [] else EscapeChar(s[0]) + Escape(s[1..])
  }

  function Quote(s: string): string {
    "\"" + Escape(s) + "\""
  }

  function ScalarText(x: Scalar): string {
    match x
    case Str(s) => Quote(s)
    case Num(n) => Chars.IntToDecimal(n)
    case Bool(b) => if b then "true" else "false"
    case Null => "null"
  }

  function MemberText(m: Member): string {
    Quote(m.0) + ":" + ScalarText(m.1)
  }

  function MembersText(ms: seq<Member>): string {
    if ms == [] then []
    else if |ms| == 1 then MemberText(ms[0])
    else MemberText(ms[0]) + "," + MembersText(ms[1..])
  }

  function Stringify(v: Value): string {
    match v
    case Prim(x) => ScalarText(x)
    case Object(ms) => "{" + MembersText(ms) + "}"
  }

  // ---------------------------------------------------------------------------
  // JSON.parse

  predicate IsJsonWhitespace(c: char) {
    c == ' ' || c == '\t' || c == '\n' || c == '\r'
  }

  function SkipWs(s: string): (r: string)
    ensures |r| <= |s|
  {
    if s != [] && IsJsonWhitespace(s[0]) then SkipWs(s[1..]) else s
  }

  /** The character an escape after a backslash stands for, and the length of the escape. */
  function Unescape(s: string): (r: Option<(char, nat)>)
    ensures r.Some? ==> 1 <= r.value.1 <= |s|
  {
    if s == [] then None
    else if s[0] == '"' || s[0] == '\\' || s[0] == '/' then Some((s[0], 1))
    else if s[0] == 'b' then Some((8 as char, 1))
    else if s[0] == 'f' then Some((12 as char, 1))
    else if s[0] == 'n' then Some(('\n', 1))
    else if s[0] == 'r' then Some(('\r', 1))
    else if s[0] == 't' then Some(('\t', 1))
    else if s[0] == 'u' && |s| >= 5 && Chars.IsHexDigit(s[1]) && Chars.IsHexDigit(s[2])
            && Chars.IsHexDigit(s[3]) && Chars.IsHexDigit(s[4]) then
      var code := Chars.HexValue(s[1]) * 4096 + Chars.HexValue(s[2]) * 256
                  + Chars.HexValue(s[3]) * 16 + Chars.HexValue(s[4]);
      if 0xD800 <= code <= 0xDFFF then None else Some((code as char, 5))
    else None
  }

  /** The characters of a string literal up to its closing quote, and the text after it. */
  function ParseChars(s: string): (r: Option<(string, string)>)
    ensures r.Some? ==> |r.value.1| < |s|
    decreases |s|
  {
    if s == [] then None
    else if s[0] == '"' then Some(([], s[1..]))
    else if s[0] == '\\' then
      match Unescape(s[1..])
      case None => None
      case Some((c, n)) =>
        match ParseChars(s[1 + n..])
        case None => None
        case Some((t, rest)) => Some(([c] + t, rest))
    else if s[0] as int < 0x20 then None
    else
      match ParseChars(s[1..])
      case None => None
      case Some((t, rest)) => Some(([s[0]] + t, rest))
  }

  /** Length of the run of decimal digits at the start of `s`. */
  function DigitRun(s: string): (k: nat)
    ensures k <= |s|
    ensures forall i :: 0 <= i < k ==> Chars.IsDigit(s[i])
    ensures k < |s| ==> !Chars.IsDigit(s[k])
  {
    if s == [] || !Chars.IsDigit(s[0]) then 0 else 1 + DigitRun(s[1..])
  }

  /** An unsigned integer, `0` or a digit run without a leading zero, with no fraction or exponent. */
  function ParseNat(s: string): (r: Option<(nat, string)>)
    ensures r.Some? ==> |r.value.1| < |s|
  {
    if s == [] || !Chars.IsDigit(s[0]) then None
    else
      var k := if s[0] == '0' then 1 else DigitRun(s);
      var rest := s[k..];
      if rest != [] && (rest[0] == '.' || rest[0] == 'e' || rest[0] == 'E') then None
      else Some((Chars.DigitsValue(s[..k]), rest))
  }

  function ParseScalar(s: string): (r: Option<(Scalar, string)>)
    ensures r.Some? ==> |r.value.1| < |s|
  {
    var t := SkipWs(s);
    if t == [] then None
    else if t[0] == '"' then
      match ParseChars(t[1..])
      case None => None
      case Some((text, rest)) => Some((Str(text), rest))
    else if t[0] == '-' then
      match ParseNat(t[1..])
      case None => None
      case Some((n, rest)) => Some((Num(-(n as int)), rest))
    else if Chars.IsDigit(t[0]) then
      match ParseNat(t)
      case None => None
      case Some((n, rest)) => Some((Num(n), rest))
    else if "null" <= t then Some((Null, t[4..]))
    else if "true" <= t then Some((Bool(true), t[4..]))
    else if "false" <= t then Some((Bool(false), t[5..]))
    else None
  }

  /** The members of an object after its `{` or after a `,`, assigned in turn onto `acc`. */
  function ParseMembers(s: string, acc: seq<Member>): (r: Option<(seq<Member>, string)>)
    ensures r.Some? ==> |r.value.1| < |s|
    decreases |s|
  {
    var t := SkipWs(s);
    if t == [] || t[0] != '"' then None
    else
      match ParseChars(t[1..])
      case None => None
      case Some((key, r1)) =>
        var r2 := SkipWs(r1);
        if r2 == [] || r2[0] != ':' then None
        else
          match ParseScalar(r2[1..])
          case None => None
          case Some((x, r3)) =>
            var r4 := SkipWs(r3);
            var acc' := Put(acc, key, x);
            if r4 == [] then None
            else if r4[0] == ',' then ParseMembers(r4[1..], acc')
            else if r4[0] == '}' then Some((acc', r4[1..]))
            else None
  }

  function ParseValue(s: string): (r: Option<(Value, string)>)
    ensures r.Some? ==> |r.value.1| < |s|
  {
    var t := SkipWs(s);
    if t != [] && t[0] == '{' then
      var u := SkipWs(t[1..]);
      if u != [] && u[0] == '}' then Some((Object([]), u[1..]))
      else
        match ParseMembers(t[1..], [])
        case None => None
        case Some((ms, rest)) => Some((Object(ms), rest))
    else
      match ParseScalar(s)
      case None => None
      case Some((x, rest)) => Some((Prim(x), rest))
  }

  /** `JSON.parse(text)`, `None` for the `SyntaxError` and for JSON outside the subset. */
  function Parse(text: string): Option<Value> {
    match ParseValue(text)
    case None => None
    case Some((v, rest)) => if SkipWs(rest) == [] then Some(v) else None
  }

  // ---------------------------------------------------------------------------
  // Parsing produces objects in property order

  lemma {:induction false} ParseMembersWellOrdered(s: string, acc: seq<Member>)
    requires WellOrdered(acc)
    ensures ParseMembers(s, acc).Some? ==> WellOrdered(ParseMembers(s, acc).value.0)
    decreases |s|
  {
    var t := SkipWs(s);
    if t != [] && t[0] == '"' && ParseChars(t[1..]).Some? {
      var (key, r1) := ParseChars(t[1..]).value;
      var r2 := SkipWs(r1);
      if r2 != [] && r2[0] == ':' && ParseScalar(r2[1..]).Some? {
        var (x, r3) := ParseScalar(r2[1..]).value;
        var r4 := SkipWs(r3);
        PutWellOrdered(acc, key, x);
        if r4 != [] && r4[0] == ',' {
          ParseMembersWellOrdered(r4[1..], Put(acc, key, x));
        }
      }
    }
  }

  /** Every object `Parse` returns has distinct keys in property order, duplicates in the text notwithstanding. */
  lemma ParsedObjectsWellOrdered(text: string)
    ensures Parse(text).Some? && Parse(text).value.Object? ==> WellOrdered(Parse(text).value.members)
  {
    var t := SkipWs(text);
    if t != [] && t[0] == '{' {
      ParseMembersWellOrdered(t[1..], []);
    }
  }

  // ---------------------------------------------------------------------------
  // Round trip

  lemma ShortEscapeRoundTrip(c: char, tail: string)
    requires |EscapeChar(c)| == 2
    ensures ParseChars(EscapeChar(c) + tail) ==
              match ParseChars(tail)
              case None => None
              case Some((t, r)) => Some(([c] + t, r))
  {
    var text := EscapeChar(c) + tail;
    assert text[0] == '\\';
    assert text[1..][0] == EscapeChar(c)[1];
    assert Unescape(text[1..]) == Some((c, 1));
    assert text[2..] == tail;
  }

  lemma UnicodeEscapeRoundTrip(c: char, tail: string)
    requires |EscapeChar(c)| == 6
    ensures ParseChars(EscapeChar(c) + tail) ==
              match ParseChars(tail)
              case None => None
              case Some((t, r)) => Some(([c] + t, r))
  {
    var code := c as int;
    var text := EscapeChar(c) + tail;
    assert EscapeChar(c) == "\\u00" + [Chars.HexDigit(code / 16), Chars.HexDigit(code % 16)];
    var u := text[1..];
    assert u[0] == 'u' && u[1] == '0' && u[2] == '0';
    assert u[3] == Chars.HexDigit(code / 16) && u[4] == Chars.HexDigit(code % 16);
    assert Unescape(u) == Some((c, 5));
    assert text[6..] == tail;
  }

  lemma {:induction false} EscapeRoundTrip(s: string, rest: string)
    ensures ParseChars(Escape(s) + "\"" + rest) == Some((s, rest))
  {
    if s == [] {
      assert Escape(s) + "\"" + rest == "\"" + rest;
    } else {
      var c := s[0];
      var tail := Escape(s[1..]) + "\"" + rest;
      EscapeRoundTrip(s[1..], rest);
      var e := EscapeChar(c);
      assert Escape(s) + "\"" + rest == e + tail;
      if |e| == 1 {
        var text := e + tail;
        assert text[0] == c && text[1..] == tail;
      } else if |e| == 2 {
        ShortEscapeRoundTrip(c, tail);
      } else {
        UnicodeEscapeRoundTrip(c, tail);
      }
      assert [c] + s[1..] == s;
    }
  }

  lemma QuoteRoundTrip(s: string, rest: string)
    ensures ParseScalar(Quote(s) + rest) == Some((Str(s), rest))
  {
    var text := Quote(s) + rest;
    assert text == "\"" + (Escape(s) + "\"" + rest);
    assert text[1..] == Escape(s) + "\"" + rest;
    EscapeRoundTrip(s, rest);
  }

  /** A character that can follow a scalar's text inside the subset. */
  predicate EndsToken(rest: string) {
    rest == [] || rest[0] == ',' || rest[0] == '}'
  }

  lemma {:induction false} DigitRunOfDecimal(d: string, rest: string)
    requires Chars.AllDigits(d) && EndsToken(rest)
    ensures DigitRun(d + rest) == |d|
  {
    if d != [] {
      assert (d + rest)[1..] == d[1..] + rest;
      DigitRunOfDecimal(d[1..], rest);
    }
  }

  lemma NatRoundTrip(n: nat, rest: string)
    requires EndsToken(rest)
    ensures ParseNat(Chars.NatToDecimal(n) + rest) == Some((n, rest))
  {
    var d := Chars.NatToDecimal(n);
    var s := d + rest;
    Chars.NatToDecimalValue(n);
    if n == 0 {
      assert s[1..] == rest && s[..1] == d;
    } else {
      DigitRunOfDecimal(d, rest);
      assert s[..|d|] == d && s[|d|..] == rest;
    }
  }

  lemma NumRoundTrip(n: int, rest: string)
    requires EndsToken(rest)
    ensures ParseScalar(ScalarText(Num(n)) + rest) == Some((Num(n), rest))
  {
    if n < 0 {
      var d := Chars.NatToDecimal(-n);
      Assoc("-", d, rest);
      NegativeRoundTrip(-n, rest);
    } else {
      NonNegativeRoundTrip(n, rest);
    }
  }

  lemma NegativeRoundTrip(m: nat, rest: string)
    requires EndsToken(rest)
    ensures ParseScalar("-" + (Chars.NatToDecimal(m) + rest)) == Some((Num(-(m as int)), rest))
  {
    var text := "-" + (Chars.NatToDecimal(m) + rest);
    assert text[0] == '-' && SkipWs(text) == text;
    assert text[1..] == Chars.NatToDecimal(m) + rest;
    NatRoundTrip(m, rest);
  }

  lemma NonNegativeRoundTrip(m: nat, rest: string)
    requires EndsToken(rest)
    ensures ParseScalar(Chars.NatToDecimal(m) + rest) == Some((Num(m), rest))
  {
    var d := Chars.NatToDecimal(m);
    var text := d + rest;
    assert text[0] == d[0] && Chars.IsDigit(text[0]);
    assert SkipWs(text) == text;
    NatRoundTrip(m, rest);
  }

  lemma LiteralRoundTrip(x: Scalar, rest: string)
    requires x.Bool? || x.Null?
    ensures ParseScalar(ScalarText(x) + rest) == Some((x, rest))
  {
    var text := ScalarText(x) + rest;
    if x.Null? {
      assert text[..4] == "null" && text[4..] == rest;
    } else if x.b {
      assert text[..4] == "true" && text[4..] == rest;
    } else {
      assert text[..5] == "false" && text[5..] == rest;
    }
  }

  lemma ScalarRoundTrip(x: Scalar, rest: string)
    requires EndsToken(rest)
    ensures ParseScalar(ScalarText(x) + rest) == Some((x, rest))
  {
    match x
    case Str(s) => QuoteRoundTrip(s, rest);
    case Num(n) => NumRoundTrip(n, rest);
    case Bool(_) => LiteralRoundTrip(x, rest);
    case Null => LiteralRoundTrip(x, rest);
  }

  lemma MemberTextSplit(k: string, x: Scalar, follow: string)
    ensures MemberText((k, x)) + follow == "\"" + (Escape(k) + "\"" + (":" + (ScalarText(x) + follow)))
  {
    var e, t := Escape(k), ScalarText(x) + follow;
    Assoc(Quote(k) + ":", ScalarText(x), follow);
    Assoc(Quote(k), ":", t);
    Assoc("\"" + e, "\"", ":" + t);
    Assoc("\"", e, "\"" + (":" + t));
    Assoc(e, "\"", ":" + t);
  }

  lemma Assoc<T>(a: seq<T>, b: seq<T>, c: seq<T>)
    ensures (a + b) + c == a + (b + c)
  {
  }

  /** One member's text followed by `,` or `}` is read as the assignment of that member. */
  lemma MemberStep(k: string, x: Scalar, follow: string, acc: seq<Member>)
    requires follow != [] && (follow[0] == ',' || follow[0] == '}')
    ensures ParseMembers(MemberText((k, x)) + follow, acc) ==
              if follow[0] == ',' then ParseMembers(follow[1..], Put(acc, k, x))
              else Some((Put(acc, k, x), follow[1..]))
  {
    var value := ScalarText(x) + follow;
    var afterKey := ":" + value;
    var body := Escape(k) + "\"" + afterKey;
    var text := "\"" + body;
    MemberTextSplit(k, x, follow);
    assert SkipWs(text) == text && text[1..] == body;
    EscapeRoundTrip(k, afterKey);
    assert SkipWs(afterKey) == afterKey && afterKey[1..] == value;
    ScalarRoundTrip(x, follow);
    assert SkipWs(follow) == follow;
    ParseMembersUnfold(text, acc, k, afterKey, x, follow);
  }

  /** One member of `ParseMembers`, from the results of its three sub-parses. */
  lemma ParseMembersUnfold(t: string, acc: seq<Member>, key: string, r1: string, x: Scalar, r3: string)
    requires SkipWs(t) == t && t != [] && t[0] == '"' && ParseChars(t[1..]) == Some((key, r1))
    requires SkipWs(r1) == r1 && r1 != [] && r1[0] == ':' && ParseScalar(r1[1..]) == Some((x, r3))
    requires SkipWs(r3) == r3 && r3 != [] && (r3[0] == ',' || r3[0] == '}')
    ensures ParseMembers(t, acc) ==
              if r3[0] == ',' then ParseMembers(r3[1..], Put(acc, key, x))
              else Some((Put(acc, key, x), r3[1..]))
  {
  }

  lemma ConcatAssoc(a: string, b: string, c: string, d: string)
    ensures (a + b + c) + d == a + (b + (c + d))
  {
  }

  lemma MembersTextSplit(ms: seq<Member>, tail: string)
    requires |ms| > 1
    ensures MembersText(ms) + tail == MemberText(ms[0]) + ("," + (MembersText(ms[1..]) + tail))
  {
    var m := MemberText(ms[0]);
    var r := MembersText(ms[1..]);
    assert MembersText(ms) == m + "," + r;
    ConcatAssoc(m, ",", r, tail);
  }

  lemma WellOrderedAppendPrefix(acc: seq<Member>, ms: seq<Member>)
    requires ms != [] && WellOrdered(acc + ms)
    ensures forall i :: 0 <= i < |acc| ==> acc[i].0 != ms[0].0 && MayPrecede(acc[i].0, ms[0].0)
    ensures acc + ms == (acc + [ms[0]]) + ms[1..]
  {
    var all := acc + ms;
    forall i | 0 <= i < |acc|
      ensures acc[i].0 != ms[0].0 && MayPrecede(acc[i].0, ms[0].0)
    {
      assert all[i] == acc[i] && all[|acc|] == ms[0];
    }
    assert ms == [ms[0]] + ms[1..];
  }

  lemma {:induction false} MembersRoundTrip(ms: seq<Member>, acc: seq<Member>, rest: string)
    requires ms != [] && WellOrdered(acc + ms)
    ensures ParseMembers(MembersText(ms) + "}" + rest, acc) == Some((acc + ms, rest))
    decreases |ms|
  {
    var k, x := ms[0].0, ms[0].1;
    assert ms[0] == (k, x);
    WellOrderedAppendPrefix(acc, ms);
    PutAppends(acc, k, x);
    var close := "}" + rest;
    assert MembersText(ms) + "}" + rest == MembersText(ms) + close;
    if |ms| == 1 {
      assert MembersText(ms) + close == MemberText((k, x)) + close;
      MemberStep(k, x, close, acc);
      assert close[1..] == rest;
      assert acc + [ms[0]] == acc + ms;
    } else {
      var more := MembersText(ms[1..]) + close;
      var follow := "," + more;
      MembersTextSplit(ms, close);
      MemberStep(k, x, follow, acc);
      assert follow[1..] == more;
      assert more == MembersText(ms[1..]) + "}" + rest;
      MembersRoundTrip(ms[1..], acc + [ms[0]], rest);
    }
  }

  lemma ScalarTextStart(x: Scalar)
    ensures ScalarText(x) != [] && !IsJsonWhitespace(ScalarText(x)[0]) && ScalarText(x)[0] != '{'
  {
    if x.Num? {
      var d := Chars.NatToDecimal(if x.n < 0 then -x.n else x.n);
      assert Chars.IsDigit(d[0]);
    }
  }

  lemma MembersTextStart(ms: seq<Member>)
    requires ms != []
    ensures MembersText(ms) != [] && MembersText(ms)[0] == '"'
  {
    var k, x := ms[0].0, ms[0].1;
    assert ms[0] == (k, x);
    var follow := if |ms| == 1 then [] else "," + (MembersText(ms[1..]) + []);
    if |ms| > 1 {
      MembersTextSplit(ms, []);
    }
    assert MembersText(ms) + [] == MemberText((k, x)) + follow;
    MemberTextSplit(k, x, follow);
    assert MembersText(ms) == MembersText(ms) + [];
  }

  lemma PrimRoundTrip(x: Scalar)
    ensures Parse(Stringify(Prim(x))) == Some(Prim(x))
  {
    var text := ScalarText(x);
    ScalarTextStart(x);
    ScalarRoundTrip(x, []);
    assert text + [] == text;
    assert SkipWs(text) == text;
    assert ParseValue(text) == Some((Prim(x), []));
  }

  /** Text `{` followed by a member: read by the member parser. */
  lemma ParseValueOpenBrace(inner: string)
    requires inner != [] && inner[0] == '"'
    ensures ParseValue("{" + inner) ==
              match ParseMembers(inner, [])
              case None => None
              case Some((ms, rest)) => Some((Object(ms), rest))
  {
    var text := "{" + inner;
    assert SkipWs(text) == text && text[1..] == inner;
    assert SkipWs(inner) == inner;
  }

  lemma EmptyObjectRoundTrip()
    ensures Parse("{}") == Some(Object([]))
  {
    assert "{}"[1..] == "}";
    assert SkipWs("}") == "}";
    assert ParseValue("{}") == Some((Object([]), []));
  }

  lemma ObjectRoundTrip(ms: seq<Member>)
    requires WellOrdered(ms)
    ensures Parse(Stringify(Object(ms))) == Some(Object(ms))
  {
    var inner := MembersText(ms) + "}";
    var text := "{" + inner;
    assert Stringify(Object(ms)) == text;
    if ms == [] {
      assert text == "{}";
      EmptyObjectRoundTrip();
    } else {
      MembersTextStart(ms);
      MembersRoundTrip(ms, [], []);
      assert inner == MembersText(ms) + "}" + [];
      assert [] + ms == ms;
      ParseValueOpenBrace(inner);
      assert ParseValue(text) == Some((Object(ms), []));
      assert SkipWs([]) == [];
    }
  }

  /** `JSON.parse(JSON.stringify(v))` gives `v` back for every value in the subset. */
  lemma StringifyRoundTrip(v: Value)
    requires v.Object? ==> WellOrdered(v.members)
    ensures Parse(Stringify(v)) == Some(v)
  {
    match v
    case Prim(x) => PrimRoundTrip(x);
    case Object(ms) => ObjectRoundTrip(ms);
  }
}
