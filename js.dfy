/** The JavaScript values that request bodies, query strings and stored
    records carry, with the coercions the CMS code applies to them
    (truthiness, `??`, `String(v)`, `Number(v)`) and the small parsing helpers
    that every controller repeats (`parseString`, `parseNumber`,
    `parseBoolean`, `parseLimit`, `parseRelationId`). */
module Js {
  import opened Wrappers
  import opened Text

  /** A JavaScript value. Numbers are integers; `NaN` and the infinities are
      the non-finite numbers. Objects are property maps. */
  datatype Value =
    | Undefined
    | Null
    | Bool(b: bool)
    | Num(n: int)
    | NaN
    | Infinity(negative: bool)
    | Str(s: string)
    | Arr(items: seq<Value>)
    | Obj(props: map<string, Value>)

  const MaxLimit: int := 100

  function Min(a: int, b: int): int { if a <= b then a else b }
  function Max(a: int, b: int): int { if a >= b then a else b }

  /** `Boolean(v)`. */
  predicate Truthy(v: Value) {
    match v
    case Undefined => false
    case Null => false
    case Bool(b) => b
    case Num(n) => n != 0
    case NaN => false
    case Infinity(_) => true
    case Str(s) => s != []
    case Arr(_) => true
    case Obj(_) => true
  }

  /** `v === undefined || v === null`. */
  predicate Nullish(v: Value) { v.Undefined? || v.Null? }

  /** `a ?? b`. */
  function Coalesce(a: Value, b: Value): Value {
    if Nullish(a) then b else a
  }

  /** `a || b`. */
  function Or(a: Value, b: Value): Value {
    if Truthy(a) then a else b
  }

  /** `v?.[key]`: a missing property, or a property of a non-object, reads as `undefined`. */
  function Get(v: Value, key: string): Value {
    if v.Obj? && key in v.props then v.props[key] else Undefined
  }

  /** `typeof v === 'number'`. */
  predicate IsNumber(v: Value) { v.Num? || v.NaN? || v.Infinity? }

  /** `x < n` for a number `x`; `NaN` compares false. */
  predicate NumLess(x: Value, n: int)
    requires IsNumber(x)
  {
    match x
    case Num(m) => m < n
    case Infinity(negative) => negative
    case _ => false
  }

  /** `x > n` for a number `x`; `NaN` compares false. */
  predicate NumGreater(x: Value, n: int)
    requires IsNumber(x)
  {
    match x
    case Num(m) => m > n
    case Infinity(negative) => !negative
    case _ => false
  }

  /** `x >= n` for a number `x`; `NaN` compares false. */
  predicate NumAtLeast(x: Value, n: int)
    requires IsNumber(x)
  {
    match x
    case Num(m) => m >= n
    case Infinity(negative) => !negative
    case _ => false
  }

  /** A record being built or stored: a property map. */
  type Record = map<string, Value>

  /** `data.k`: `undefined` when absent. */
  function Field(d: Record, k: string): Value {
    if k in d then d[k] else Undefined
  }

  /** `r` and `d` hold the same properties apart from `keys`. */
  ghost predicate SameExcept(r: Record, d: Record, keys: set<string>) {
    forall k :: k !in keys ==> (k in r <==> k in d) && (k in r ==> r[k] == d[k])
  }

  /** Two changes outside `keys` leave every property outside `keys` as it was. */
  lemma SameExceptTrans(r: Record, m: Record, d: Record, keys: set<string>)
    requires SameExcept(r, m, keys) && SameExcept(m, d, keys)
    ensures SameExcept(r, d, keys)
  {
  }

  /** Writing one of `keys` changes nothing outside them. */
  lemma UpdateKeeps(d: Record, k: string, v: Value, keys: set<string>)
    requires k in keys
    ensures SameExcept(d[k := v], d, keys)
  {
  }

  /** `{ id: String(id), ...rest }` for `const { id, ...rest } = entity`: the
      id as a string, every other property as stored. */
  function StringifyId(p: Record): (r: Record)
    ensures "id" in r && r["id"] == Str(ToStr(Field(p, "id")))
    ensures SameExcept(r, p, {"id"})
  {
    p["id" := Str(ToStr(Field(p, "id")))]
  }

  /** `if (!d[key] && d[from]) d[key] = d[from]`: a falsy property takes
      the value of a truthy one. */
  function FillFrom(d: Record, key: string, from: string): (r: Record)
    ensures Truthy(Field(d, key)) || !Truthy(Field(d, from)) ==> r == d
    ensures !Truthy(Field(d, key)) && Truthy(Field(d, from)) ==> r == d[key := Field(d, from)]
    ensures Truthy(Field(r, key)) <==> Truthy(Field(d, key)) || Truthy(Field(d, from))
  {
    if !Truthy(Field(d, key)) && Truthy(Field(d, from)) then d[key := Field(d, from)] else d
  }

  /** A fill changes nothing outside any set of properties holding its own. */
  lemma FillFromKeeps(d: Record, key: string, from: string, keys: set<string>)
    requires key in keys
    ensures SameExcept(FillFrom(d, key, from), d, keys)
  {
    if !Truthy(Field(d, key)) && Truthy(Field(d, from)) {
      UpdateKeeps(d, key, Field(d, from), keys);
    }
  }

  /** `typeof v === 'object'` for a value that is not null. */
  predicate IsObjectLike(v: Value) { v.Obj? || v.Arr? }

  /** `extractData`: the `data` member of a request body when it is an
      object, otherwise the body itself (`{}` when there is none). */
  function ExtractData(body: Value): (r: Value)
    ensures Truthy(Get(body, "data")) && IsObjectLike(Get(body, "data")) ==> r == Get(body, "data")
    ensures !(Truthy(Get(body, "data")) && IsObjectLike(Get(body, "data"))) && !Nullish(body) ==> r == body
    ensures !Nullish(r)
  {
    if Truthy(Get(body, "data")) && IsObjectLike(Get(body, "data")) then Get(body, "data")
    else Coalesce(body, Obj(map[]))
  }

  /** `toAbsoluteUrl`: an empty or `http(s)://` address is kept; any other
      is resolved against the request origin by `resolve`, which stands for
      the WHATWG URL parser and gives `None` when it throws. */
  function ToAbsoluteUrl(origin: string, url: string, resolve: (string, string) -> Option<string>): (r: string)
    ensures url == [] || StartsWith(url, "http://") || StartsWith(url, "https://") ==> r == url
    ensures resolve(url, origin).None? ==> r == url
  {
    if url == [] then url
    else if StartsWith(url, "http://") || StartsWith(url, "https://") then url
    else resolve(url, origin).GetOr(url)
  }

  /** `key in v` for an object. */
  predicate Has(v: Value, key: string) { v.Obj? && key in v.props }

  /** `typeof v === 'string' ? v : undefined`, as an option. */
  function AsString(v: Value): Option<string> {
    if v.Str? then Some(v.s) else None
  }

  /** `String(v)`. */
  function ToStr(v: Value): string {
    match v
    case Undefined => "undefined"
    case Null => "null"
    case Bool(b) => if b then "true" else "false"
    case Num(n) => IntToString(n)
    case NaN => "NaN"
    case Infinity(negative) => if negative then "-Infinity" else "Infinity"
    case Str(s) => s
    case Arr(items) =>
      Join(seq(|items|, i requires 0 <= i < |items| =>
        if Nullish(items[i]) then "" else ToStr(items[i])), ",")
    case Obj(_) => "[object Object]"
  }

  /** `String(v || '')`. */
  function TextOf(v: Value): (r: string)
    ensures !Truthy(v) ==> r == []
    ensures v.Str? ==> r == v.s
  {
    if Truthy(v) then ToStr(v) else []
  }

  /** An optional sign followed by one or more decimal digits. */
  predicate IsDecimal(t: string) {
    var digits := Unsigned(t);
    digits != [] && forall i :: 0 <= i < |digits| ==> IsDigit(digits[i])
  }

  /** The text after an optional leading sign. */
  function Unsigned(t: string): string {
    if t != [] && (t[0] == '+' || t[0] == '-') then t[1..] else t
  }

  function DecimalValue(t: string): int
    requires IsDecimal(t)
  {
    if t[0] == '-' then 0 - DigitsValue(Unsigned(t)) as int else DigitsValue(Unsigned(t))
  }

  /** The value of `c` as a digit of the given radix (2, 8, 10 or 16, hex
      letters in either case). */
  function RadixDigit(c: char, radix: nat): (r: Option<nat>)
    ensures r.Some? ==> r.value < radix
    ensures radix == 10 ==> (r.Some? <==> IsDigit(c))
    ensures radix == 10 && IsDigit(c) ==> r == Some(DigitValue(c))
  {
    var d := if '0' <= c <= '9' then c as int - '0' as int
      else if 'a' <= c <= 'f' then c as int - 'a' as int + 10
      else if 'A' <= c <= 'F' then c as int - 'A' as int + 10
      else radix;
    if d < radix then Some(d) else None
  }

  /** The value of a non-empty string of digits of the given radix. */
  function RadixValue(s: string, radix: nat): (r: Option<nat>)
    ensures r.Some? ==> s != []
  {
    if s == [] then None
    else
      var last := RadixDigit(s[|s| - 1], radix);
      if last.None? then None
      else if |s| == 1 then last
      else match RadixValue(s[..|s| - 1], radix)
        case None => None
        case Some(v) => Some(v * radix + last.value)
  }

  /** `0x…`, `0o…` and `0b…` (either case): an integer in base 16, 8 or 2,
      without a sign. */
  function PrefixedValue(t: string): Option<nat> {
    if |t| >= 2 && t[0] == '0' then
      var radix := if t[1] == 'x' || t[1] == 'X' then 16
        else if t[1] == 'o' || t[1] == 'O' then 8
        else if t[1] == 'b' || t[1] == 'B' then 2
        else 0;
      if radix == 0 then None else RadixValue(t[2..], radix)
    else None
  }

  /** The position of the first `a` or `b` in `s`, `|s|` when there is none. */
  function FirstOf(s: string, a: char, b: char): (i: nat)
    ensures i <= |s|
    ensures forall j :: 0 <= j < i ==> s[j] != a && s[j] != b
    ensures i < |s| ==> s[i] == a || s[i] == b
  {
    if s == [] then 0
    else if s[0] == a || s[0] == b then 0
    else 1 + FirstOf(s[1..], a, b)
  }

  predicate AllDigits(s: string) {
    forall i :: 0 <= i < |s| ==> IsDigit(s[i])
  }

  /** An unsigned decimal literal `d[.d][e±d]` or `.d[e±d]`: the digits of
      its mantissa as one number, how many of them follow the point, and
      the exponent. */
  function DecimalLiteral(u: string): Option<(nat, nat, int)> {
    var e := FirstOf(u, 'e', 'E');
    var mantissa := u[..e];
    var p := FirstOf(mantissa, '.', '.');
    var whole := mantissa[..p];
    var fraction := if p < |mantissa| then mantissa[p + 1..] else [];
    var exponent := if e < |u| then u[e + 1..] else "0";
    if whole == [] && fraction == [] then None
    else if !AllDigits(whole) || !AllDigits(fraction) || !IsDecimal(exponent) then None
    else Some((DigitsValue(whole + fraction), |fraction|, DecimalValue(exponent)))
  }

  function Pow10(n: nat): (r: nat)
    ensures r >= 1
  {
    if n == 0 then 1 else 10 * Pow10(n - 1)
  }

  /** `m · 10^(e - f)` when it is an integer. */
  function ScaledValue(m: nat, f: nat, e: int): Option<nat> {
    if e >= f then Some(m * Pow10(e - f))
    else if m % Pow10(f - e) == 0 then Some(m / Pow10(f - e))
    else None
  }

  /** `Number(s)` for a string: blank is 0; a signed decimal integer, a
      decimal literal with a point or an exponent whose value is an integer,
      and an unsigned `0x`/`0o`/`0b` literal are their values; `Infinity`
      is not finite; anything else is `NaN`. */
  function StringToNumber(s: string): (r: Value)
    ensures r.Num? || r.NaN? || r.Infinity?
  {
    var t := Trim(s);
    if t == [] then Num(0)
    else if t == "Infinity" || t == "+Infinity" then Infinity(false)
    else if t == "-Infinity" then Infinity(true)
    else if IsDecimal(t) then Num(DecimalValue(t))
    else if PrefixedValue(t).Some? then Num(PrefixedValue(t).value)
    else match DecimalLiteral(Unsigned(t))
      case None => NaN
      case Some((m, f, e)) =>
        match ScaledValue(m, f, e)
        case None => NaN
        case Some(v) => Num(if t[0] == '-' then 0 - v else v)
  }

  /** The first `a` or `b` after a run free of both is where the run ends. */
  lemma {:induction false} FirstOfAfterDigits(d: string, rest: string, a: char, b: char)
    requires forall i :: 0 <= i < |d| ==> d[i] != a && d[i] != b
    requires rest == [] || rest[0] == a
    ensures FirstOf(d + rest, a, b) == |d|
  {
    if d != [] {
      assert (d + rest)[1..] == d[1..] + rest;
      FirstOfAfterDigits(d[1..], rest, a, b);
    } else {
      assert d + rest == rest;
    }
  }

  /** Reading back a printed natural number gives it. */
  lemma PrintedNatIsDecimal(n: nat)
    ensures IsDecimal(NatToString(n)) && DecimalValue(NatToString(n)) == n
  {
    var r := NatToString(n);
    assert Unsigned(r) == r by {
      assert IsDigit(r[0]);
    }
    NatToStringRoundTrip(n);
  }

  /** A text starting with a digit is none of the spellings of infinity. */
  lemma NotInfinityWord(t: string)
    requires t != [] && IsDigit(t[0])
    ensures t != "Infinity" && t != "+Infinity" && t != "-Infinity"
  {
    assert "Infinity"[0] == 'I' && "+Infinity"[0] == '+' && "-Infinity"[0] == '-';
  }

  /** `Number` of a trimmed text that is neither a plain integer nor a
      prefixed literal is the scaled value of its decimal literal. */
  lemma NumberOfDecimalLiteral(t: string, m: nat, f: nat, e: int, v: nat)
    requires t != [] && Trim(t) == t && IsDigit(t[0])
    requires !IsDecimal(t) && PrefixedValue(t).None?
    requires DecimalLiteral(t) == Some((m, f, e)) && ScaledValue(m, f, e) == Some(v)
    ensures StringToNumber(t) == Num(v)
  {
    NotInfinityWord(t);
    assert Unsigned(t) == t;
  }

  /** `Number` of a trimmed text that is neither a plain integer nor a
      prefixed literal, whose decimal literal is not an integer, is `NaN`
      in this integer model. */
  lemma NumberOfFractionalLiteral(t: string, m: nat, f: nat, e: int)
    requires t != [] && Trim(t) == t && IsDigit(t[0])
    requires !IsDecimal(t) && PrefixedValue(t).None?
    requires DecimalLiteral(t) == Some((m, f, e)) && ScaledValue(m, f, e).None?
    ensures StringToNumber(t) == NaN
  {
    NotInfinityWord(t);
    assert Unsigned(t) == t;
  }

  /** `Number` reads `<m>e<k>` as m · 10^k. */
  lemma ExponentFormIsScaled(m: nat, k: nat)
    ensures StringToNumber(NatToString(m) + "e" + NatToString(k)) == Num(m * Pow10(k))
  {
    var digits := NatToString(m);
    var exponent := NatToString(k);
    var t := digits + ("e" + exponent);
    assert t == digits + "e" + exponent;
    assert "e" + exponent == ['e'] + exponent;
    SeparatedDigitsShape(digits, 'e', exponent);
    ExponentFormParts(digits, exponent, m, k);
    var v := Scaled(m, k);
    NumberOfDecimalLiteral(t, m, 0, k, v);
  }

  lemma Scaled(m: nat, k: nat) returns (v: nat)
    ensures v == m * Pow10(k) && ScaledValue(m, 0, k) == Some(v)
  {
    v := m * Pow10(k);
  }

  /** Digits, an exponent mark or a point, and more digits: trimmed,
      starting with a digit, and neither a plain integer nor a prefixed
      literal. */
  lemma SeparatedDigitsShape(digits: string, sep: char, tail: string)
    requires digits != [] && AllDigits(digits) && tail != [] && AllDigits(tail) && (sep == 'e' || sep == '.')
    ensures var t := digits + ([sep] + tail);
      t != [] && Trim(t) == t && IsDigit(t[0]) && !IsDecimal(t) && PrefixedValue(t).None?
  {
    var t := digits + ([sep] + tail);
    assert t[0] == digits[0];
    assert t[|t| - 1] == tail[|tail| - 1];
    TrimIdentity(t);
    assert t[|digits|] == sep;
    NotDecimal(t, |digits|);
    if |t| >= 2 {
      assert t[1] == sep || IsDigit(t[1]);
    }
    NoPrefix(t);
  }

  lemma NotDecimal(t: string, i: nat)
    requires i < |t| && !IsDigit(t[i]) && IsDigit(t[0])
    ensures !IsDecimal(t)
  {
    assert Unsigned(t) == t;
  }

  /** No prefix is read when the second character is a digit, a point or
      an exponent mark. */
  lemma NoPrefix(t: string)
    requires |t| >= 2 ==> IsDigit(t[1]) || t[1] == '.' || t[1] == 'e'
    ensures PrefixedValue(t).None?
  {
  }

  /** The parts of `<digits>e<exponent>`. */
  lemma ExponentFormParts(digits: string, exponent: string, m: nat, k: nat)
    requires digits == NatToString(m) && exponent == NatToString(k)
    ensures DecimalLiteral(digits + ("e" + exponent)) == Some((m, 0, k))
  {
    var t := digits + ("e" + exponent);
    FirstOfAfterDigits(digits, "e" + exponent, 'e', 'E');
    assert t[..|digits|] == digits;
    assert t[|digits| + 1..] == exponent;
    FirstOfAfterDigits(digits, [], '.', '.');
    assert digits + [] == digits;
    NatToStringRoundTrip(m);
    PrintedNatIsDecimal(k);
  }

  /** `Number` of a trimmed text starting with a digit that is a prefixed
      literal is its value. */
  lemma NumberOfPrefixed(t: string)
    requires t != [] && Trim(t) == t && IsDigit(t[0])
    requires !IsDecimal(t) && PrefixedValue(t).Some?
    ensures StringToNumber(t) == Num(PrefixedValue(t).value)
  {
    NotInfinityWord(t);
  }

  /** `Number("0x1F")` is 31. */
  lemma NumberOfHex()
    ensures StringToNumber("0x1F") == Num(31)
  {
    var t := "0x1F";
    TrimIdentity(t);
    assert Unsigned(t) == t && !IsDigit(t[1]);
    assert t[2..] == "1F";
    assert RadixValue("1F", 16) == Some(31) by {
      assert "1F"[..1] == "1";
      assert RadixValue("1", 16) == Some(1);
    }
    NumberOfPrefixed(t);
  }

  /** The parts of `<m>.<d>`: mantissa digits 10·m + d, one of them after
      the point, exponent 0. */
  lemma OneDecimalParts(m: nat, d: nat)
    requires d < 10
    ensures DecimalLiteral(NatToString(m) + (['.'] + [DigitChar(d)])) == Some((10 * m + d, 1, 0))
  {
    var digits := NatToString(m);
    var t := digits + (['.'] + [DigitChar(d)]);
    NoExponentMark(t);
    FirstOfAfterDigits(digits, ['.'] + [DigitChar(d)], '.', '.');
    assert t[..|digits|] == digits && t[|digits| + 1..] == [DigitChar(d)];
    AppendDigit(m, d);
    PrintedNatIsDecimal(0);
  }

  /** A text without an exponent mark is all mantissa. */
  lemma NoExponentMark(t: string)
    requires forall i :: 0 <= i < |t| ==> IsDigit(t[i]) || t[i] == '.'
    ensures FirstOf(t, 'e', 'E') == |t| && t[..|t|] == t
  {
    FirstOfAfterDigits(t, [], 'e', 'E');
    assert t + [] == t;
  }

  /** A digit written after a printed number is its value tenfold plus the digit. */
  lemma AppendDigit(m: nat, d: nat)
    requires d < 10
    ensures DigitsValue(NatToString(m) + [DigitChar(d)]) == 10 * m + d
  {
    var all := NatToString(m) + [DigitChar(d)];
    assert all[..|all| - 1] == NatToString(m);
    NatToStringRoundTrip(m);
  }

  /** `m.d` is an integer exactly when `d` is zero. */
  lemma OneDecimalScaled(m: nat, d: nat)
    requires d < 10
    ensures ScaledValue(10 * m + d, 1, 0) == if d == 0 then Some(m) else None
  {
    assert Pow10(1) == 10;
    assert (10 * m + d) % 10 == d;
    if d == 0 {
      assert (10 * m) / 10 == m;
    }
  }

  /** `Number` reads a zero after the point as nothing: `<m>.0` is m. */
  lemma ZeroFractionIsInteger(m: nat)
    ensures StringToNumber(NatToString(m) + "." + [DigitChar(0)]) == Num(m)
  {
    var t := NatToString(m) + (['.'] + [DigitChar(0)]);
    assert t == NatToString(m) + "." + [DigitChar(0)];
    var mantissa := OneDecimalShape(m, 0);
    NumberOfDecimalLiteral(t, mantissa, 1, 0, m);
  }

  /** A digit other than zero after the point is a fraction, which the
      integer model reads as `NaN`. */
  lemma FractionIsOutside(m: nat, d: nat)
    requires 0 < d < 10
    ensures StringToNumber(NatToString(m) + "." + [DigitChar(d)]) == NaN
  {
    var t := NatToString(m) + (['.'] + [DigitChar(d)]);
    assert t == NatToString(m) + "." + [DigitChar(d)];
    var mantissa := OneDecimalShape(m, d);
    NumberOfFractionalLiteral(t, mantissa, 1, 0);
  }

  /** `<m>.<d>` is a decimal literal with one fraction digit, whole
      exactly when the digit is zero. */
  lemma OneDecimalShape(m: nat, d: nat) returns (mantissa: nat)
    requires d < 10
    ensures var t := NatToString(m) + (['.'] + [DigitChar(d)]);
      t != [] && Trim(t) == t && IsDigit(t[0]) && !IsDecimal(t) && PrefixedValue(t).None?
      && DecimalLiteral(t) == Some((mantissa, 1, 0))
      && ScaledValue(mantissa, 1, 0) == if d == 0 then Some(m) else None
  {
    SeparatedDigitsShape(NatToString(m), '.', [DigitChar(d)]);
    OneDecimalParts(m, d);
    OneDecimalScaled(m, d);
    mantissa := 10 * m + d;
  }

  /** `Number(v)`. */
  function ToNumber(v: Value): (r: Value)
    ensures r.Num? || r.NaN? || r.Infinity?
  {
    match v
    case Undefined => NaN
    case Null => Num(0)
    case Bool(b) => Num(if b then 1 else 0)
    case Num(_) => v
    case NaN => v
    case Infinity(_) => v
    case Str(s) => StringToNumber(s)
    case Arr(_) => StringToNumber(ToStr(v))
    case Obj(_) => NaN
  }

  /** Printing an integer and reading it back with `Number` gives the integer. */
  lemma {:induction false} NumberOfPrintedInt(n: int)
    ensures StringToNumber(IntToString(n)) == Num(n)
  {
    var t := IntToString(n);
    TrimIdentity(t);
    var a := if n < 0 then -n else n;
    PrintedNatIsDecimal(a);
    if n < 0 {
      assert Unsigned(t) == NatToString(a);
    } else {
      assert Unsigned(t) == t by { assert IsDigit(t[0]); }
    }
    NumberOfDecimal(t);
  }

  /** `Number` of a trimmed signed integer text is its value. */
  lemma NumberOfDecimal(t: string)
    requires Trim(t) == t && IsDecimal(t)
    ensures StringToNumber(t) == Num(DecimalValue(t))
  {
    assert IsDigit(Unsigned(t)[0]);
    assert "Infinity"[0] == 'I' && "+Infinity"[1] == 'I' && "-Infinity"[1] == 'I';
  }

  /** `parseString`: a string with text in it, trimmed. */
  function ParseString(v: Value): (r: Option<string>)
    ensures r.Some? <==> v.Str? && Trim(v.s) != []
    ensures r.Some? ==> r.value == Trim(v.s) && NoSpaceAtEdges(r.value)
  {
    if v.Str? && Trim(v.s) != [] then Some(Trim(v.s)) else None
  }

  /** `parseNumber`: the finite number a present value converts to. */
  function ParseNumber(v: Value): (r: Option<int>)
    ensures Nullish(v) ==> r == None
    ensures r.Some? <==> !Nullish(v) && ToNumber(v).Num?
    ensures r.Some? ==> ToNumber(v) == Num(r.value)
  {
    if Nullish(v) then None
    else match ToNumber(v)
      case Num(n) => Some(n)
      case _ => None
  }

  /** `parseBoolean`: a boolean, or the words true/false in any ASCII case. */
  function ParseBoolean(v: Value): (r: Option<bool>)
    ensures v.Bool? ==> r == Some(v.b)
    ensures v.Str? && Lower(v.s) == "true" ==> r == Some(true)
    ensures v.Str? && Lower(v.s) == "false" ==> r == Some(false)
    ensures r.None? <==> !(v.Bool? || (v.Str? && (Lower(v.s) == "true" || Lower(v.s) == "false")))
  {
    match v
    case Bool(b) => Some(b)
    case Str(s) =>
      if Lower(s) == "true" then Some(true)
      else if Lower(s) == "false" then Some(false)
      else None
    case _ => None
  }

  /** `parseLimit`: a positive requested number capped at 100, otherwise the fallback. */
  function ParseLimit(v: Value, fallback: int): (r: int)
    ensures 0 < fallback <= MaxLimit ==> 0 < r <= MaxLimit
    ensures ParseNumber(v).Some? && ParseNumber(v).value > 0 ==> r == Min(ParseNumber(v).value, MaxLimit)
    ensures (ParseNumber(v).None? || ParseNumber(v).value <= 0) && fallback <= MaxLimit ==> r == fallback
  {
    var limit := ParseNumber(v).GetOr(fallback);
    if limit <= 0 then fallback else Min(limit, MaxLimit)
  }

  /** `parseRelationId`: a positive finite number, from a number or a numeric string. */
  function ParseRelationId(v: Value): (r: Option<int>)
    ensures r.Some? ==> r.value > 0
    ensures r.Some? <==> ToNumber(v).Num? && ToNumber(v).n > 0
    ensures v.Num? && v.n > 0 ==> r == Some(v.n)
  {
    match ToNumber(v)
    case Num(n) => if n > 0 then Some(n) else None
    case _ => None
  }

  /** A relation id given as the decimal text of a positive number is read back as that number. */
  lemma RelationIdOfPrintedId(n: int)
    requires n > 0
    ensures ParseRelationId(Str(IntToString(n))) == Some(n)
  {
    NumberOfPrintedInt(n);
  }
}
