/** The parts of JavaScript's value semantics the application relies on:
    parsed JSON values and their truthiness, `String.prototype.trim`, and
    `parseInt` with the `|| 0` fallback that the number inputs use. */
module JsValues {
  import opened Wrappers

  /** A parsed JSON value. Numbers are integers in this model. */
  datatype Json =
    | JNull
    | JBool(b: bool)
    | JNum(n: int)
    | JStr(s: string)
    | JArr(elems: seq<Json>)
    | JObj(fields: map<string, Json>)

  /** JavaScript truthiness of a JSON value: `null`, `false`, `0` and `""`
      are falsy, everything else (arrays and objects included) is truthy. */
  predicate Truthy(v: Json) {
    match v
    case JNull => false
    case JBool(b) => b
    case JNum(n) => n != 0
    case JStr(s) => s != ""
    case JArr(_) => true
    case JObj(_) => true
  }

  /** Truthiness of a value that may be `undefined` (None). */
  predicate TruthyOpt(v: Option<Json>) {
    v.Some? && Truthy(v.value)
  }

  /** The property read `v.key` on a value that is not null: undefined
      (None) unless `v` is an object that has the key. */
  function Prop(v: Json, key: string): (r: Option<Json>)
    ensures r.Some? <==> v.JObj? && key in v.fields
    ensures r.Some? ==> r.value == v.fields[key]
  {
    if v.JObj? && key in v.fields then Some(v.fields[key]) else None
  }

  /** `s || fallback` for a string that may be missing: an absent or empty
      string gives the fallback. */
  function StrOr(s: Option<string>, fallback: string): (r: string)
    ensures r == fallback || (s.Some? && r == s.value)
    ensures r == fallback <==> s.None? || s.value == "" || s.value == fallback
  {
    if s.Some? && s.value != "" then s.value else fallback
  }

  // ---------------------------------------------------------------------
  // trim

  /** The characters `String.prototype.trim` removes: the WhiteSpace and
      LineTerminator code points of ECMAScript. */
  predicate IsWhitespace(c: char) {
    || c == ' ' || c == '\t' || c == '\n' || c == '\r'
    || c == '\U{000B}' || c == '\U{000C}' || c == '\U{00A0}' || c == '\U{1680}'
    || ('\U{2000}' <= c <= '\U{200A}')
    || c == '\U{2028}' || c == '\U{2029}' || c == '\U{202F}' || c == '\U{205F}'
    || c == '\U{3000}' || c == '\U{FEFF}'
  }

  /** `s` with its leading whitespace removed. */
  function TrimStart(s: string): (r: string)
    ensures |r| <= |s| && r == s[|s| - |r|..]
    ensures r == "" || !IsWhitespace(r[0])
    ensures forall i :: 0 <= i < |s| - |r| ==> IsWhitespace(s[i])
  {
    if s != "" && IsWhitespace(s[0]) then TrimStart(s[1..]) else s
  }

  /** `s` with its trailing whitespace removed. */
  function TrimEnd(s: string): (r: string)
    ensures |r| <= |s| && r == s[..|r|]
    ensures r == "" || !IsWhitespace(r[|r| - 1])
    ensures forall i :: |r| <= i < |s| ==> IsWhitespace(s[i])
  {
    if s != "" && IsWhitespace(s[|s| - 1]) then TrimEnd(s[..|s| - 1]) else s
  }

  /** `s.trim()`. */
  function Trim(s: string): string {
    TrimEnd(TrimStart(s))
  }

  /** `s` has a character that `trim` keeps. */
  predicate HasVisibleChar(s: string) {
    exists i :: 0 <= i < |s| && !IsWhitespace(s[i])
  }

  /** `s.trim()` is empty exactly when every character of `s` is whitespace. */
  lemma TrimEmptyIff(s: string)
    ensures Trim(s) == "" <==> !HasVisibleChar(s)
  {
    var t := TrimStart(s);
    if t != "" {
      assert t[0] == s[|s| - |t|];
    }
  }

  // ---------------------------------------------------------------------
  // parseInt

  predicate IsDigit(c: char) {
    '0' <= c <= '9'
  }

  function DigitValue(c: char): (d: nat)
    requires IsDigit(c)
    ensures d < 10
  {
    (c as int) - ('0' as int)
  }

  function DigitChar(d: nat): (c: char)
    requires d < 10
    ensures IsDigit(c) && DigitValue(c) == d
  {
    (('0' as int) + d) as char
  }

  predicate AllDigits(s: string) {
    forall i :: 0 <= i < |s| ==> IsDigit(s[i])
  }

  /** The longest prefix of `s` made of decimal digits. */
  function DigitPrefix(s: string): (r: string)
    ensures r <= s && AllDigits(r)
    ensures |r| < |s| ==> !IsDigit(s[|r|])
  {
    if s != "" && IsDigit(s[0]) then [s[0]] + DigitPrefix(s[1..]) else ""
  }

  /** The number a string of decimal digits denotes. */
  function DecimalValue(ds: string): nat
    requires AllDigits(ds)
  {
    if ds == "" then 0 else DecimalValue(ds[..|ds| - 1]) * 10 + DigitValue(ds[|ds| - 1])
  }

  /** `parseInt(s)` with no radix: skip leading whitespace, take an optional
      sign, then the longest run of decimal digits; NaN (None) when there is
      no digit. */
  function ParseInt(s: string): Option<int> {
    var t := TrimStart(s);
    if t != "" && t[0] == '-' then Negated(ParseDigits(t[1..]))
    else if t != "" && t[0] == '+' then ParseDigits(t[1..])
    else ParseDigits(t)
  }

  /** The value of the digit run that starts `u`, if there is one. */
  function ParseDigits(u: string): (r: Option<int>)
    ensures r.Some? ==> r.value >= 0
  {
    var ds := DigitPrefix(u);
    if ds == "" then None else Some(DecimalValue(ds))
  }

  function Negated(r: Option<int>): Option<int> {
    match r
    case None => None
    case Some(v) => Some(-v)
  }

  /** `parseInt(value) || 0`, the value a number input stores: NaN and 0
      both give 0. */
  function NumberInputValue(raw: string): int {
    ParseInt(raw).GetOr(0)
  }

  /** The decimal rendering of a natural number, as a number input shows it. */
  function Decimal(n: nat): (s: string)
    ensures s != "" && AllDigits(s)
  {
    if n < 10 then [DigitChar(n)] else Decimal(n / 10) + [DigitChar(n % 10)]
  }

  lemma {:induction false} DecimalValueOfDecimal(n: nat)
    ensures DecimalValue(Decimal(n)) == n
  {
    if n >= 10 {
      var s := Decimal(n);
      assert s[..|s| - 1] == Decimal(n / 10);
      DecimalValueOfDecimal(n / 10);
    }
  }

  lemma {:induction false} DigitPrefixStops(ds: string, rest: string)
    requires AllDigits(ds)
    requires rest == "" || !IsDigit(rest[0])
    ensures DigitPrefix(ds + rest) == ds
  {
    if ds != "" {
      assert (ds + rest)[1..] == ds[1..] + rest;
      DigitPrefixStops(ds[1..], rest);
    }
  }

  /** parseInt reads back the decimal rendering of `n`, with or without a
      minus sign, and stops at the first character that is not a digit (so
      "12.5" and "1e3" give 12 and 1). */
  lemma ParseIntDecimal(n: nat, rest: string)
    requires rest == "" || !IsDigit(rest[0])
    ensures ParseInt(Decimal(n) + rest) == Some(n)
    ensures ParseInt("-" + Decimal(n) + rest) == Some(-(n as int))
  {
    var d := Decimal(n);
    DigitsThenStop(d, rest, n);
    ParseFromDigit(d + rest, n);
    assert "-" + d + rest == "-" + (d + rest);
  }

  lemma DigitsThenStop(d: string, rest: string, n: nat)
    requires d == Decimal(n)
    requires rest == "" || !IsDigit(rest[0])
    ensures d + rest != "" && IsDigit((d + rest)[0])
    ensures ParseDigits(d + rest) == Some(n)
  {
    DigitPrefixStops(d, rest);
    DecimalValueOfDecimal(n);
    assert (d + rest)[0] == d[0];
  }

  /** Where the text starts with a digit, no whitespace or sign is skipped,
      and a minus sign put before it negates the value. */
  lemma ParseFromDigit(u: string, k: int)
    requires u != "" && IsDigit(u[0]) && ParseDigits(u) == Some(k)
    ensures ParseInt(u) == Some(k)
    ensures ParseInt("-" + u) == Some(-k)
  {
    ParseUnsigned(u, k);
    ParseNegative(u, k);
  }

  lemma ParseUnsigned(u: string, k: int)
    requires u != "" && IsDigit(u[0]) && ParseDigits(u) == Some(k)
    ensures ParseInt(u) == Some(k)
  {
    TrimStartKeeps(u);
  }

  lemma ParseNegative(u: string, k: int)
    requires u != "" && IsDigit(u[0]) && ParseDigits(u) == Some(k)
    ensures ParseInt("-" + u) == Some(-k)
  {
    var m := "-" + u;
    assert m[0] == '-';
    TrimStartKeeps(m);
    assert m[1..] == u;
  }

  lemma TrimStartKeeps(s: string)
    requires s != "" && !IsWhitespace(s[0])
    ensures TrimStart(s) == s
  {
  }

  /** A number input holding the rendering of `n` stores `n`; an empty
      number input stores 0. */
  lemma NumberInputReadsBack(n: nat)
    ensures NumberInputValue(Decimal(n)) == n
    ensures NumberInputValue("") == 0
  {
    ParseIntDecimal(n, "");
    assert Decimal(n) + "" == Decimal(n);
  }
}
