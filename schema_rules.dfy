/** The Joi rules the request schemas are built from, as predicates on a field's value.
    An absent key is `None`; numbers arrive as `real`, so `integer()` and the default
    safe-integer check mean something; string lengths are JavaScript lengths. */
module SchemaRules {
  import opened Common
  import opened Text

  /** `Number.MAX_SAFE_INTEGER`. */
  const MaxSafeInteger: int := 9007199254740991

  /** `Joi.number().integer()`: a whole number, within the safe-integer range Joi checks by default. */
  predicate IsSafeInteger(x: real) {
    x == x.Floor as real && -MaxSafeInteger <= x.Floor <= MaxSafeInteger
  }

  /** `Joi.number().integer().positive()`. */
  predicate PositiveInteger(x: real) {
    IsSafeInteger(x) && x > 0.0
  }

  /** `Joi.number().integer().min(lo).max(hi)`. */
  predicate IntegerBetween(x: real, lo: int, hi: int) {
    IsSafeInteger(x) && lo <= x.Floor <= hi
  }

  /** A required positive integer key. */
  predicate RequiredId(x: Option<real>) {
    x.Some? && PositiveInteger(x.value)
  }

  /** An optional positive integer key. */
  predicate OptionalId(x: Option<real>) {
    x.None? || PositiveInteger(x.value)
  }

  /** The value of a validated integer key. */
  function IntOf(x: real): int {
    x.Floor
  }

  /** `Joi.string().max(max)`; the empty string is refused unless the schema says `allow('')`. */
  predicate StringMax(s: string, max: nat, allowEmpty: bool) {
    (s != "" || allowEmpty) && JsLength(s) <= max
  }

  predicate OptionalStringMax(s: Option<string>, max: nat, allowEmpty: bool) {
    s.None? || StringMax(s.value, max, allowEmpty)
  }

  /** `Joi.string().trim().min(lo).max(hi)`: the bounds apply to the trimmed text, and a
      text that trims to nothing is refused as empty. */
  predicate TrimmedLength(s: string, lo: nat, hi: nat) {
    Trim(s) != "" && lo <= JsLength(Trim(s)) <= hi
  }

  /** `^\d{lo,hi}$`. */
  predicate DigitRun(s: string, lo: nat, hi: nat) {
    lo <= |s| <= hi && AllDigits(s)
  }

  /** `[\dkK]`: the RUT check character. */
  predicate IsRutCheckChar(c: char) {
    IsDigit(c) || c == 'k' || c == 'K'
  }

  /** `^\d{7,8}-[\dkK]$`: the format of a Chilean RUT; the check digit itself is not verified. */
  predicate IsRut(s: string) {
    && 9 <= |s| <= 10
    && DigitRun(s[..|s| - 2], 7, 8)
    && s[|s| - 2] == '-'
    && IsRutCheckChar(s[|s| - 1])
  }

  /** `^\d{8,15}$`. */
  predicate IsPhone(s: string) {
    DigitRun(s, 8, 15)
  }

  /** A RUT is exactly a 7 or 8 digit body, a dash and a check character. */
  lemma {:induction false} RutShape(body: string, check: char)
    ensures IsRut(body + "-" + [check]) <==> DigitRun(body, 7, 8) && IsRutCheckChar(check)
  {
    var s := body + "-" + [check];
    assert |s| == |body| + 2;
    assert s[..|s| - 2] == body;
    assert s[|s| - 2] == '-' && s[|s| - 1] == check;
  }

  /** Every RUT splits into its body, the dash and its check character. */
  lemma {:induction false} RutSplits(s: string)
    requires IsRut(s)
    ensures s == s[..|s| - 2] + "-" + [s[|s| - 1]]
  {
    assert s[|s| - 2..] == "-" + [s[|s| - 1]];
    assert s == s[..|s| - 2] + s[|s| - 2..];
  }

  /** A RUT is never taken for a phone number: its dash is not a digit. */
  lemma RutIsNotPhone(s: string)
    requires IsRut(s)
    ensures !IsPhone(s)
  {
    assert !IsDigit(s[|s| - 2]);
  }

  /** `Joi.string().valid(...)` on an optional key. */
  predicate OptionalOneOf(s: Option<string>, allowed: seq<string>) {
    s.None? || s.value in allowed
  }

  /** `endDate: Joi.date().min(Joi.ref('startDate'))`: an end date needs a start date not
      after it. Joi refuses a reference that resolves to nothing, so an end date without a
      start date is refused too. */
  predicate DateOrder(startDate: Option<int>, endDate: Option<int>) {
    endDate.Some? ==> startDate.Some? && startDate.value <= endDate.value
  }

  /** An optional integer key with `.default(d)`: the value the handler receives. */
  function OrDefault(x: Option<real>, d: int): (r: int)
    ensures x.None? ==> r == d
    ensures x.Some? && IsSafeInteger(x.value) ==> r as real == x.value
  {
    if x.Some? then IntOf(x.value) else d
  }

  /** A page key `Joi.number().integer().min(lo).max(hi).default(d)`, with `lo <= d <= hi`:
      once validated, the value the handler receives is within the bounds. */
  lemma PageKeyBounds(x: Option<real>, lo: int, hi: int, d: int)
    requires lo <= d <= hi
    requires x.None? || IntegerBetween(x.value, lo, hi)
    ensures lo <= OrDefault(x, d) <= hi
  {
  }
}
