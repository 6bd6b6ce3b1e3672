/** Python values as they travel between spreadsheets, pandas frames and MongoDB
    documents in the import/export scripts, and the few built-in conversions of
    Python that those scripts rely on: str(), ==, truthiness, int(), float(),
    str.strip/lower/upper/split/startswith. Text is ASCII-digit based; Python's
    Unicode digit classes are not modelled. */
module PyValues {

  datatype Option<T> = None | Some(value: T)

  /** A numeric frame cell, None when it is missing (NaN): present and not 0. */
  predicate Usable(x: Option<real>) {
    x.Some? && x.value != 0.0
  }

  /** fillna(0) on one numeric frame cell. */
  function FillZero(x: Option<real>): real {
    if x.Some? then x.value else 0.0
  }

  /** A product of two non-negative reals is non-negative. */
  lemma ProductNonNegative(a: real, b: real)
    requires a >= 0.0 && b >= 0.0
    ensures a * b >= 0.0
  {
  }

  /** A Python object held in a cell or a document field.
      Float carries the text that str() prints for it, because Python's shortest
      round-trip float formatting is not modelled. Nothing ties that text to the
      number: a Float is meaningful when repr is the text it was read from (a
      value such as Float(1.0, "NA") can be built but does not occur). NaN is
      pandas' missing marker. */
  datatype Value =
    | Null
    | NaN
    | Bool(b: bool)
    | Int(i: int)
    | Float(x: real, repr: string)
    | Str(s: string)

  // ---------------------------------------------------------------------------
  // Characters and strings

  predicate IsDigit(c: char) { '0' <= c <= '9' }

  /** The characters for which Python's str.isspace() holds. */
  predicate IsSpace(c: char) {
    c == ' ' || ('\t' <= c <= '\r') || ('\U{1c}' <= c <= '\U{1f}') ||
    c == '\U{85}' || c == '\U{a0}' || c == '\U{1680}' || ('\U{2000}' <= c <= '\U{200a}') ||
    c == '\U{2028}' || c == '\U{2029}' || c == '\U{202f}' || c == '\U{205f}' || c == '\U{3000}'
  }

  function LowerChar(c: char): char {
    if 'A' <= c <= 'Z' then (c as int + 32) as char else c
  }

  function UpperChar(c: char): char {
    if 'a' <= c <= 'z' then (c as int - 32) as char else c
  }

  /** str.lower() on the letters that matter to the scripts' keyword tests. */
  function Lower(s: string): (r: string)
    ensures |r| == |s|
  {
    seq(|s|, i requires 0 <= i < |s| => LowerChar(s[i]))
  }

  function Upper(s: string): (r: string)
    ensures |r| == |s|
  {
    seq(|s|, i requires 0 <= i < |s| => UpperChar(s[i]))
  }

  predicate StartsWith(s: string, prefix: string) {
    |prefix| <= |s| && s[..|prefix|] == prefix
  }

  predicate ContainsDigit(s: string) {
    exists i :: 0 <= i < |s| && IsDigit(s[i])
  }

  function StripLeft(s: string): (r: string)
    ensures |r| <= |s|
  {
    if |s| > 0 && IsSpace(s[0]) then StripLeft(s[1..]) else s
  }

  function StripRight(s: string): (r: string)
    ensures |r| <= |s|
  {
    if |s| > 0 && IsSpace(s[|s| - 1]) then StripRight(s[..|s| - 1]) else s
  }

  /** str.strip() with no argument. */
  function Strip(s: string): string {
    StripRight(StripLeft(s))
  }

  /** Leading whitespace does not survive StripLeft. */
  lemma {:induction false} StripLeftSkipsSpaces(pre: string, x: string)
    requires forall k :: 0 <= k < |pre| ==> IsSpace(pre[k])
    ensures StripLeft(pre + x) == StripLeft(x)
  {
    if pre != [] {
      assert (pre + x)[0] == pre[0];
      assert (pre + x)[1..] == pre[1..] + x;
      StripLeftSkipsSpaces(pre[1..], x);
    } else {
      assert pre + x == x;
    }
  }

  /** Trailing whitespace does not survive StripRight. */
  lemma {:induction false} StripRightSkipsSpaces(x: string, post: string)
    requires forall k :: 0 <= k < |post| ==> IsSpace(post[k])
    ensures StripRight(x + post) == StripRight(x)
  {
    if post != [] {
      var n := |post| - 1;
      assert (x + post)[|x + post| - 1] == post[n];
      assert (x + post)[..|x + post| - 1] == x + post[..n];
      StripRightSkipsSpaces(x, post[..n]);
    } else {
      assert x + post == x;
    }
  }

  /** str.strip() gives back a text framed by whitespace: the text itself,
      when it neither starts nor ends with whitespace. */
  lemma StripPadded(pre: string, w: string, post: string)
    requires forall k :: 0 <= k < |pre| ==> IsSpace(pre[k])
    requires forall k :: 0 <= k < |post| ==> IsSpace(post[k])
    requires w == "" || (!IsSpace(w[0]) && !IsSpace(w[|w| - 1]))
    ensures Strip(pre + w + post) == w
  {
    assert pre + w + post == pre + (w + post);
    StripLeftSkipsSpaces(pre, w + post);
    if w == "" {
      assert w + post == post + "";
      StripLeftSkipsSpaces(post, "");
    } else {
      assert (w + post)[0] == w[0];
      StripRightSkipsSpaces(w, post);
    }
  }

  /** The position of the first occurrence of c in s, if any. */
  function IndexOf(s: string, c: char): (r: Option<nat>)
    ensures r.Some? ==> r.value < |s| && s[r.value] == c && c !in s[..r.value]
    ensures r.None? ==> c !in s
  {
    if |s| == 0 then None
    else if s[0] == c then Some(0)
    else match IndexOf(s[1..], c)
      case None => None
      case Some(k) => Some(k + 1)
  }

  /** str.split(sep) for a one-character separator: empty pieces are kept. */
  function Split(s: string, sep: char): (r: seq<string>)
    ensures |r| >= 1
    decreases |s|
  {
    match IndexOf(s, sep)
    case None => [s]
    case Some(k) => [s[..k]] + Split(s[k + 1..], sep)
  }

  /** The length of the run of ASCII digits that starts at position i. */
  function DigitsFrom(s: string, i: nat): (n: nat)
    requires i <= |s|
    ensures i + n <= |s|
    ensures forall k :: i <= k < i + n ==> IsDigit(s[k])
    ensures i + n < |s| ==> !IsDigit(s[i + n])
    decreases |s| - i
  {
    if i < |s| && IsDigit(s[i]) then 1 + DigitsFrom(s, i + 1) else 0
  }

  function DigitValue(c: char): nat
    requires IsDigit(c)
  {
    c as int - '0' as int
  }

  /** The number written by a string of decimal digits. */
  function DigitsValue(s: string): nat
    requires forall k :: 0 <= k < |s| ==> IsDigit(s[k])
  {
    if |s| == 0 then 0 else 10 * DigitsValue(s[..|s| - 1]) + DigitValue(s[|s| - 1])
  }

  function Pow10(n: nat): (r: nat)
    ensures r >= 1
  {
    if n == 0 then 1 else 10 * Pow10(n - 1)
  }

  function DigitChar(d: nat): char
    requires d < 10
  {
    ('0' as int + d) as char
  }

  /** Decimal text of a natural number, as str() prints it. */
  function NatText(n: nat): (r: string)
    ensures |r| >= 1
    ensures forall k :: 0 <= k < |r| ==> IsDigit(r[k])
  {
    if n < 10 then [DigitChar(n)] else NatText(n / 10) + [DigitChar(n % 10)]
  }

  function IntText(i: int): string {
    if i < 0 then "-" + NatText(-i) else NatText(i)
  }

  // ---------------------------------------------------------------------------
  // Python built-ins on values

  /** str(v). */
  function Text(v: Value): string {
    match v
    case Null => "None"
    case NaN => "nan"
    case Bool(b) => if b then "True" else "False"
    case Int(i) => IntText(i)
    case Float(_, repr) => repr
    case Str(s) => s
  }

  /** pd.isna(v) for a scalar. */
  predicate IsNa(v: Value) { v.Null? || v.NaN? }

  /** isinstance(v, (int, float)): bool is a subclass of int; NaN is a float. */
  predicate IsNumber(v: Value) { v.Bool? || v.Int? || v.Float? || v.NaN? }

  /** The numeric value of a non-NaN number. */
  function NumValue(v: Value): real
    requires IsNumber(v) && !v.NaN?
  {
    match v
    case Bool(b) => if b then 1.0 else 0.0
    case Int(i) => i as real
    case Float(x, _) => x
  }

  /** Python's a == b on the values a record can hold (NaN equals nothing,
      bool/int/float compare by number, no other cross-type equality). */
  predicate PyEq(a: Value, b: Value) {
    if a.NaN? || b.NaN? then false
    else if IsNumber(a) && IsNumber(b) then NumValue(a) == NumValue(b)
    else a == b
  }

  /** bool(v). */
  predicate Truthy(v: Value) {
    match v
    case Null => false
    case NaN => true
    case Bool(b) => b
    case Int(i) => i != 0
    case Float(x, _) => x != 0.0
    case Str(s) => s != ""
  }

  /** The texts that the cleaning code treats as "no value". */
  const NullWords: set<string> := {"n/a", "na", "none"}

  /** The cleaning test shared by the import scripts: the value is missing, or
      its str() text, lower-cased, is one of the NullWords. */
  predicate NullLike(v: Value) {
    IsNa(v) || Lower(Text(v)) in NullWords
  }

  // ---------------------------------------------------------------------------
  // int() and float() on strings

  /** An optional sign at the front: its multiplier and where the digits start. */
  function SignOf(t: string): (r: (int, nat))
    ensures r.1 <= |t| && (r.0 == 1 || r.0 == -1)
  {
    if |t| > 0 && t[0] == '-' then (-1, 1)
    else if |t| > 0 && t[0] == '+' then (1, 1)
    else (1, 0)
  }

  /** int(s) for a str argument: surrounding whitespace, an optional sign and
      one or more decimal digits. */
  function ParseInt(s: string): Option<int> {
    var t := Strip(s);
    var (sign, start) := SignOf(t);
    var n := DigitsFrom(t, start);
    if n > 0 && start + n == |t| then Some(sign * DigitsValue(t[start..])) else None
  }

  /** The exponent part of a float literal, starting just after 'e' or 'E':
      an optional sign and one or more digits running to the end. */
  function ParseExponent(t: string, i: nat): Option<int>
    requires i <= |t|
  {
    var (sign, k) := SignOf(t[i..]);
    var n := DigitsFrom(t, i + k);
    if n > 0 && i + k + n == |t| then Some(sign * DigitsValue(t[i + k..])) else None
  }

  function Scale(m: real, e: int): real
    decreases if e < 0 then -e else e
  {
    if e == 0 then m
    else if e > 0 then 10.0 * Scale(m, e - 1)
    else Scale(m, e + 1) / 10.0
  }

  /** float(s) for a str argument in decimal notation: whitespace, a sign,
      digits with an optional fraction (at least one digit in all) and an
      optional exponent. */
  function ParseFloat(s: string): Option<real> {
    var t := Strip(s);
    var (sign, start) := SignOf(t);
    var a := DigitsFrom(t, start);
    var hasPoint := start + a < |t| && t[start + a] == '.';
    var b := if hasPoint then DigitsFrom(t, start + a + 1) else 0;
    var pos := if hasPoint then start + a + 1 + b else start + a;
    var mantissa := (DigitsValue(t[start..start + a]) * Pow10(b) + DigitsValue(t[pos - b..pos])) as real
                    / Pow10(b) as real;
    if a + b == 0 then None
    else if pos == |t| then Some(sign as real * mantissa)
    else if t[pos] == 'e' || t[pos] == 'E' then
      match ParseExponent(t, pos + 1)
      case None => None
      case Some(e) => Some(sign as real * Scale(mantissa, e))
    else None
  }
}
