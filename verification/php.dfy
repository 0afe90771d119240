/** The PHP value semantics the server-side code relies on: request values,
    truthiness, `(int)` casts and conversion to string (PHP 8 rules). */
module Php {
  import opened Wrappers

  const MaxInt := 0x7fff_ffff_ffff_ffff
  const MinInt := -0x8000_0000_0000_0000

  /** A PHP value; an array is an ordered list of (key, value) entries. */
  datatype PhpValue =
    | Null
    | Bool(b: bool)
    | Int(i: int)
    | Str(s: string)
    | Arr(entries: seq<(string, PhpValue)>)

  /** PHP's boolean conversion. */
  predicate Truthy(v: PhpValue) {
    match v
    case Null => false
    case Bool(b) => b
    case Int(i) => i != 0
    case Str(s) => s != "" && s != "0"
    case Arr(e) => |e| > 0
  }

  /** `$a[$key]` on an array: the entry's value, or null when it is missing. */
  function Index(entries: seq<(string, PhpValue)>, key: string): PhpValue {
    if entries == [] then Null
    else if entries[0].0 == key then entries[0].1
    else Index(entries[1..], key)
  }

  /** `isset($a[$key])`: the key is present and not null. */
  function Isset(entries: seq<(string, PhpValue)>, key: string): Option<PhpValue> {
    var v := Index(entries, key);
    if v.Null? then None else Some(v)
  }

  /** `$v == '<lit>'` for a literal that is not empty and not numeric: a string
      compares by content, `true` equals every such literal, and null, false,
      integers and arrays equal none. */
  predicate EqualsLiteral(v: PhpValue, lit: string) {
    match v
    case Str(s) => s == lit
    case Bool(b) => b
    case _ => false
  }

  predicate IsDigit(c: char) {
    '0' <= c <= '9'
  }

  predicate IsSpace(c: char) {
    c == ' ' || c == '\t' || c == '\n' || c == '\r' || c == '\U{000B}' || c == '\U{000C}'
  }

  /** Number of leading characters satisfying the digit test. */
  function DigitRun(s: string): (n: nat)
    ensures n <= |s|
    ensures forall i :: 0 <= i < n ==> IsDigit(s[i])
    ensures n < |s| ==> !IsDigit(s[n])
  {
    if s == [] || !IsDigit(s[0]) then 0 else 1 + DigitRun(s[1..])
  }

  function SkipSpace(s: string): string {
    if s != [] && IsSpace(s[0]) then SkipSpace(s[1..]) else s
  }

  /** The value of a string of decimal digits. */
  function DecimalValue(ds: string): nat
    requires forall i :: 0 <= i < |ds| ==> IsDigit(ds[i])
  {
    if ds == [] then 0
    else
      assert IsDigit(ds[|ds| - 1]);
      DecimalValue(ds[..|ds| - 1]) * 10 + (ds[|ds| - 1] as int - '0' as int)
  }

  function Clamp(n: int): (r: int)
    ensures MinInt <= r <= MaxInt
    ensures MinInt <= n <= MaxInt ==> r == n
  {
    if n > MaxInt then MaxInt else if n < MinInt then MinInt else n
  }

  /** `(int) $s` for a string: leading white space, an optional sign and the
      longest run of digits; no digits gives 0; out-of-range values saturate. */
  function StringToInt(s: string): (n: int)
    ensures MinInt <= n <= MaxInt
  {
    var t := SkipSpace(s);
    var negative := t != [] && t[0] == '-';
    var u := if t != [] && (t[0] == '-' || t[0] == '+') then t[1..] else t;
    var v: int := DecimalValue(u[..DigitRun(u)]);
    Clamp(if negative then -v else v)
  }

  /** `(int) $v`. */
  function ToInt(v: PhpValue): int {
    match v
    case Null => 0
    case Bool(b) => if b then 1 else 0
    case Int(i) => i
    case Str(s) => StringToInt(s)
    case Arr(e) => if |e| > 0 then 1 else 0
  }

  /** Decimal digits of a natural number, without leading zeros. */
  function DecimalString(n: nat): (r: string)
    ensures |r| > 0 && forall i :: 0 <= i < |r| ==> IsDigit(r[i])
  {
    var d := ['0' + (n % 10) as char];
    if n < 10 then d else DecimalString(n / 10) + d
  }

  /** String conversion, as in `'...' . $v . '...'`. */
  function ToStr(v: PhpValue): string {
    match v
    case Null => ""
    case Bool(b) => if b then "1" else ""
    case Int(i) => if i < 0 then "-" + DecimalString(-i) else DecimalString(i)
    case Str(s) => s
    case Arr(_) => "Array"
  }

  lemma {:induction false} DecimalValueOfString(n: nat)
    ensures DecimalValue(DecimalString(n)) == n
  {
    var r := DecimalString(n);
    if n >= 10 {
      DecimalValueOfString(n / 10);
      assert r[..|r| - 1] == DecimalString(n / 10);
    }
  }

  /** A post id written in decimal is cast back to the same number. */
  lemma IntCastRoundTrip(n: nat)
    requires n <= MaxInt
    ensures StringToInt(DecimalString(n)) == n
  {
    var r := DecimalString(n);
    assert SkipSpace(r) == r;
    assert DigitRun(r) == |r|;
    assert r[..|r|] == r;
    DecimalValueOfString(n);
  }
}
