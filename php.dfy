/** Optional values: PHP's `null` next to a present value. */
module Wrappers {

  datatype Option<+T> = None | Some(value: T) {

    /** The value, or `default` when there is none (PHP's `??`). */
    function GetOr(default: T): T {
      match this
      case Some(v) => v
      case None => default
    }
  }
}

/**
 * The parts of the PHP runtime the post handlers rely on: `empty()`, `trim()`,
 * the `(int)` cast and `intval()`, integer-to-string conversion, `strlen()`
 * (which counts UTF-8 bytes) and `strtolower()`.
 */
module Php {

  /** A PHP value as it reaches the handlers from `$_POST`, `$_GET` or a cast. */
  datatype Value = Null | Str(s: string) | Int(n: int) | Arr(items: seq<Value>)

  /** PHP `empty()`: true for null, "", "0", 0 and the empty array. */
  predicate IsEmpty(v: Value) {
    match v
    case Null => true
    case Str(s) => s == "" || s == "0"
    case Int(n) => n == 0
    case Arr(items) => items == []
  }

  /** `empty()` of a string. */
  predicate EmptyStr(s: string) {
    IsEmpty(Str(s))
  }

  lemma EmptyStrCases(s: string)
    ensures EmptyStr(s) <==> s == "" || s == "0"
    ensures EmptyStr(s) ==> |s| < 2
  {
  }

  // ---------------------------------------------------------------- trim()

  /** The characters `trim()` strips by default: space, \t, \n, \r, \0 and \x0B. */
  predicate IsTrimChar(c: char) {
    c == ' ' || c == '\t' || c == '\n' || c == '\r' || c == '\0' || c == '\U{0B}'
  }

  /** Every character of `s` is one `trim()` strips. */
  predicate AllTrim(s: string) {
    forall k :: 0 <= k < |s| ==> IsTrimChar(s[k])
  }

  function TrimLeft(s: string): (r: string)
    ensures |r| <= |s| && r == s[|s| - |r|..]
    ensures r == [] || !IsTrimChar(r[0])
    ensures AllTrim(s[..|s| - |r|])
    decreases |s|
  {
    if |s| > 0 && IsTrimChar(s[0]) then
      var r := TrimLeft(s[1..]);
      assert s[..|s| - |r|] == [s[0]] + s[1..][..|s| - 1 - |r|];
      r
    else s
  }

  function TrimRight(s: string): (r: string)
    ensures |r| <= |s| && r == s[..|r|]
    ensures r == [] || !IsTrimChar(r[|r| - 1])
    ensures AllTrim(s[|r|..])
    decreases |s|
  {
    if |s| > 0 && IsTrimChar(s[|s| - 1]) then
      var r := TrimRight(s[..|s| - 1]);
      assert s[|r|..] == s[..|s| - 1][|r|..] + [s[|s| - 1]];
      r
    else s
  }

  /** Where `trim()` starts keeping characters: the length of the leading run of trim characters. */
  function TrimStart(s: string): (i: nat)
    ensures i <= |s|
  {
    |s| - |TrimLeft(s)|
  }

  /**
   * PHP `trim()`: the string with the trim characters removed from both ends.
   * The result is the piece of the input starting at `TrimStart`, everything
   * cut off on either side is a trim character, and neither end of the result
   * is one.
   */
  function Trim(s: string): (r: string)
    ensures r == [] || (!IsTrimChar(r[0]) && !IsTrimChar(r[|r| - 1]))
    ensures TrimStart(s) + |r| <= |s| && r == s[TrimStart(s)..TrimStart(s) + |r|]
    ensures AllTrim(s[..TrimStart(s)]) && AllTrim(s[TrimStart(s) + |r|..])
  {
    var l := TrimLeft(s);
    var r := TrimRight(l);
    TrimPieces(s, l, r, TrimStart(s));
    r
  }

  /**
   * Cutting trim characters off the front of `s` (leaving `l == s[i..]`) and
   * then off the back of `l` (leaving `r`) leaves a piece of `s` with trim
   * characters only on either side of it and at neither of its ends.
   */
  lemma TrimPieces(s: string, l: string, r: string, i: nat)
    requires i <= |s| && l == s[i..] && AllTrim(s[..i]) && (l == [] || !IsTrimChar(l[0]))
    requires |r| <= |l| && r == l[..|r|] && AllTrim(l[|r|..]) && (r == [] || !IsTrimChar(r[|r| - 1]))
    ensures r == [] || (!IsTrimChar(r[0]) && !IsTrimChar(r[|r| - 1]))
    ensures i + |r| <= |s| && r == s[i..i + |r|]
    ensures AllTrim(s[..i]) && AllTrim(s[i + |r|..])
  {
    assert s[i + |r|..] == l[|r|..];
  }

  lemma {:induction false} TrimLeftOfClean(s: string)
    requires s == [] || !IsTrimChar(s[0])
    ensures TrimLeft(s) == s
  {
  }

  lemma {:induction false} TrimRightOfClean(s: string)
    requires s == [] || !IsTrimChar(s[|s| - 1])
    ensures TrimRight(s) == s
  {
  }

  /** Trimming the empty string gives the empty string. */
  lemma TrimEmpty()
    ensures Trim("") == ""
  {
    var r := Trim("");
    assert |r| <= 0;
  }

  /** Trimming twice is trimming once. */
  lemma TrimIdempotent(s: string)
    ensures Trim(Trim(s)) == Trim(s)
  {
    var t := Trim(s);
    TrimLeftOfClean(t);
    TrimRightOfClean(t);
  }

  // ---------------------------------------------------------------- substr_count()

  /** `substr_count($s, $c)` for a one-character needle: how many times `c` occurs in `s`. */
  function Count(s: string, c: char): nat
    decreases |s|
  {
    if s == [] then 0 else Count(s[..|s| - 1], c) + (if s[|s| - 1] == c then 1 else 0)
  }

  lemma {:induction false} CountAppend(a: string, b: string, c: char)
    ensures Count(a + b, c) == Count(a, c) + Count(b, c)
    decreases |b|
  {
    if b == [] {
      assert a + b == a;
    } else {
      CountAppend(a, b[..|b| - 1], c);
      assert (a + b)[..|a + b| - 1] == a + b[..|b| - 1];
      assert (a + b)[|a + b| - 1] == b[|b| - 1];
    }
  }

  /** A string without `c` counts no `c`. */
  lemma {:induction false} CountAbsent(s: string, c: char)
    requires c !in s
    ensures Count(s, c) == 0
    decreases |s|
  {
    if s != [] {
      assert s[..|s| - 1] + [s[|s| - 1]] == s;
      CountAbsent(s[..|s| - 1], c);
    }
  }

  // ---------------------------------------------------------------- (int)

  predicate IsDigit(c: char) {
    '0' <= c <= '9'
  }

  /** The whitespace PHP skips before a leading-numeric string. */
  predicate IsNumericSpace(c: char) {
    c == ' ' || c == '\t' || c == '\n' || c == '\r' || c == '\U{0B}' || c == '\U{0C}'
  }

  function SkipNumericSpace(s: string): (r: string)
    ensures |r| <= |s|
    ensures r == [] || !IsNumericSpace(r[0])
    decreases |s|
  {
    if |s| > 0 && IsNumericSpace(s[0]) then SkipNumericSpace(s[1..]) else s
  }

  /** The longest prefix of `s` made of decimal digits. */
  function DigitPrefix(s: string): (r: string)
    ensures |r| <= |s| && r == s[..|r|]
    ensures forall k :: 0 <= k < |r| ==> IsDigit(r[k])
    ensures |r| < |s| ==> !IsDigit(s[|r|])
    decreases |s|
  {
    if |s| > 0 && IsDigit(s[0]) then [s[0]] + DigitPrefix(s[1..]) else []
  }

  /** The value of a string of decimal digits, most significant first. */
  function DecimalValue(ds: string): nat
    requires forall k :: 0 <= k < |ds| ==> IsDigit(ds[k])
    decreases |ds|
  {
    if ds == [] then 0
    else
      var last := ds[|ds| - 1];
      assert IsDigit(last);
      DecimalValue(ds[..|ds| - 1]) * 10 + (last as int - '0' as int)
  }

  /**
   * PHP `(int)` / `intval()` of a string: leading whitespace, an optional sign,
   * then the longest run of decimal digits; a string with no digits there is 0.
   */
  function IntVal(s: string): int {
    var t := SkipNumericSpace(s);
    if |t| > 0 && (t[0] == '-' || t[0] == '+') then
      var v: int := DecimalValue(DigitPrefix(t[1..]));
      if t[0] == '-' then -v else v
    else
      DecimalValue(DigitPrefix(t))
  }

  /** PHP `(int)` / `intval()` of any request value. */
  function ToInt(v: Value): int {
    match v
    case Null => 0
    case Str(s) => IntVal(s)
    case Int(n) => n
    case Arr(items) => if items == [] then 0 else 1
  }

  function DigitChar(d: nat): (c: char)
    requires d < 10
    ensures IsDigit(c) && c as int - '0' as int == d
  {
    ('0' as int + d) as char
  }

  /** The decimal rendering of a natural number, without leading zeros. */
  function NatToString(n: nat): (r: string)
    ensures |r| > 0
    ensures forall k :: 0 <= k < |r| ==> IsDigit(r[k])
    decreases n
  {
    if n < 10 then [DigitChar(n)] else NatToString(n / 10) + [DigitChar(n % 10)]
  }

  /** PHP's conversion of an int to a string ("-" then the digits for a negative). */
  function IntToString(n: int): string {
    if n < 0 then "-" + NatToString(-n) else NatToString(n)
  }

  lemma {:induction false} DecimalValueOfNatToString(n: nat)
    ensures DecimalValue(NatToString(n)) == n
    decreases n
  {
    if n >= 10 {
      DecimalValueOfNatToString(n / 10);
      var r := NatToString(n);
      assert r[..|r| - 1] == NatToString(n / 10);
    }
  }

  lemma {:induction false} DigitPrefixOfDigits(s: string)
    requires forall k :: 0 <= k < |s| ==> IsDigit(s[k])
    ensures DigitPrefix(s) == s
    decreases |s|
  {
    if |s| > 0 {
      DigitPrefixOfDigits(s[1..]);
    }
  }

  /** Reading back the string PHP prints for an int gives the int: `intval((string)$n) == $n`. */
  lemma IntValOfIntToString(n: int)
    ensures IntVal(IntToString(n)) == n
  {
    var m: nat := if n < 0 then -n else n;
    var digits := NatToString(m);
    DigitPrefixOfDigits(digits);
    DecimalValueOfNatToString(m);
    if n < 0 {
      var t := IntToString(n);
      assert t[1..] == digits;
      assert SkipNumericSpace(t) == t;
    } else {
      assert SkipNumericSpace(digits) == digits;
    }
  }

  // ---------------------------------------------------------------- strlen()

  /** The number of bytes a character takes in UTF-8. */
  function Utf8Width(c: char): (w: nat)
    ensures 1 <= w <= 4
  {
    if c as int < 0x80 then 1
    else if c as int < 0x800 then 2
    else if c as int < 0x10000 then 3
    else 4
  }

  /** PHP `strlen()` of a UTF-8 string: its length in bytes. */
  function ByteLength(s: string): (n: nat)
    ensures |s| <= n <= 4 * |s|
    decreases |s|
  {
    if s == [] then 0 else Utf8Width(s[0]) + ByteLength(s[1..])
  }

  // ---------------------------------------------------------------- strtolower()

  function LowerChar(c: char): char {
    if 'A' <= c <= 'Z' then (c as int + 32) as char else c
  }

  /** PHP 8 `strtolower()`: ASCII letters lowered, every other byte kept. */
  function ToLower(s: string): (r: string)
    ensures |r| == |s|
    ensures forall k :: 0 <= k < |s| ==> r[k] == LowerChar(s[k])
  {
    seq(|s|, k requires 0 <= k < |s| => LowerChar(s[k]))
  }
}
