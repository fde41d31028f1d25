/** PHP language values as the presenter package sees them: scalars and ordered
    arrays, array lookup with isset semantics, the (int) cast, and the exceptions
    the package throws. */
module Php {

  datatype Option<+T> = None | Some(value: T)

  function GetOr<T>(o: Option<T>, default: T): T
  {
    match o
    case Some(v) => v
    case None => default
  }

  /** PHP integers are 64-bit on every platform Laravel supports. */
  const MinInt: int := -0x8000_0000_0000_0000
  const MaxInt: int := 0x7FFF_FFFF_FFFF_FFFF
  type Int64 = i: int | MinInt <= i <= MaxInt

  /** An array key: PHP arrays are keyed by integers or strings. */
  datatype Key = IntKey(i: Int64) | StrKey(s: string)

  /** The PHP values that flow through presenters (floats and objects are not modelled). */
  datatype Value =
    | Null
    | Bool(b: bool)
    | Int(i: Int64)
    | Str(s: string)
    | Arr(entries: seq<(Key, Value)>)

  predicate DistinctKeys(a: seq<(Key, Value)>)
  {
    forall i, j :: 0 <= i < j < |a| ==> a[i].0 != a[j].0
  }

  /** A PHP array is an ordered map: no key occurs twice. */
  type PhpArray = a: seq<(Key, Value)> | DistinctKeys(a) witness []

  /** `$a[$k]` on an array: the value stored under k, if the key is present. */
  function Lookup(a: seq<(Key, Value)>, k: Key): (r: Option<Value>)
    ensures r.None? <==> forall i :: 0 <= i < |a| ==> a[i].0 != k
    ensures r.Some? ==> exists i :: 0 <= i < |a| && a[i] == (k, r.value)
  {
    if |a| == 0 then None
    else if a[0].0 == k then Some(a[0].1)
    else
      var r := Lookup(a[1..], k);
      assert r.Some? ==> exists i :: 1 <= i < |a| && a[i] == (k, r.value) by {
        if r.Some? {
          var j :| 0 <= j < |a[1..]| && a[1..][j] == (k, r.value);
          assert a[j + 1] == (k, r.value);
        }
      }
      r
  }

  /** In an ordered map, the lookup of a stored key yields the value stored with it. */
  lemma {:induction false} LookupStored(a: PhpArray, i: nat)
    requires i < |a|
    ensures Lookup(a, a[i].0) == Some(a[i].1)
  {
    if i > 0 {
      var tail: PhpArray := a[1..];
      assert a[0].0 != a[i].0;
      assert tail[i - 1] == a[i];
      LookupStored(tail, i - 1);
    }
  }

  /** `isset($a[$k])`: the key is present AND its value is not null. */
  function Isset(a: PhpArray, k: Key): (r: bool)
    ensures r <==> exists i :: 0 <= i < |a| && a[i].0 == k && !a[i].1.Null?
  {
    var found := Lookup(a, k);
    found.Some? && !found.value.Null?
  }

  // ---------------------------------------------------------------------------
  // Decimal strings and the (int) cast

  predicate IsDigit(c: char) { '0' <= c <= '9' }

  /** The leading whitespace that PHP's numeric-string reading skips. */
  predicate IsLeadingSpace(c: char)
  {
    c == ' ' || c == '\t' || c == '\n' || c == '\r' || c == '\U{000B}' || c == '\U{000C}'
  }

  function DigitChar(d: nat): (c: char)
    requires d < 10
    ensures IsDigit(c) && (c as int) - ('0' as int) == d
  {
    ('0' as int + d) as char
  }

  /** The decimal digits of n, most significant first, without leading zeros. */
  function NatDigits(n: nat): (s: string)
    ensures |s| > 0 && forall i :: 0 <= i < |s| ==> IsDigit(s[i])
  {
    if n < 10 then [DigitChar(n)] else NatDigits(n / 10) + [DigitChar(n % 10)]
  }

  /** How PHP writes an integer into a string (interpolation, concatenation). */
  function DecimalString(i: int): string
  {
    if i < 0 then "-" + NatDigits(-i) else NatDigits(i)
  }

  function DigitValue(c: char): (d: nat)
    requires IsDigit(c)
    ensures d < 10 && DigitChar(d) == c
  {
    (c as int) - ('0' as int)
  }

  /** The value of a run of decimal digits. */
  function DigitsValue(s: string): nat
    requires forall i :: 0 <= i < |s| ==> IsDigit(s[i])
  {
    if |s| == 0 then 0
    else DigitsValue(s[..|s| - 1]) * 10 + DigitValue(s[|s| - 1])
  }

  /** The longest prefix of s made of decimal digits. */
  function LeadingDigits(s: string): (r: string)
    ensures |r| <= |s| && r == s[..|r|]
    ensures forall i :: 0 <= i < |r| ==> IsDigit(r[i])
    ensures |r| < |s| ==> !IsDigit(s[|r|])
  {
    if |s| > 0 && IsDigit(s[0]) then [s[0]] + LeadingDigits(s[1..]) else []
  }

  function SkipLeadingSpace(s: string): (r: string)
    ensures |r| <= |s| && r == s[|s| - |r|..]
    ensures |r| > 0 ==> !IsLeadingSpace(r[0])
    ensures forall i :: 0 <= i < |s| - |r| ==> IsLeadingSpace(s[i])
  {
    if |s| > 0 && IsLeadingSpace(s[0]) then SkipLeadingSpace(s[1..]) else s
  }

  /** Out-of-range numeric strings saturate at the 64-bit bounds. */
  function Saturate(n: int): (r: Int64)
    ensures MinInt <= n <= MaxInt ==> r == n
    ensures n > MaxInt ==> r == MaxInt
    ensures n < MinInt ==> r == MinInt
  {
    if n < MinInt then MinInt else if n > MaxInt then MaxInt else n
  }

  /** The value of the digits a string starts with (0 when it starts with none). */
  function ReadDigits(u: string): nat
  {
    DigitsValue(LeadingDigits(u))
  }

  /** An optional sign, then the leading digits. */
  function ReadSigned(t: string): Int64
  {
    if |t| > 0 && t[0] == '-' then Saturate(-(ReadDigits(t[1..]) as int))
    else if |t| > 0 && t[0] == '+' then Saturate(ReadDigits(t[1..]))
    else Saturate(ReadDigits(t))
  }

  /** `(int)$s` for a string: leading whitespace is skipped, then an optional
      sign and the leading digits are read; anything after them is ignored, and
      a string with no leading digits gives 0. */
  function StringToInt(s: string): (r: Int64)
    ensures var t := SkipLeadingSpace(s); r < 0 ==> |t| > 0 && t[0] == '-'
    ensures var t := SkipLeadingSpace(s);
      var u := if |t| > 0 && (t[0] == '-' || t[0] == '+') then t[1..] else t;
      (|u| == 0 || !IsDigit(u[0])) ==> r == 0
  {
    ReadSigned(SkipLeadingSpace(s))
  }

  /** PHP's `(int)` cast on the values of this model. */
  function IntCast(v: Value): (r: Int64)
    ensures v.Int? ==> r == v.i
    ensures v.Str? ==> r == StringToInt(v.s)
    ensures v.Null? ==> r == 0
    ensures v.Bool? ==> (r == 1 <==> v.b) && 0 <= r <= 1
    ensures v.Arr? ==> (r == 0 <==> |v.entries| == 0) && 0 <= r <= 1
  {
    match v
    case Null => 0
    case Bool(b) => if b then 1 else 0
    case Int(i) => i
    case Str(s) => StringToInt(s)
    case Arr(entries) => if |entries| == 0 then 0 else 1
  }

  lemma {:induction false} LeadingDigitsOfDigits(s: string)
    requires forall i :: 0 <= i < |s| ==> IsDigit(s[i])
    ensures LeadingDigits(s) == s
  {
    if |s| > 0 {
      LeadingDigitsOfDigits(s[1..]);
    }
  }

  lemma {:induction false} DigitsValueOfNatDigits(n: nat)
    ensures DigitsValue(NatDigits(n)) == n
  {
    if n >= 10 {
      var s := NatDigits(n);
      assert s[..|s| - 1] == NatDigits(n / 10);
      DigitsValueOfNatDigits(n / 10);
    }
  }

  lemma SkipLeadingSpaceOfSigned(s: string)
    requires |s| > 0 && (IsDigit(s[0]) || s[0] == '-')
    ensures SkipLeadingSpace(s) == s
  {
  }

  lemma {:induction false} ReadDigitsOfDigits(s: string)
    requires forall i :: 0 <= i < |s| ==> IsDigit(s[i])
    ensures ReadDigits(s) == DigitsValue(s)
  {
    LeadingDigitsOfDigits(s);
  }

  /** A run of digits followed by anything that is not a digit has exactly
      that run as its leading digits. */
  lemma {:induction false} LeadingDigitsOfPrefix(d: string, rest: string)
    requires forall i :: 0 <= i < |d| ==> IsDigit(d[i])
    requires |rest| == 0 || !IsDigit(rest[0])
    ensures LeadingDigits(d + rest) == d
  {
    if |d| > 0 {
      assert (d + rest)[1..] == d[1..] + rest;
      LeadingDigitsOfPrefix(d[1..], rest);
    }
  }

  /** Whatever follows a run of digits, as long as it does not start with a
      digit, is not read. */
  lemma ReadDigitsOfPrefix(d: string, rest: string)
    requires forall i :: 0 <= i < |d| ==> IsDigit(d[i])
    requires |rest| == 0 || !IsDigit(rest[0])
    ensures ReadDigits(d + rest) == ReadDigits(d)
  {
    LeadingDigitsOfPrefix(d, rest);
    LeadingDigitsOfDigits(d);
  }

  /** A sign is read first, then the digits after it. */
  lemma StringToIntOfSign(c: char, u: string)
    requires c == '+' || c == '-'
    ensures StringToInt([c] + u) == if c == '-' then Saturate(-(ReadDigits(u) as int)) else Saturate(ReadDigits(u))
  {
    var t := [c] + u;
    assert t[0] == c && t[1..] == u;
    assert SkipLeadingSpace(t) == t;
  }

  lemma ReadDigitsOfNatDigits(n: nat)
    ensures ReadDigits(NatDigits(n)) == n
  {
    ReadDigitsOfDigits(NatDigits(n));
    DigitsValueOfNatDigits(n);
  }

  /** A string that starts with a run of digits reads as the value of that
      run (see `ReadDigitsOfDigits`) whatever follows it, saturated at the
      64-bit bounds. */
  lemma StringToIntOfLeadingDigits(d: string, rest: string)
    requires |d| > 0 && forall i :: 0 <= i < |d| ==> IsDigit(d[i])
    requires |rest| == 0 || !IsDigit(rest[0])
    ensures StringToInt(d + rest) == Saturate(ReadDigits(d))
  {
    var u := d + rest;
    ReadDigitsOfPrefix(d, rest);
    assert u[0] == d[0];
    SkipLeadingSpaceOfSigned(u);
  }

  /** The same run after a plus sign reads the same. */
  lemma StringToIntOfPlusDigits(d: string, rest: string)
    requires |d| > 0 && forall i :: 0 <= i < |d| ==> IsDigit(d[i])
    requires |rest| == 0 || !IsDigit(rest[0])
    ensures StringToInt("+" + (d + rest)) == Saturate(ReadDigits(d))
  {
    ReadDigitsOfPrefix(d, rest);
    StringToIntOfSign('+', d + rest);
  }

  /** The same run after a minus sign reads as its negation. */
  lemma StringToIntOfMinusDigits(d: string, rest: string)
    requires |d| > 0 && forall i :: 0 <= i < |d| ==> IsDigit(d[i])
    requires |rest| == 0 || !IsDigit(rest[0])
    ensures StringToInt("-" + (d + rest)) == Saturate(-(ReadDigits(d) as int))
  {
    ReadDigitsOfPrefix(d, rest);
    StringToIntOfSign('-', d + rest);
  }

  /** Leading whitespace does not change what a string casts to. */
  lemma {:induction false} SkipLeadingSpaceOfPrefix(w: string, s: string)
    requires forall i :: 0 <= i < |w| ==> IsLeadingSpace(w[i])
    ensures SkipLeadingSpace(w + s) == SkipLeadingSpace(s)
  {
    if |w| > 0 {
      var ws := w + s;
      assert ws[0] == w[0] && IsLeadingSpace(ws[0]);
      assert ws[1..] == w[1..] + s;
      assert SkipLeadingSpace(ws) == SkipLeadingSpace(ws[1..]);
      SkipLeadingSpaceOfPrefix(w[1..], s);
    } else {
      assert w + s == s;
    }
  }

  lemma StringToIntIgnoresLeadingSpace(w: string, s: string)
    requires forall i :: 0 <= i < |w| ==> IsLeadingSpace(w[i])
    ensures StringToInt(w + s) == StringToInt(s)
  {
    SkipLeadingSpaceOfPrefix(w, s);
  }

  /** Every 64-bit integer written in decimal and followed by anything that is
      not a digit casts back to that integer. */
  lemma StringToIntOfLeadingNumber(i: Int64, rest: string)
    requires |rest| == 0 || !IsDigit(rest[0])
    ensures StringToInt(DecimalString(i) + rest) == i
  {
    if i < 0 {
      var m: nat := -(i as int);
      assert DecimalString(i) + rest == "-" + (NatDigits(m) + rest);
      StringToIntOfMinusDigits(NatDigits(m), rest);
      ReadDigitsOfNatDigits(m);
    } else {
      StringToIntOfLeadingDigits(NatDigits(i), rest);
      ReadDigitsOfNatDigits(i);
    }
  }

  /** The (int) cast inverts writing a 64-bit integer as a decimal string. */
  lemma IntCastOfDecimalString(i: Int64)
    ensures IntCast(Str(DecimalString(i))) == i
  {
    assert DecimalString(i) + "" == DecimalString(i);
    StringToIntOfLeadingNumber(i, "");
  }

  /** The (int) cast leaves integers alone and sends null, false and [] to 0. */
  lemma IntCastBasics(i: Int64)
    ensures IntCast(Int(i)) == i
    ensures IntCast(Null) == 0 && IntCast(Bool(false)) == 0 && IntCast(Bool(true)) == 1
    ensures IntCast(Arr([])) == 0
  {
  }

  // ---------------------------------------------------------------------------
  // Exceptions

  /** The PHP throwables the package raises or lets through. */
  datatype Throwable =
    | Exception(message: string)
    | InvalidArgumentException(message: string)
    | Error(message: string)

  datatype Result<+T> = Ok(value: T) | Err(error: Throwable)

  /** How a key reads when interpolated into a message. */
  function KeyString(k: Key): string
  {
    match k
    case IntKey(i) => DecimalString(i)
    case StrKey(s) => s
  }
}
