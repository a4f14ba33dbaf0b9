/** The small part of PHP's value semantics and built-in functions that the
    backup tool's decisions depend on: truthiness, `strtolower`, `strpos`,
    `substr`, `implode`, `array_unique` and the `(int)` cast. */
module Php {

  /** A PHP value, as far as this model needs to tell values apart. An array
      is represented by its element count only: nothing here looks inside one. */
  datatype Value =
    | Null
    | Bool(b: bool)
    | Int(i: int)
    | Real(r: real)
    | Str(s: string)
    | Arr(size: nat)
    | Obj

  /** The values a field of the machine-details record can hold: null, the
      `false` a failed fetch yields, or a string. */
  type Scalar = v: Value | v.Null? || v == Bool(false) || v.Str? witness Value.Null

  /** PHP's falsy values: what `empty()` reports and `boolval()` maps to false. */
  predicate Falsy(v: Value) {
    match v
    case Null => true
    case Bool(b) => !b
    case Int(i) => i == 0
    case Real(r) => r == 0.0
    case Str(s) => s == "" || s == "0"
    case Arr(n) => n == 0
    case Obj => false
  }

  /** `isset()` on a value that exists: anything but null. */
  predicate IsSet(v: Value) {
    !v.Null?
  }

  /** String conversion of a scalar: null and false both become "". */
  function AsString(v: Scalar): string {
    if v.Str? then v.s else ""
  }

  // ---------------------------------------------------------------------
  // strtolower

  function LowerChar(c: char): char {
    if 'A' <= c <= 'Z' then (c as int + 32) as char else c
  }

  /** `strtolower`: ASCII letters are lowered, every other character kept. */
  function Lower(s: string): (r: string)
    ensures |r| == |s|
    ensures forall i :: 0 <= i < |s| ==> r[i] == LowerChar(s[i])
  {
    if |s| == 0 then [] else [LowerChar(s[0])] + Lower(s[1..])
  }

  /** Case-insensitive equality, character by character. */
  predicate EqualsIgnoreCase(a: string, b: string) {
    |a| == |b| && forall i :: 0 <= i < |a| ==> LowerChar(a[i]) == LowerChar(b[i])
  }

  // ---------------------------------------------------------------------
  // strpos(haystack, needle) !== false

  predicate OccursAt(haystack: string, needle: string, i: int) {
    0 <= i && i + |needle| <= |haystack| && haystack[i..i + |needle|] == needle
  }

  /** Whether `needle` occurs in `haystack`, scanning from the left as `strpos` does. */
  function Contains(haystack: string, needle: string): bool
    decreases |haystack|
  {
    if |haystack| < |needle| then false
    else haystack[..|needle|] == needle || Contains(haystack[1..], needle)
  }

  /** The scan finds the needle exactly when it occurs at some position. */
  lemma {:induction false} ContainsIffOccurs(haystack: string, needle: string)
    ensures Contains(haystack, needle) <==> exists i :: OccursAt(haystack, needle, i)
    decreases |haystack|
  {
    if |haystack| < |needle| {
      assert forall i :: !OccursAt(haystack, needle, i);
    } else if haystack[..|needle|] == needle {
      assert OccursAt(haystack, needle, 0);
    } else {
      var tail := haystack[1..];
      ContainsIffOccurs(tail, needle);
      if Contains(tail, needle) {
        var i :| OccursAt(tail, needle, i);
        OccursShift(haystack, needle, i + 1);
      } else {
        forall i | OccursAt(haystack, needle, i)
          ensures false
        {
          if i > 0 {
            OccursShift(haystack, needle, i);
          }
        }
      }
    }
  }

  /** An occurrence past the first position is one in the tail. */
  lemma OccursShift(haystack: string, needle: string, i: int)
    requires |haystack| > 0 && i >= 1
    ensures OccursAt(haystack, needle, i) <==> OccursAt(haystack[1..], needle, i - 1)
  {
    if i + |needle| <= |haystack| {
      assert haystack[1..][i - 1..i - 1 + |needle|] == haystack[i..i + |needle|];
    }
  }

  // ---------------------------------------------------------------------
  // substr(s, start) for a non-negative start (PHP 8: "" past the end)

  function Substr(s: string, start: nat): (r: string)
    ensures |s| <= start ==> r == ""
    ensures start < |s| ==> s == s[..start] + r
  {
    if |s| <= start then "" else s[start..]
  }

  // ---------------------------------------------------------------------
  // implode(glue, parts)

  /** `implode`: the parts in order with the glue between neighbours. */
  function Implode(glue: string, parts: seq<string>): (r: string)
    ensures |parts| == 0 ==> r == ""
    ensures |parts| > 0 ==> parts[0] <= r
  {
    if |parts| == 0 then ""
    else if |parts| == 1 then parts[0]
    else parts[0] + glue + Implode(glue, parts[1..])
  }

  lemma ImplodeOfTwo(glue: string, a: string, b: string)
    ensures Implode(glue, [a, b]) == a + glue + b
  {
    assert [a, b][1..] == [b];
  }

  lemma ImplodeOfThree(glue: string, a: string, b: string, c: string)
    ensures Implode(glue, [a, b, c]) == a + glue + b + glue + c
  {
    var parts := [a, b, c];
    assert parts[1..] == [b, c] && parts[1..][1..] == [c];
    assert Implode(glue, [b, c]) == b + glue + c;
    assert a + glue + (b + glue + c) == a + glue + b + glue + c;
  }

  // ---------------------------------------------------------------------
  // array_unique on a list: the first occurrence of each value is kept

  /** Position of the first occurrence of `x` in `s`. */
  function FirstIndex<T(==)>(s: seq<T>, x: T): (k: nat)
    requires x in s
    ensures k < |s| && s[k] == x && x !in s[..k]
  {
    if s[0] == x then 0 else 1 + FirstIndex(s[1..], x)
  }

  /** The first occurrence in a list is at its head, or one past the first
      occurrence in its tail. */
  lemma FirstIndexCons<T>(s: seq<T>, x: T)
    requires x in s
    ensures s[0] == x ==> FirstIndex(s, x) == 0
    ensures s[0] != x ==> x in s[1..] && FirstIndex(s, x) == FirstIndex(s[1..], x) + 1
  {
    if s[0] != x {
      var k := FirstIndex(s, x);
      assert s[1..][k - 1] == x;
    }
  }

  lemma FirstIndexOfPrefix<T>(s: seq<T>, n: nat, x: T)
    requires n <= |s| && x in s[..n]
    ensures FirstIndex(s, x) == FirstIndex(s[..n], x)
  {
    var k := FirstIndex(s, x);
    var k' := FirstIndex(s[..n], x);
    assert s[..n][..k'] == s[..k'];
  }

  /** The values of a list, as a set. */
  function Elements<T>(s: seq<T>): set<T> {
    set i | 0 <= i < |s| :: s[i]
  }

  lemma ElementsSnoc<T>(s: seq<T>)
    requires |s| > 0
    ensures Elements(s) == Elements(s[..|s| - 1]) + {s[|s| - 1]}
  {
    var init := s[..|s| - 1];
    forall x | x in Elements(s) ensures x in Elements(init) + {s[|s| - 1]} {
      var i :| 0 <= i < |s| && s[i] == x;
      if i < |s| - 1 { assert init[i] == x; }
    }
    forall x | x in Elements(init) ensures x in Elements(s) {
      var i :| 0 <= i < |init| && init[i] == x;
      assert s[i] == x;
    }
  }

  predicate Distinct<T(==)>(s: seq<T>) {
    forall i, j :: 0 <= i < j < |s| ==> s[i] != s[j]
  }

  /** `array_unique`: drops repeated values, keeping each first occurrence in place. */
  function Unique<T(==)>(s: seq<T>): (r: seq<T>)
    ensures forall i :: 0 <= i < |r| ==> r[i] in s
    ensures forall i :: 0 <= i < |s| ==> s[i] in r
    ensures Distinct(r)
    ensures forall i, j :: 0 <= i < j < |r| ==> FirstIndex(s, r[i]) < FirstIndex(s, r[j])
    ensures |r| <= |s|
  {
    if |s| == 0 then []
    else
      var last := s[|s| - 1];
      var u := Unique(s[..|s| - 1]);
      UniqueStep(s, u);
      if last in u then u
      else u + [last]
  }

  /** A list without repeats is its own `array_unique`. */
  lemma {:induction false} UniqueOfDistinct<T>(s: seq<T>)
    requires Distinct(s)
    ensures Unique(s) == s
  {
    if |s| > 0 {
      var n := |s| - 1;
      DistinctInit(s);
      UniqueOfDistinct(s[..n]);
      UniqueSnocNew(s);
    }
  }

  /** Without repeats, the list minus its last value has none either and
      does not hold that value. */
  lemma DistinctInit<T>(s: seq<T>)
    requires |s| > 0 && Distinct(s)
    ensures Distinct(s[..|s| - 1]) && s[|s| - 1] !in s[..|s| - 1]
    ensures s == s[..|s| - 1] + [s[|s| - 1]]
  {
    var n := |s| - 1;
    var init := s[..n];
    forall i, j | 0 <= i < j < n ensures init[i] != init[j] {
      assert init[i] == s[i] && init[j] == s[j];
    }
    forall i | 0 <= i < n ensures init[i] != s[n] {
      assert init[i] == s[i];
    }
  }

  lemma UniqueSnocNew<T>(s: seq<T>)
    requires |s| > 0 && s[|s| - 1] !in Unique(s[..|s| - 1])
    ensures Unique(s) == Unique(s[..|s| - 1]) + [s[|s| - 1]]
  {
  }

  /** The step of `Unique`: the last value is added when it is new. */
  lemma UniqueStep<T>(s: seq<T>, u: seq<T>)
    requires |s| > 0
    requires var init := s[..|s| - 1];
      && (forall i :: 0 <= i < |u| ==> u[i] in init)
      && (forall i :: 0 <= i < |init| ==> init[i] in u)
      && Distinct(u)
      && (forall i, j :: 0 <= i < j < |u| ==> FirstIndex(init, u[i]) < FirstIndex(init, u[j]))
      && |u| <= |init|
    ensures var r := if s[|s| - 1] in u then u else u + [s[|s| - 1]];
      && (forall i :: 0 <= i < |r| ==> r[i] in s)
      && (forall i :: 0 <= i < |s| ==> s[i] in r)
      && Distinct(r)
      && (forall i, j :: 0 <= i < j < |r| ==> FirstIndex(s, r[i]) < FirstIndex(s, r[j]))
      && |r| <= |s|
  {
    var n := |s| - 1;
    var init, last := s[..n], s[n];
    FirstIndexOfInit(s);
    forall i | 0 <= i < |u| ensures u[i] in s && FirstIndex(s, u[i]) == FirstIndex(init, u[i]) {
      assert u[i] in init;
    }
    forall i | 0 <= i < |s| ensures s[i] in u || s[i] == last {
      if i < n { assert s[i] == init[i]; }
    }
    if last !in u {
      var r := u + [last];
      assert last !in init;
      forall i, j | 0 <= i < j < |r| ensures FirstIndex(s, r[i]) < FirstIndex(s, r[j]) {
        if j == |u| { assert r[i] == u[i] && r[i] in init; } else { assert r[i] == u[i] && r[j] == u[j]; }
      }
    }
  }

  /** Dropping the last element moves no first occurrence, and a value that
      first occurs last is found there. */
  lemma FirstIndexOfInit<T>(s: seq<T>)
    requires |s| > 0
    ensures s == s[..|s| - 1] + [s[|s| - 1]]
    ensures forall y :: y in s[..|s| - 1] ==> FirstIndex(s, y) == FirstIndex(s[..|s| - 1], y) < |s| - 1
    ensures s[|s| - 1] !in s[..|s| - 1] ==> FirstIndex(s, s[|s| - 1]) == |s| - 1
  {
    forall y | y in s[..|s| - 1]
      ensures FirstIndex(s, y) == FirstIndex(s[..|s| - 1], y) < |s| - 1
    {
      FirstIndexOfPrefix(s, |s| - 1, y);
    }
  }

  // ---------------------------------------------------------------------
  // Decimal digits and the (int) cast of a string

  const IntMax: int := 0x7FFF_FFFF_FFFF_FFFF
  const IntMin: int := -0x8000_0000_0000_0000

  /** Clamping into PHP's 64-bit integer range, as the string-to-int cast does. */
  function Saturate(x: int): int {
    if x > IntMax then IntMax else if x < IntMin then IntMin else x
  }

  predicate IsDigit(c: char) {
    '0' <= c <= '9'
  }

  predicate AllDigits(s: string) {
    forall i :: 0 <= i < |s| ==> IsDigit(s[i])
  }

  /** The whitespace PHP skips before a numeric string: space, \t, \n, \r, \v, \f. */
  predicate IsSpace(c: char) {
    c == ' ' || c == '\t' || c == '\n' || c == '\r' || c as int == 0x0B || c as int == 0x0C
  }

  function DigitChar(d: nat): char
    requires d < 10
  {
    ('0' as int + d) as char
  }

  function DigitValue(c: char): nat
    requires IsDigit(c)
  {
    c as int - '0' as int
  }

  /** The decimal rendering of a natural number, without leading zeros. */
  function Decimal(n: nat): (r: string)
    ensures |r| > 0 && AllDigits(r)
  {
    if n < 10 then [DigitChar(n)] else Decimal(n / 10) + [DigitChar(n % 10)]
  }

  /** The value of a string of decimal digits. */
  function DigitsValue(d: string): nat
    requires AllDigits(d)
  {
    if |d| == 0 then 0 else DigitsValue(d[..|d| - 1]) * 10 + DigitValue(d[|d| - 1])
  }

  /** The longest prefix of `s` made of decimal digits. */
  function LeadingDigits(s: string): (r: string)
    ensures AllDigits(r) && r <= s
    ensures |r| < |s| ==> !IsDigit(s[|r|])
  {
    if |s| == 0 || !IsDigit(s[0]) then "" else [s[0]] + LeadingDigits(s[1..])
  }

  function SkipSpace(s: string): (r: string)
    ensures |r| > 0 ==> !IsSpace(r[0])
  {
    if |s| > 0 && IsSpace(s[0]) then SkipSpace(s[1..]) else s
  }

  /** `(int)` of a string: leading whitespace, an optional sign, then the
      longest run of digits; no digits gives 0; out-of-range saturates. */
  function StringToInt(s: string): int {
    var t := SkipSpace(s);
    if |t| > 0 && (t[0] == '-' || t[0] == '+') then
      var m: int := DigitsValue(LeadingDigits(t[1..]));
      Saturate(if t[0] == '-' then -m else m)
    else
      Saturate(DigitsValue(LeadingDigits(t)))
  }

  /** `(int)` of any value. */
  function IntCast(v: Value): int {
    match v
    case Null => 0
    case Bool(b) => if b then 1 else 0
    case Int(i) => i
    case Real(r) => if r >= 0.0 then r.Floor else -((-r).Floor)
    case Str(s) => StringToInt(s)
    case Arr(n) => if n > 0 then 1 else 0
    case Obj => 1
  }

  lemma {:induction false} DigitsValueOfDecimal(n: nat)
    ensures DigitsValue(Decimal(n)) == n
  {
    var d := Decimal(n);
    if n < 10 {
      assert d[..0] == "";
    } else {
      DigitsValueOfDecimal(n / 10);
      assert d[..|d| - 1] == Decimal(n / 10);
    }
  }

  lemma {:induction false} LeadingDigitsOfDigits(s: string)
    requires AllDigits(s)
    ensures LeadingDigits(s) == s
  {
    if |s| > 0 {
      LeadingDigitsOfDigits(s[1..]);
    }
  }

  /** Reading back a rendered number gives the number (clamped to 64 bits). */
  lemma DecimalRoundTrip(n: nat)
    ensures StringToInt(Decimal(n)) == Saturate(n)
    ensures StringToInt("-" + Decimal(n)) == Saturate(-(n as int))
  {
    var d := Decimal(n);
    DigitsValueOfDecimal(n);
    LeadingDigitsOfDigits(d);
    assert SkipSpace(d) == d;
    var m := "-" + d;
    assert SkipSpace(m) == m;
    assert m[1..] == d;
  }
}
