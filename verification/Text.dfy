/** String notions several source files share: JavaScript whitespace and trimming, decimal
    numerals, and the UTF-8 length of a string. */
module Text {

  import opened Wrappers

  // ---- whitespace ---------------------------------------------------------------------------

  /** The characters JavaScript's `\s` and `String.prototype.trim` treat as whitespace. */
  predicate IsSpace(c: char) {
    var n := c as int;
    9 <= n <= 13 || n == 0x20 || n == 0xA0 || n == 0x1680 || 0x2000 <= n <= 0x200A
    || n == 0x2028 || n == 0x2029 || n == 0x202F || n == 0x205F || n == 0x3000 || n == 0xFEFF
  }

  function TrimStart(s: string): (r: string)
    ensures |r| <= |s|
    ensures r != [] ==> !IsSpace(r[0])
  {
    if s != [] && IsSpace(s[0]) then TrimStart(s[1..]) else s
  }

  function TrimEnd(s: string): (r: string)
    ensures r <= s
    ensures r != [] ==> !IsSpace(r[|r| - 1])
  {
    if s != [] && IsSpace(s[|s| - 1]) then TrimEnd(s[..|s| - 1]) else s
  }

  function Trim(s: string): (r: string)
    ensures |r| <= |s|
    ensures r != [] ==> !IsSpace(r[0]) && !IsSpace(r[|r| - 1])
  {
    TrimEnd(TrimStart(s))
  }

  /** A string with no whitespace at either end is its own trim. */
  lemma TrimFixed(s: string)
    requires s != [] ==> !IsSpace(s[0]) && !IsSpace(s[|s| - 1])
    ensures Trim(s) == s
  {
  }

  predicate AllSpace(s: string) { forall i :: 0 <= i < |s| ==> IsSpace(s[i]) }

  /** Trimming takes away whitespace at the ends and nothing else. */
  lemma TrimTakesSpace(s: string) returns (front: string, back: string)
    ensures AllSpace(front) && AllSpace(back) && s == front + Trim(s) + back
  {
    front := StartTaken(s);
    var start := TrimStart(s);
    back := EndTaken(start);
    assert s == front + (Trim(s) + back);
  }

  lemma {:induction false} StartTaken(s: string) returns (front: string)
    ensures AllSpace(front) && s == front + TrimStart(s)
  {
    front := [];
    if s != [] && IsSpace(s[0]) {
      var more := StartTaken(s[1..]);
      front := [s[0]] + more;
      assert s == [s[0]] + s[1..];
    }
  }

  lemma {:induction false} EndTaken(s: string) returns (back: string)
    ensures AllSpace(back) && s == TrimEnd(s) + back
  {
    back := [];
    if s != [] && IsSpace(s[|s| - 1]) {
      var init := s[..|s| - 1];
      var less := EndTaken(init);
      back := less + [s[|s| - 1]];
      assert s == init + [s[|s| - 1]];
    }
  }

  // ---- decimal numerals ---------------------------------------------------------------------

  predicate IsDigit(c: char) { '0' <= c <= '9' }

  function DigitValue(c: char): nat
    requires IsDigit(c)
  {
    c as int - '0' as int
  }

  function Digit(d: nat): (c: char)
    requires d < 10
    ensures IsDigit(c) && DigitValue(c) == d
  {
    ('0' as int + d) as char
  }

  predicate AllDigits(s: string) { forall i :: 0 <= i < |s| ==> IsDigit(s[i]) }

  /** The value of a digit string, most significant digit first. */
  function NumeralValue(s: string): nat
    requires AllDigits(s)
  {
    if s == [] then 0 else NumeralValue(s[..|s| - 1]) * 10 + DigitValue(s[|s| - 1])
  }

  /** The decimal numeral a template string prints for a non-negative integer. */
  function Decimal(n: nat): (s: string)
    ensures s != [] && AllDigits(s)
    ensures NumeralValue(s) == n
  {
    if n < 10 then [Digit(n)]
    else
      var front := Decimal(n / 10);
      var s := front + [Digit(n % 10)];
      assert s[..|s| - 1] == front;
      s
  }

  /** The start of the longest run of digits that ends `s`. */
  function DigitRunStart(s: string): (k: nat)
    ensures k <= |s| && AllDigits(s[k..])
    ensures k > 0 ==> !IsDigit(s[k - 1])
  {
    if s == [] || !IsDigit(s[|s| - 1]) then |s|
    else
      var k := DigitRunStart(s[..|s| - 1]);
      assert s[k..] == s[..|s| - 1][k..] + [s[|s| - 1]];
      k
  }

  /** What the pattern `-(\d+)$` captures: the number after the last dash, when only digits follow. */
  function TrailingNumber(s: string): Option<nat> {
    var k := DigitRunStart(s);
    if k < |s| && k > 0 && s[k - 1] == '-' then Some(NumeralValue(s[k..])) else None
  }

  lemma {:induction false} DigitRunStartOf(front: string, digits: string)
    requires AllDigits(digits)
    requires front != [] && !IsDigit(front[|front| - 1])
    ensures DigitRunStart(front + digits) == |front|
  {
    var s := front + digits;
    if digits == [] {
      assert s == front;
    } else {
      assert s[..|s| - 1] == front + digits[..|digits| - 1];
      DigitRunStartOf(front, digits[..|digits| - 1]);
    }
  }

  /** A dash and a numeral read back as the numeral's value, whatever stands before the dash. */
  lemma TrailingNumberOf(front: string, n: nat)
    ensures TrailingNumber(front + "-" + Decimal(n)) == Some(n)
  {
    var head := front + "-";
    DigitRunStartOf(head, Decimal(n));
    assert (head + Decimal(n))[|head|..] == Decimal(n);
  }

  // ---- UTF-8 length -------------------------------------------------------------------------

  function Utf8Width(c: char): (w: nat)
    ensures 1 <= w <= 4
  {
    var n := c as int;
    if n < 0x80 then 1 else if n < 0x800 then 2 else if n < 0x10000 then 3 else 4
  }

  /** The bytes of a code point, by section 3 of RFC 3629. */
  function Utf8Bytes(n: nat): seq<nat> {
    if n < 0x80 then [n]
    else if n < 0x800 then [0xC0 + n / 64, 0x80 + n % 64]
    else if n < 0x10000 then [0xE0 + n / 4096, 0x80 + n / 64 % 64, 0x80 + n % 64]
    else [0xF0 + n / 262144, 0x80 + n / 4096 % 64, 0x80 + n / 64 % 64, 0x80 + n % 64]
  }

  /** The width of a character is the number of those bytes. */
  lemma WidthIsBytes(c: char)
    ensures |Utf8Bytes(c as int)| == Utf8Width(c)
  {
  }

  /** The number of bytes `Buffer.byteLength(s, 'utf8')` reports. */
  function Utf8Length(s: string): (n: nat)
    ensures |s| <= n
  {
    if s == [] then 0 else Utf8Width(s[0]) + Utf8Length(s[1..])
  }

  lemma {:induction false} Utf8LengthConcat(a: string, b: string)
    ensures Utf8Length(a + b) == Utf8Length(a) + Utf8Length(b)
  {
    if a == [] {
      assert a + b == b;
    } else {
      assert (a + b)[1..] == a[1..] + b;
      Utf8LengthConcat(a[1..], b);
    }
  }

  /** JavaScript's `length`: the number of UTF-16 code units. */
  function Utf16Length(s: string): (n: nat)
    ensures |s| <= n
  {
    if s == [] then 0 else (if s[0] as int < 0x10000 then 1 else 2) + Utf16Length(s[1..])
  }

  /** The code units of a code point, by section 2.1 of RFC 2781: two above the basic plane. */
  function Utf16Units(n: nat): seq<nat> {
    if n < 0x10000 then [n] else [0xD800 + (n - 0x10000) / 1024, 0xDC00 + (n - 0x10000) % 1024]
  }

  lemma LengthIsUnits(c: char)
    ensures Utf16Length([c]) == |Utf16Units(c as int)|
  {
    assert [c][1..] == [];
  }

  lemma {:induction false} Utf16LengthConcat(a: string, b: string)
    ensures Utf16Length(a + b) == Utf16Length(a) + Utf16Length(b)
  {
    if a == [] {
      assert a + b == b;
    } else {
      assert (a + b)[1..] == a[1..] + b;
      Utf16LengthConcat(a[1..], b);
    }
  }

  lemma Associate(a: string, b: string, c: string)
    ensures (a + b) + c == a + (b + c)
  {
  }

  // ---- joining and counting -----------------------------------------------------------------

  /** `Array.prototype.join` with a single space. */
  function JoinSpaced(parts: seq<string>): string {
    if parts == [] then ""
    else if |parts| == 1 then parts[0]
    else parts[0] + " " + JoinSpaced(parts[1..])
  }

  /** How many characters of `s` belong to `k`. */
  function Count(s: string, k: set<char>): nat {
    if s == [] then 0 else (if s[0] in k then 1 else 0) + Count(s[1..], k)
  }

  lemma {:induction false} CountConcat(a: string, b: string, k: set<char>)
    ensures Count(a + b, k) == Count(a, k) + Count(b, k)
  {
    if a == [] {
      assert a + b == b;
    } else {
      assert (a + b)[1..] == a[1..] + b;
      CountConcat(a[1..], b, k);
    }
  }

  lemma {:induction false} CountZero(s: string, k: set<char>)
    ensures Count(s, k) == 0 <==> forall i :: 0 <= i < |s| ==> s[i] !in k
  {
    if s != [] {
      CountZero(s[1..], k);
      if Count(s, k) == 0 {
        forall i | 0 <= i < |s| ensures s[i] !in k { if i > 0 { assert s[i] == s[1..][i - 1]; } }
      }
    }
  }

  lemma {:induction false} CountSplit(s: string, j: set<char>, k: set<char>)
    requires j !! k
    ensures Count(s, j + k) == Count(s, j) + Count(s, k)
  {
    if s != [] { CountSplit(s[1..], j, k); }
  }
}
