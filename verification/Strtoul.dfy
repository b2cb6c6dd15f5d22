/** Decimal printing (`%u`) and the C library's number reader with base 0, as
    section 7.22.1.4 of ISO C11 describes it, for a 32-bit `unsigned long`. */
module Strtoul {

  const ULONG_RANGE := 0x1_0000_0000

  /** A C string: the characters before the terminating NUL. */
  type CString = s: string | '\0' !in s

  // ----- printing

  function DigitChar(d: nat): char
    requires d < 10
  {
    '0' + d as char
  }

  /** The text `%u` prints. */
  function Decimal(n: nat): CString {
    if n < 10 then [DigitChar(n)] else Decimal(n / 10) + [DigitChar(n % 10)]
  }

  // ----- reading

  predicate IsSpace(c: char) {
    c == ' ' || '\t' <= c <= '\r'
  }

  /** The value of a letter or digit; 36 for anything that is never a digit. */
  function DigitValue(c: char): nat {
    if '0' <= c <= '9' then (c - '0') as nat
    else if 'a' <= c <= 'z' then (c - 'a') as nat + 10
    else if 'A' <= c <= 'Z' then (c - 'A') as nat + 10
    else 36
  }

  /** How many leading characters of s are white space. */
  function Spaces(s: string): (n: nat)
    ensures n <= |s|
  {
    if s != "" && IsSpace(s[0]) then 1 + Spaces(s[1..]) else 0
  }

  /** How many leading characters of s are digits of the base. */
  function Digits(s: string, base: nat): (n: nat)
    ensures n <= |s|
    ensures forall k :: 0 <= k < n ==> DigitValue(s[k]) < base
  {
    if s != "" && DigitValue(s[0]) < base then 1 + Digits(s[1..], base) else 0
  }

  /** The number a digit string denotes, most significant digit first. */
  function Value(s: string, base: nat): nat {
    if s == "" then 0 else Value(s[..|s| - 1], base) * base + DigitValue(s[|s| - 1])
  }

  /** What the reader takes for its subject: the base it settles on and where
      the digits start, counted from the first character after the sign. */
  function Prefix(s: string): (r: (nat, nat))
    ensures r.1 <= |s|
  {
    if |s| >= 3 && s[0] == '0' && (s[1] == 'x' || s[1] == 'X') && DigitValue(s[2]) < 16 then (16, 2)
    else if s != "" && s[0] == '0' then (8, 0)
    else (10, 0)
  }

  /** The value read from the front of s and the number of characters used;
      nothing is used when there is no number. */
  function Read(s: string): (r: (nat, nat))
    ensures r.0 < ULONG_RANGE && r.1 <= |s|
  {
    var skip := Spaces(s);
    var signed := skip < |s| && (s[skip] == '-' || s[skip] == '+');
    var start := if signed then skip + 1 else skip;
    var (base, offset) := Prefix(s[start..]);
    var digits := s[start + offset..];
    var count := Digits(digits, base);
    if count == 0 then (0, 0)
    else
      var value := Value(digits[..count], base);
      var result := if value >= ULONG_RANGE then ULONG_RANGE - 1
                    else if signed && s[skip] == '-' then (ULONG_RANGE - value) % ULONG_RANGE
                    else value;
      (result, start + offset + count)
  }

  // ----- printed numbers read back

  /** Nothing after a printed number could be taken for part of it. */
  predicate Delimited(rest: string) {
    rest == "" || (DigitValue(rest[0]) >= 10 && rest[0] != 'x' && rest[0] != 'X')
  }

  /** A printed number is all decimal digits, denotes itself, and starts with
      0 only when it is the number 0: it can never be read as octal. */
  lemma {:induction false} DecimalDigits(n: nat)
    ensures Decimal(n) != ""
    ensures forall k :: 0 <= k < |Decimal(n)| ==> DigitValue(Decimal(n)[k]) < 10 && '0' <= Decimal(n)[k] <= '9'
    ensures Value(Decimal(n), 10) == n
    ensures Decimal(n)[0] == '0' <==> n == 0
  {
    var d := Decimal(n);
    if n < 10 {
      assert d[..|d| - 1] == "";
    } else {
      DecimalDigits(n / 10);
      assert d[..|d| - 1] == Decimal(n / 10);
    }
  }

  lemma {:induction false} DigitsOf(d: string, rest: string, base: nat)
    requires forall k :: 0 <= k < |d| ==> DigitValue(d[k]) < base
    requires rest == "" || DigitValue(rest[0]) >= base
    ensures Digits(d + rest, base) == |d|
  {
    if d == "" {
      assert d + rest == rest;
    } else {
      assert (d + rest)[1..] == d[1..] + rest;
      DigitsOf(d[1..], rest, base);
    }
  }

  /** A number that starts with its first digit, read in the base it shows. */
  lemma ReadDigits(s: string, base: nat, count: nat)
    requires s != "" && !IsSpace(s[0]) && s[0] != '-' && s[0] != '+'
    requires Prefix(s) == (base, 0) && Digits(s, base) == count > 0 && Value(s[..count], base) < ULONG_RANGE
    ensures Read(s) == (Value(s[..count], base), count)
  {
    hide Value, Digits, Prefix;
    assert Spaces(s) == 0 && s[0..] == s;
  }

  /** Reading back what was printed gives the number and stops right after it. */
  lemma ReadDecimal(n: nat, rest: string)
    requires n < ULONG_RANGE
    requires Delimited(rest)
    ensures Read(Decimal(n) + rest) == (n, |Decimal(n)|)
  {
    hide Decimal, Read, Value, Digits, Spaces;
    var d := Decimal(n);
    var s := d + rest;
    DecimalDigits(n);
    assert s[0] == d[0] && s[..|d|] == d;
    if n == 0 {
      ZeroDigit();
      assert d == "0";
      DigitsOf(d, rest, 8);
      ReadDigits(s, 8, 1);
    } else {
      DigitsOf(d, rest, 10);
      ReadDigits(s, 10, |d|);
    }
  }

  lemma ZeroDigit()
    ensures Decimal(0) == "0" && Value("0", 8) == 0
  {
    assert "0"[..0] == "";
  }

  /** The longest decimal a bound allows. */
  lemma DecimalLength(n: nat)
    ensures n < 100 ==> |Decimal(n)| <= 2
  {}
}
