/** The other forms a number can have for the reader: white space, a sign, octal
    and hexadecimal, and values that do not fit. */
module StrtoulForms {
  import opened Strtoul

  predicate AllDigits(d: string, base: nat) {
    d != "" && forall k :: 0 <= k < |d| ==> DigitValue(d[k]) < base
  }

  /** A digit more is the base times the value so far and the digit. */
  lemma ValueSnoc(d: string, c: char, base: nat)
    ensures Value("", base) == 0
    ensures Value(d + [c], base) == Value(d, base) * base + DigitValue(c)
  {
    assert (d + [c])[..|d|] == d;
  }

  lemma {:induction false} SpacesOf(spaces: string, rest: string)
    requires forall k :: 0 <= k < |spaces| ==> IsSpace(spaces[k])
    requires rest == "" || !IsSpace(rest[0])
    ensures Spaces(spaces + rest) == |spaces|
  {
    if spaces == "" {
      assert spaces + rest == rest;
    } else {
      assert (spaces + rest)[1..] == spaces[1..] + rest;
      SpacesOf(spaces[1..], rest);
    }
  }

  /** What the reader makes of a value: the largest number when it does not fit,
      even after a minus sign, which otherwise takes it modulo 2^32. */
  function Result(value: nat, minus: bool): nat {
    if value >= 0x1_0000_0000 then 0xFFFF_FFFF
    else if minus then (0x1_0000_0000 - value) % 0x1_0000_0000 else value
  }

  /** A number after white space and a sign: `prefix` shows the base and `d` are
      all its digits. */
  lemma ReadsExactly(spaces: string, sign: string, prefix: string, d: string, base: nat, rest: string)
    requires forall k :: 0 <= k < |spaces| ==> IsSpace(spaces[k])
    requires sign == "" || sign == "-" || sign == "+"
    requires (base == 10 && prefix == "" && d != "" && d[0] != '0')
             || (base == 8 && prefix == "" && d != "" && d[0] == '0'
                 && (|d| > 1 || rest == "" || (rest[0] != 'x' && rest[0] != 'X')))
             || (base == 16 && (prefix == "0x" || prefix == "0X"))
    requires AllDigits(d, base) && (rest == "" || DigitValue(rest[0]) >= base)
    ensures Read(spaces + sign + prefix + d + rest)
            == (Result(Value(d, base), sign == "-"), |spaces| + |sign| + |prefix| + |d|)
  {
    hide Value, Digits, Spaces, Read, Prefix;
    var body := prefix + d + rest;
    NotSpace(sign, prefix, d, base);
    PrefixOf(prefix, d, base, rest);
    DigitsOf(d, rest, base);
    Tail(prefix, d, rest);
    assert body != "" && body[0] == (prefix + d)[0];
    ReadsBody(spaces, sign, body, base, |prefix|, |d|);
    Regroup(spaces, sign, prefix, d, rest);
  }

  lemma Tail(prefix: string, d: string, rest: string)
    ensures (prefix + d + rest)[|prefix|..] == d + rest
    ensures (d + rest)[..|d|] == d
  {}

  lemma Regroup(spaces: string, sign: string, prefix: string, d: string, rest: string)
    ensures spaces + sign + prefix + d + rest == spaces + (sign + (prefix + d + rest))
  {}

  /** White space and a sign in front of what shows the base. */
  lemma ReadsBody(spaces: string, sign: string, body: string, base: nat, offset: nat, count: nat)
    requires forall k :: 0 <= k < |spaces| ==> IsSpace(spaces[k])
    requires sign == "" || sign == "-" || sign == "+"
    requires body != "" && !IsSpace(if sign != "" then sign[0] else body[0])
    requires sign == "" ==> body[0] != '-' && body[0] != '+'
    requires Prefix(body) == (base, offset) && offset <= |body| && Digits(body[offset..], base) == count > 0
    ensures Read(spaces + (sign + body))
            == (Result(Value(body[offset..][..count], base), sign == "-"), |spaces| + |sign| + offset + count)
  {
    hide Value, Digits, Spaces, Prefix, Read;
    var tail := sign + body;
    var s := spaces + tail;
    assert tail[0] == if sign != "" then sign[0] else body[0];
    SpacesOf(spaces, tail);
    assert s[|spaces|..] == tail && tail[|sign|..] == body;
    assert s[|spaces| + |sign|..] == body;
    assert s[|spaces| + |sign| + offset..] == body[offset..];
    assert s[|spaces|] == tail[0];
    ReadSteps(s, |spaces|, |sign|, base, offset, count);
  }

  lemma NotSpace(sign: string, prefix: string, d: string, base: nat)
    requires sign == "" || sign == "-" || sign == "+"
    requires d != "" && DigitValue(d[0]) < base <= 16 && (prefix == "" || prefix == "0x" || prefix == "0X")
    ensures var first := if sign != "" then sign[0] else (prefix + d)[0];
            !IsSpace(first) && (sign == "" ==> first != '-' && first != '+')
  {}

  lemma PrefixOf(prefix: string, d: string, base: nat, rest: string)
    requires (base == 10 && prefix == "" && d != "" && d[0] != '0')
             || (base == 8 && prefix == "" && d != "" && d[0] == '0'
                 && (|d| > 1 || rest == "" || (rest[0] != 'x' && rest[0] != 'X')))
             || (base == 16 && (prefix == "0x" || prefix == "0X"))
    requires AllDigits(d, base)
    ensures Prefix(prefix + d + rest) == (base, |prefix|)
  {
    var body := prefix + d + rest;
    if base == 16 {
      assert body[0] == prefix[0] && body[1] == prefix[1] && body[2] == d[0];
    } else {
      assert body == d + rest && body[0] == d[0];
      assert |d| > 1 ==> body[1] == d[1] && DigitValue(d[1]) < 10;
      assert |d| == 1 && rest != "" ==> body[1] == rest[0];
    }
  }

  lemma ReadSteps(s: string, skip: nat, signed: nat, base: nat, offset: nat, count: nat)
    requires Spaces(s) == skip && skip + signed <= |s| && signed <= 1
    requires signed == 1 <==> skip < |s| && (s[skip] == '-' || s[skip] == '+')
    requires Prefix(s[skip + signed..]) == (base, offset)
    requires skip + signed + offset <= |s| && Digits(s[skip + signed + offset..], base) == count > 0
    ensures var minus := signed == 1 && s[skip] == '-';
            Read(s) ==
            (Result(Value(s[skip + signed + offset..][..count], base), minus), skip + signed + offset + count)
  {
    hide Value, Digits, Spaces, Prefix;
    var start := skip + signed;
    assert (Prefix(s[start..]).0, Prefix(s[start..]).1) == (base, offset);
    var digits := s[start + offset..];
  }

  /** Text without a digit after white space and sign is no number: 0, and nothing
      is used. */
  lemma NoNumber(s: string)
    requires s == "" || (!IsSpace(s[0]) && s[0] != '-' && s[0] != '+' && DigitValue(s[0]) >= 10)
    ensures Read(s) == (0, 0)
  {
    assert s[0..] == s;
  }
}
