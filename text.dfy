/** Character-level helpers used by the topology validator: the C `isspace`
    set, whitespace removal anywhere in a line, and the decimal rendering of a
    non-negative number (what `std::to_string` produces for an unsigned value). */
module Text {

  /** The characters `::isspace` accepts in the "C" locale:
      space, horizontal tab, line feed, vertical tab, form feed, carriage return. */
  predicate IsSpace(c: char) {
    c == ' ' || c == '\t' || c == '\n' || c == '\U{B}' || c == '\U{C}' || c == '\r'
  }

  predicate NoSpace(s: string) {
    forall i :: 0 <= i < |s| ==> !IsSpace(s[i])
  }

  /** The validator's whitespace removal (src/BcComponent.cpp:217): every
      whitespace character is dropped wherever it stands, and the other
      characters keep their order. */
  function StripSpace(s: string): (r: string)
    ensures NoSpace(r)
    ensures |r| <= |s|
  {
    if s == [] then []
    else (if IsSpace(s[0]) then [] else [s[0]]) + StripSpace(s[1..])
  }

  /** Stripping keeps exactly the characters that are not whitespace. */
  lemma {:induction false} StripSpaceChars(s: string)
    ensures forall c :: c in StripSpace(s) <==> c in s && !IsSpace(c)
  {
    if s != [] {
      StripSpaceChars(s[1..]);
      assert s == [s[0]] + s[1..];
    }
  }

  /** A line without whitespace is left as it is. */
  lemma {:induction false} StripSpaceKeepsClean(s: string)
    requires NoSpace(s)
    ensures StripSpace(s) == s
  {
    if s != [] {
      StripSpaceKeepsClean(s[1..]);
    }
  }

  /** Removing whitespace a second time changes nothing. */
  lemma StripSpaceIdempotent(s: string)
    ensures StripSpace(StripSpace(s)) == StripSpace(s)
  {
    StripSpaceKeepsClean(StripSpace(s));
  }

  /** Whitespace is removed from the middle of a line as well as from its
      ends: stripping a concatenation strips each part. */
  lemma {:induction false} StripSpaceConcat(a: string, b: string)
    ensures StripSpace(a + b) == StripSpace(a) + StripSpace(b)
  {
    if a == [] {
      assert a + b == b;
    } else {
      assert (a + b)[1..] == a[1..] + b;
      StripSpaceConcat(a[1..], b);
    }
  }

  predicate IsDigit(c: char) {
    '0' <= c <= '9'
  }

  function DigitChar(d: nat): (c: char)
    requires d < 10
    ensures IsDigit(c)
  {
    ('0' as int + d) as char
  }

  function DigitValue(c: char): (d: nat)
    requires IsDigit(c)
    ensures d < 10 && DigitChar(d) == c
  {
    c as int - '0' as int
  }

  predicate AllDigits(s: string) {
    forall i :: 0 <= i < |s| ==> IsDigit(s[i])
  }

  /** A canonical decimal numeral: non-empty, digits only, and no leading
      zero unless the numeral is "0" itself. */
  predicate Canonical(s: string) {
    |s| >= 1 && AllDigits(s) && (s[0] == '0' ==> |s| == 1)
  }

  /** The decimal rendering the validator compares each line against
      (src/BcComponent.cpp:226): no sign, no leading zero. */
  function DecimalString(n: nat): (s: string)
    ensures Canonical(s)
    ensures s == "0" <==> n == 0
    decreases n
  {
    if n < 10 then [DigitChar(n)] else DecimalString(n / 10) + [DigitChar(n % 10)]
  }

  /** The value a digit string denotes (the inverse of DecimalString). */
  function ParseDecimal(s: string): nat
    requires AllDigits(s)
    decreases |s|
  {
    if s == [] then 0
    else ParseDecimal(s[..|s| - 1]) * 10 + DigitValue(s[|s| - 1])
  }

  /** Reading back a rendered number gives the number. */
  lemma {:induction false} ParseDecimalString(n: nat)
    ensures ParseDecimal(DecimalString(n)) == n
    decreases n
  {
    var s := DecimalString(n);
    if n >= 10 {
      ParseDecimalString(n / 10);
      assert s[..|s| - 1] == DecimalString(n / 10);
    }
  }

  lemma {:induction false} ParsePositive(s: string)
    requires |s| >= 1 && AllDigits(s) && s[0] != '0'
    ensures ParseDecimal(s) >= 1
    decreases |s|
  {
    if |s| > 1 {
      ParsePositive(s[..|s| - 1]);
    }
  }

  /** Rendering the value of a canonical numeral gives the numeral back. */
  lemma {:induction false} DecimalStringOfParse(s: string)
    requires Canonical(s)
    ensures DecimalString(ParseDecimal(s)) == s
    decreases |s|
  {
    if |s| > 1 {
      var p := s[..|s| - 1];
      var d := DigitValue(s[|s| - 1]);
      ParsePositive(p);
      DecimalStringOfParse(p);
      var n := ParseDecimal(p) * 10 + d;
      assert n / 10 == ParseDecimal(p) && n % 10 == d;
      assert s == p + [s[|s| - 1]];
    }
  }

  /** Two numbers have the same decimal rendering only if they are equal. */
  lemma DecimalStringInjective(m: nat, n: nat)
    requires DecimalString(m) == DecimalString(n)
    ensures m == n
  {
    ParseDecimalString(m);
    ParseDecimalString(n);
  }

  /** A line equals the rendering of `n` exactly when it is a canonical
      numeral whose value is `n`: numerals with a leading zero, a sign or any
      other character never match. */
  lemma DecimalStringMatch(line: string, n: nat)
    ensures line == DecimalString(n) <==> Canonical(line) && ParseDecimal(line) == n
  {
    if line == DecimalString(n) {
      ParseDecimalString(n);
    }
    if Canonical(line) && ParseDecimal(line) == n {
      DecimalStringOfParse(line);
    }
  }
}
