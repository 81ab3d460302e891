/** Decimal numbers as Go's `%d`, `strconv.Itoa` and `strconv.ParseInt(s, 10, bits)` print and read them. */
module Decimal {
  import opened Wrappers

  const MAX_INT32: int := 0x7fff_ffff
  const MAX_INT64: int := 0x7fff_ffff_ffff_ffff

  predicate IsDigit(c: char) {
    '0' <= c <= '9'
  }

  predicate AllDigits(s: string) {
    forall i :: 0 <= i < |s| ==> IsDigit(s[i])
  }

  function Itoa(n: nat): (s: string)
    ensures s != [] && AllDigits(s)
  {
    if n < 10 then [('0' as int + n) as char] else Itoa(n / 10) + [('0' as int + n % 10) as char]
  }

  function DigitsValue(s: string): nat
    requires AllDigits(s)
  {
    if s == [] then 0 else DigitsValue(s[..|s| - 1]) * 10 + (s[|s| - 1] as int - '0' as int)
  }

  /** ParseInt in base 10: an optional sign, at least one digit, and a value inside the bit size. */
  function ParseInt(s: string, min: int, max: int): Option<int> {
    var signed := s != [] && (s[0] == '+' || s[0] == '-');
    var body := if signed then s[1..] else s;
    if body == [] || !AllDigits(body) then None
    else
      var magnitude: int := DigitsValue(body);
      var n := if signed && s[0] == '-' then 0 - magnitude else magnitude;
      if min <= n <= max then Some(n) else None
  }

  lemma {:induction false} DigitsValueOfItoa(n: nat)
    ensures DigitsValue(Itoa(n)) == n
  {
    if n < 10 {
      assert Itoa(n)[..0] == [];
    } else {
      DigitsValueOfItoa(n / 10);
      assert Itoa(n)[..|Itoa(n)| - 1] == Itoa(n / 10);
    }
  }

  /** What `%d` prints, ParseInt reads back, for every number the bit size holds. */
  lemma ParseIntOfItoa(n: nat, min: int, max: int)
    requires min <= n <= max
    ensures ParseInt(Itoa(n), min, max) == Some(n)
  {
    DigitsValueOfItoa(n);
    assert IsDigit(Itoa(n)[0]);
  }

  function Zeros(n: nat): (s: string)
    ensures |s| == n && forall i :: 0 <= i < n ==> s[i] == '0'
  {
    seq(n, _ => '0')
  }

  lemma ItoaExamples()
    ensures Itoa(0) == "0" && Itoa(9) == "9" && Itoa(10) == "10" && Itoa(2_048) == "2048"
  {
    assert Itoa(20) == "20" && Itoa(204) == "204";
  }

  lemma {:induction false} ZerosBefore(z: nat, s: string)
    requires AllDigits(s)
    ensures AllDigits(Zeros(z) + s) && DigitsValue(Zeros(z) + s) == DigitsValue(s)
    decreases |s|, z
  {
    if s != "" {
      var init := s[..|s| - 1];
      ZerosBefore(z, init);
      assert (Zeros(z) + s)[..z + |s| - 1] == Zeros(z) + init;
    } else if z > 0 {
      ZerosBefore(z - 1, "");
      assert Zeros(z)[..z - 1] == Zeros(z - 1) && Zeros(z - 1) + "" == Zeros(z - 1) && Zeros(z) + "" == Zeros(z);
    }
  }

  /** A text of digits is leading zeros and the decimal text of its value. */
  lemma {:induction false} DigitsAreZerosAndItoa(s: string) returns (z: nat)
    requires AllDigits(s) && s != ""
    ensures s == Zeros(z) + Itoa(DigitsValue(s))
  {
    var init, last := s[..|s| - 1], s[|s| - 1];
    assert s == init + [last] && IsDigit(last);
    if init == "" {
      z := 0;
    } else {
      z := DigitsAreZerosAndItoa(init);
      if DigitsValue(init) == 0 {
        assert Itoa(0) == Zeros(1) && Zeros(z) + Zeros(1) == Zeros(z + 1);
        z := z + 1;
      } else {
        assert Zeros(z) + Itoa(DigitsValue(init)) + [last] == Zeros(z) + (Itoa(DigitsValue(init)) + [last]);
      }
    }
  }

  /** The text is that number: leading zeros allowed, a plus sign too, and a minus sign for zero and below. */
  ghost predicate Spells(s: string, n: int) {
    || (n >= 0 && exists z :: s == Zeros(z) + Itoa(n))
    || (n >= 0 && exists z :: s == "+" + (Zeros(z) + Itoa(n)))
    || (n <= 0 && exists z :: s == "-" + (Zeros(z) + Itoa(-n)))
  }

  lemma SpelledDigits(z: nat, n: nat)
    ensures var digits := Zeros(z) + Itoa(n);
            digits != "" && AllDigits(digits) && DigitsValue(digits) == n && IsDigit(digits[0])
  {
    ZerosBefore(z, Itoa(n));
    DigitsValueOfItoa(n);
  }

  lemma SpelledIsParsed(s: string, min: int, max: int, n: int)
    requires min <= n <= max && Spells(s, n)
    ensures ParseInt(s, min, max) == Some(n)
  {
    hide Itoa, DigitsValue, AllDigits, Zeros;
    if n >= 0 {
      if z :| s == Zeros(z) + Itoa(n) {
        SpelledDigits(z, n);
      } else if z :| s == "+" + (Zeros(z) + Itoa(n)) {
        SpelledDigits(z, n);
        assert s[1..] == Zeros(z) + Itoa(n);
      }
    }
    if n <= 0 {
      if z :| s == "-" + (Zeros(z) + Itoa(-n)) {
        SpelledDigits(z, -n);
        assert s[1..] == Zeros(z) + Itoa(-n);
      }
    }
  }

  /** What ParseInt accepts, and as which number: exactly the texts that spell a number in range. */
  lemma ParsedNumbers(s: string, min: int, max: int, n: int)
    ensures ParseInt(s, min, max) == Some(n) <==> min <= n <= max && Spells(s, n)
  {
    hide Itoa, DigitsValue, AllDigits, Zeros;
    var signed := s != [] && (s[0] == '+' || s[0] == '-');
    var body := if signed then s[1..] else s;
    if ParseInt(s, min, max) == Some(n) {
      var z := DigitsAreZerosAndItoa(body);
      assert s == if signed then [s[0]] + body else body;
    }
    if min <= n <= max && Spells(s, n) {
      SpelledIsParsed(s, min, max, n);
    }
  }

  lemma ItoaInjective(m: nat, n: nat)
    requires Itoa(m) == Itoa(n)
    ensures m == n
  {
    DigitsValueOfItoa(m);
    DigitsValueOfItoa(n);
  }

  lemma ItoaHasNo(n: nat, c: char)
    requires !IsDigit(c)
    ensures c !in Itoa(n)
  {
  }
}
