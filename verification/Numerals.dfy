/** Numbers as they are written, and what the conversions of the Go standard library make of them. */
module Numerals {
  import opened Subscriptions

  const MIN_INT64 := -0x8000_0000_0000_0000
  const MAX_INT64 := 0x7fff_ffff_ffff_ffff

  /** The decimal digits of a number, without leading zeros. */
  function Digits(n: nat): string {
    (if n < 10 then "" else Digits(n / 10)) + ["0123456789"[n % 10]]
  }

  function Numeral(n: int): string {
    if n < 0 then "-" + Digits(-n) else Digits(n)
  }

  predicate Zeros(s: string) {
    forall c :: c in s ==> c == '0'
  }

  /** The digits of `n`, perhaps after some zeros. */
  ghost predicate Spells(s: string, n: nat) {
    exists zeros: string :: Zeros(zeros) && s == zeros + Digits(n)
  }

  /** The same, perhaps after a sign. */
  ghost predicate Denotes(s: string, n: int) {
    || (n >= 0 && (Spells(s, n) || (s != "" && s[0] == '+' && Spells(s[1..], n))))
    || (n <= 0 && s != "" && s[0] == '-' && Spells(s[1..], -n))
  }

  predicate AllDigits(s: string) {
    forall c :: c in s ==> '0' <= c <= '9'
  }

  lemma DigitValue(d: nat)
    requires d < 10
    ensures "0123456789"[d] as int - '0' as int == d && '0' <= "0123456789"[d] <= '9'
  {
  }

  lemma DecimalAppend(front: string, c: char)
    ensures Decimal(front + [c]) == 10 * Decimal(front) + (c as int - '0' as int)
  {
    assert (front + [c])[..|front|] == front;
  }

  lemma {:induction false} ZerosValue(zeros: string)
    requires Zeros(zeros)
    ensures Decimal(zeros) == 0
  {
    if zeros != "" {
      var n := |zeros| - 1;
      assert zeros[n] in zeros && forall c :: c in zeros[..n] ==> c in zeros;
      ZerosValue(zeros[..n]);
    }
  }

  lemma {:induction false} SpelledValue(zeros: string, n: nat)
    requires Zeros(zeros)
    ensures Decimal(zeros + Digits(n)) == n && AllDigits(zeros + Digits(n))
  {
    hide Decimal;
    var c := "0123456789"[n % 10];
    DigitValue(n % 10);
    if n < 10 {
      ZerosValue(zeros);
      DecimalAppend(zeros, c);
      assert Digits(n) == [c];
    } else {
      SpelledValue(zeros, n / 10);
      DecimalAppend(zeros + Digits(n / 10), c);
      assert zeros + Digits(n) == (zeros + Digits(n / 10)) + [c];
    }
  }

  lemma {:induction false} EveryDigitsSpell(s: string)
    requires s != "" && AllDigits(s)
    ensures Decimal(s) >= 0 && Spells(s, Decimal(s))
  {
    hide Decimal, Spells;
    var front, c := s[..|s| - 1], s[|s| - 1];
    assert s == front + [c] && c in s;
    DecimalAppend(front, c);
    if front == "" {
      ZerosValue(front);
      OneDigitSpells(c);
    } else {
      assert forall x :: x in front ==> x in s;
      EveryDigitsSpell(front);
      LongerSpells(front, Decimal(front), c);
    }
  }

  lemma OneDigitSpells(c: char)
    requires '0' <= c <= '9'
    ensures Spells([c], c as int - '0' as int)
  {
    var d := c as int - '0' as int;
    DigitValue(d);
    assert Zeros("") && [c] == "" + Digits(d);
  }

  lemma LongerSpells(front: string, m: nat, c: char)
    requires Spells(front, m) && '0' <= c <= '9'
    ensures Spells(front + [c], 10 * m + (c as int - '0' as int))
  {
    hide Spells, Digits, Zeros;
    var d := c as int - '0' as int;
    DigitValue(d);
    DigitsOf(m, d);
    var zeros := SpelledAfter(front, m);
    if m == 0 {
      assert front + [c] == (zeros + "0") + Digits(d);
      SpellsAfter(zeros + "0", d);
    } else {
      assert front + [c] == zeros + Digits(10 * m + d);
      SpellsAfter(zeros, 10 * m + d);
    }
  }

  lemma SpelledAfter(s: string, n: nat) returns (zeros: string)
    requires Spells(s, n)
    ensures Zeros(zeros) && Zeros(zeros + "0") && s == zeros + Digits(n)
  {
    zeros :| Zeros(zeros) && s == zeros + Digits(n);
  }

  lemma SpellsAfter(zeros: string, n: nat)
    requires Zeros(zeros)
    ensures Spells(zeros + Digits(n), n)
  {
  }

  lemma DigitsOf(m: nat, d: nat)
    requires d < 10
    ensures Digits(0) == "0" && Digits(d) == ["0123456789"[d]]
    ensures m > 0 ==> Digits(10 * m + d) == Digits(m) + ["0123456789"[d]]
  {
    assert (10 * m + d) / 10 == m && (10 * m + d) % 10 == d;
  }

  /** The value of a string of digits is the number that it spells. */
  lemma SpellsIff(s: string, n: nat)
    ensures Spells(s, n) <==> s != "" && AllDigits(s) && Decimal(s) == n
  {
    hide Decimal, Digits;
    if Spells(s, n) {
      var zeros :| Zeros(zeros) && s == zeros + Digits(n);
      SpelledValue(zeros, n);
      DigitsNotEmpty(n);
    }
    if s != "" && AllDigits(s) && Decimal(s) == n {
      EveryDigitsSpell(s);
    }
  }

  lemma DigitsNotEmpty(n: nat)
    ensures Digits(n) != "" && '0' <= Digits(n)[0] <= '9'
  {
  }

  /** strconv.Atoi yields the number that a text denotes, if it has 64 bits, and nothing for any other text. */
  lemma AtoiIff(s: string, n: int)
    ensures Atoi(s) == Some(n) <==> MIN_INT64 <= n <= MAX_INT64 && Denotes(s, n)
  {
    hide Decimal, Spells;
    var signed := s != "" && (s[0] == '+' || s[0] == '-');
    var digits := if signed then s[1..] else s;
    var size: nat := if n < 0 then -n else n;
    SpellsIff(s, size);
    SpellsIff(digits, size);
    if signed {
      assert s[0] in s && !AllDigits(s);
    }
    assert AllDigits(digits) <==> !exists c :: c in digits && !('0' <= c <= '9');
    if digits != "" && AllDigits(digits) {
      EveryDigitsSpell(digits);
    }
  }

  lemma NumeralDenotes(n: int)
    ensures Denotes(Numeral(n), n)
  {
    hide Digits;
    var digits := Digits(if n < 0 then -n else n);
    assert Zeros("") && digits == "" + digits;
  }

  /** The limit that the config asks for is the number of 64 bits that its text denotes, or else the default. */
  ghost predicate LimitAsked(config: map<string, string>, default: int, limit: int) {
    var key := "maxInFlightMessages";
    if key in config && exists n :: MIN_INT64 <= n <= MAX_INT64 && Denotes(config[key], n)
    then MIN_INT64 <= limit <= MAX_INT64 && Denotes(config[key], limit)
    else limit == default
  }

  lemma MaxInFlightIsAsked(sub: Subscription, default: int)
    ensures LimitAsked(sub.config, default, sub.MaxInFlight(default))
  {
    hide Atoi, Denotes, Decimal;
    var text := if "maxInFlightMessages" in sub.config then sub.config["maxInFlightMessages"] else "";
    forall n {
      AtoiIff(text, n);
    }
    if "maxInFlightMessages" !in sub.config && Atoi("").Some? {
      EmptyDenotesNothing(Atoi("").value);
    }
  }

  lemma EmptyDenotesNothing(n: int)
    ensures Atoi("") != Some(n)
  {
  }

  lemma NumeralIsAsked(config: map<string, string>, default: int, n: int)
    requires MIN_INT64 <= n <= MAX_INT64 && "maxInFlightMessages" in config && config["maxInFlightMessages"] == Numeral(n)
    ensures LimitAsked(config, default, n)
  {
    hide Denotes, Numeral;
    NumeralDenotes(n);
  }

  /** A config asks for one limit only. */
  lemma OneLimitAsked(config: map<string, string>, default: int, a: int, b: int)
    requires LimitAsked(config, default, a) && LimitAsked(config, default, b)
    ensures a == b
  {
    hide Atoi, Denotes;
    if "maxInFlightMessages" in config {
      AtoiIff(config["maxInFlightMessages"], a);
      AtoiIff(config["maxInFlightMessages"], b);
    }
  }
}
