/** Decimal text: what `to_string` prints for an unsigned integer and what `parse` reads back. */
module Decimal {
  import opened Wrappers
  import opened Text

  const U8_MAX := 255
  const U16_MAX := 65535
  const U64_MAX := 0xFFFF_FFFF_FFFF_FFFF

  function Digit(d: int): char
    requires 0 <= d < 10
  {
    ('0' as int + d) as char
  }

  function DigitValue(c: char): nat
    requires IsDigit(c)
  {
    c as int - '0' as int
  }

  /** `to_string()` of an unsigned integer. */
  function Print(n: nat): (r: string) {
    if n < 10 then [Digit(n)] else Print(n / 10) + [Digit(n % 10)]
  }

  predicate AllDigits(s: string) {
    forall i :: 0 <= i < |s| ==> IsDigit(s[i])
  }

  function Value(s: string): (r: nat)
    requires AllDigits(s)
  {
    if s == [] then 0 else 10 * Value(s[..|s| - 1]) + DigitValue(s[|s| - 1])
  }

  /** `parse::<uN>()` for the type with maximum `max`: an optional `+`, then digits only. */
  function Parse(s: string, max: nat): (r: Option<nat>) {
    var digits := if s != [] && s[0] == '+' then s[1..] else s;
    if digits != [] && AllDigits(digits) && Value(digits) <= max then Some(Value(digits)) else None
  }

  /** The text `to_string` would have printed: digits with no spare leading zero. */
  predicate Canonical(s: string) {
    s != [] && AllDigits(s) && (s[0] == '0' ==> |s| == 1)
  }

  lemma {:induction false} PrintValue(n: nat)
    ensures Canonical(Print(n)) && Value(Print(n)) == n
    ensures n > 0 ==> Print(n)[0] != '0'
  {
    if n >= 10 {
      PrintValue(n / 10);
      var p := Print(n / 10);
      assert Print(n)[..|p|] == p;
      assert Print(n)[0] == p[0];
    } else {
      assert Print(n)[..0] == [];
    }
  }

  lemma LastDigit(n: nat, d: nat)
    requires d < 10
    ensures (10 * n + d) / 10 == n && (10 * n + d) % 10 == d
  {
  }

  lemma {:induction false} ValuePrint(s: string)
    requires Canonical(s)
    ensures Print(Value(s)) == s
    ensures s[0] != '0' ==> Value(s) > 0
  {
    var init := s[..|s| - 1];
    assert s == init + [s[|s| - 1]];
    if |s| == 1 {
      assert Value(init) == 0;
    } else {
      assert init[0] == s[0];
      ValuePrint(init);
      var d := DigitValue(s[|s| - 1]);
      LastDigit(Value(init), d);
    }
  }

  /** A printed number reads back exactly when it fits the type. */
  lemma ParsePrint(n: nat, max: nat)
    ensures Parse(Print(n), max) == if n <= max then Some(n) else None
    ensures forall c :: c in Print(n) ==> IsDigit(c)
  {
    PrintValue(n);
  }

  /** Reading then printing gives the text back exactly when the text is canonical. */
  lemma PrintParse(s: string, max: nat)
    requires Parse(s, max).Some?
    ensures Print(Parse(s, max).value) == s <==> Canonical(s)
  {
    PrintValue(Parse(s, max).value);
    if Canonical(s) {
      ValuePrint(s);
    }
  }

  /** The three widths: what fits is read, and nothing more. */
  lemma Widths(n: nat)
    ensures Parse(Print(n), U8_MAX).Some? <==> n < 256
    ensures Parse(Print(n), U16_MAX).Some? <==> n < 65536
    ensures Parse(Print(n), U64_MAX).Some? <==> n < 0x1_0000_0000_0000_0000
  {
    ParsePrint(n, U8_MAX);
    ParsePrint(n, U16_MAX);
    ParsePrint(n, U64_MAX);
  }

  function Pow10(n: nat): nat {
    if n == 0 then 1 else 10 * Pow10(n - 1)
  }

  /** `k` digits stay below ten to the `k`, after every prefix of them too. */
  lemma {:induction false} ValueBound(s: string)
    requires AllDigits(s)
    ensures Value(s) < Pow10(|s|)
    ensures forall k :: 0 <= k <= |s| ==> Value(s[..k]) <= Value(s)
  {
    if s != [] {
      var init := s[..|s| - 1];
      ValueBound(init);
      forall k | 0 <= k <= |s|
        ensures Value(s[..k]) <= Value(s)
      {
        if k < |s| {
          assert s[..k] == init[..k];
        } else {
          assert s[..k] == s;
        }
      }
    }
  }
}
