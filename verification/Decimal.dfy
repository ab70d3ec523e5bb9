/**
 Decimal numerals as the program prints and reads them: `Render` is the text of
 an unsigned integer, `ParseU16` is Rust's `str::parse::<u16>`.
 */
module Decimal {
  import opened Outcomes

  /** The values of a `u16`. */
  type Port = n: nat | n < 0x1_0000

  predicate IsDigit(c: char) {
    '0' <= c <= '9'
  }

  predicate AllDigits(s: string) {
    forall i | 0 <= i < |s| :: IsDigit(s[i])
  }

  function DigitValue(c: char): nat
    requires IsDigit(c)
  {
    c as int - '0' as int
  }

  function Value(s: string): nat
    requires AllDigits(s)
  {
    if s == "" then 0
    else 10 * Value(s[..|s| - 1]) + DigitValue(s[|s| - 1])
  }

  function DigitChar(d: nat): (c: char)
    requires d < 10
    ensures IsDigit(c) && DigitValue(c) == d
  {
    ('0' as int + d) as char
  }

  /** The shortest decimal text of `n`. */
  function Render(n: nat): string {
    if n < 10 then [DigitChar(n)] else Render(n / 10) + [DigitChar(n % 10)]
  }

  /** Reading a rendered number gives the number back. */
  lemma {:induction false} RenderRoundTrip(n: nat)
    ensures Render(n) != "" && AllDigits(Render(n)) && Value(Render(n)) == n
  {
    if n >= 10 {
      RenderRoundTrip(n / 10);
      var s := Render(n);
      assert s[..|s| - 1] == Render(n / 10);
    }
  }

  /** A numeral of more digits than its value needs. */
  predicate SuperfluousZero(s: string) {
    |s| > 1 && s[0] == '0'
  }

  lemma {:induction false} ValueMonotone(s: string)
    requires s != "" && AllDigits(s)
    ensures s[0] != '0' ==> Value(s) > 0
    ensures |s| > 1 && s[0] != '0' ==> Value(s) >= 10
  {
    if |s| > 1 {
      ValueMonotone(s[..|s| - 1]);
    }
  }

  /** Among the numerals of a number the rendered one is the one without a superfluous zero. */
  lemma {:induction false} RenderIsShortest(s: string)
    requires s != "" && AllDigits(s)
    ensures s == Render(Value(s)) <==> !SuperfluousZero(s)
  {
    var n := |s| - 1;
    assert s == s[..n] + [s[n]];
    DigitOfValue(s[n]);
    if n > 0 {
      RenderIsShortest(s[..n]);
      ValueMonotone(s[..n]);
      assert SuperfluousZero(s) ==> s[..n][0] == '0';
      if !SuperfluousZero(s) {
        assert s[..n][0] != '0';
        assert Value(s) / 10 == Value(s[..n]) && Value(s) % 10 == DigitValue(s[n]);
      } else {
        RenderedHasNoZero(Value(s));
      }
    }
  }

  lemma DigitOfValue(c: char)
    requires IsDigit(c)
    ensures DigitChar(DigitValue(c)) == c
  {
  }

  lemma {:induction false} RenderedHasNoZero(n: nat)
    ensures !SuperfluousZero(Render(n)) && Render(n) != ""
    ensures n > 0 ==> Render(n)[0] != '0'
  {
    if n >= 10 {
      RenderedHasNoZero(n / 10);
    }
  }

  /**
   Rust's `parse::<u16>`: one leading '+' is allowed, leading zeros are allowed,
   the empty text, a lone '+', any other character and values above 65535 are errors.
   */
  function ParseU16(s: string): Option<Port> {
    var digits := if s != "" && s[0] == '+' then s[1..] else s;
    if digits == "" || !AllDigits(digits) || Value(digits) >= 0x1_0000
    then None
    else Some(Value(digits))
  }

  lemma ParseRenderedU16(p: Port)
    ensures ParseU16(Render(p)) == Some(p)
  {
    RenderRoundTrip(p);
    assert IsDigit(Render(p)[0]);
  }
}
