/** Anonymous global speaker labels: "GS" and a number of at least two digits. */
module Labels {

  predicate IsDigit(c: char) { '0' <= c <= '9' }

  predicate AllDigits(s: string) { s != [] && forall i :: 0 <= i < |s| ==> IsDigit(s[i]) }

  function DigitValue(c: char): nat
    requires IsDigit(c)
  {
    (c as int) - ('0' as int)
  }

  function DigitChar(n: nat): char
    requires n < 10
  {
    (n + '0' as int) as char
  }

  function Number(s: string): nat
    requires forall i :: 0 <= i < |s| ==> IsDigit(s[i])
  {
    if s == [] then 0 else 10 * Number(s[..|s| - 1]) + DigitValue(s[|s| - 1])
  }

  function Decimal(n: nat): string {
    if n < 10 then [DigitChar(n)] else Decimal(n / 10) + [DigitChar(n % 10)]
  }

  lemma {:induction false} DecimalRoundTrip(n: nat)
    ensures AllDigits(Decimal(n)) && Number(Decimal(n)) == n
  {
    if n >= 10 {
      DecimalRoundTrip(n / 10);
      assert Decimal(n)[..|Decimal(n)| - 1] == Decimal(n / 10);
    } else {
      assert Decimal(n)[..0] == [];
    }
  }

  function Pad(digits: string): string { if |digits| < 2 then "0" + digits else digits }

  function Label(n: nat): string { "GS" + Pad(Decimal(n)) }

  predicate IsLabel(s: string) { |s| > 2 && s[0] == 'G' && s[1] == 'S' && AllDigits(s[2..]) }

  predicate IsLocalSpeaker(s: string) { |s| > 1 && s[0] == 'S' && AllDigits(s[1..]) }

  function LabelNumber(s: string): nat
    requires IsLabel(s)
  {
    Number(s[2..])
  }

  /** Printing a label and reading its number back are inverse, so labels with different
      numbers are different labels. */
  lemma LabelRoundTrip(n: nat)
    ensures IsLabel(Label(n)) && LabelNumber(Label(n)) == n
  {
    DecimalRoundTrip(n);
    assert Label(n)[2..] == Pad(Decimal(n));
    if n < 10 {
      var padded := "0" + Decimal(n);
      assert padded[..1] == "0" && "0"[..0] == [];
      assert Number("0") == 0;
    }
  }
}
