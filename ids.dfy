/** Identifier generation. The stores draw a fresh identifier from a counter
    in place of `uuidv4()`: the identifier is a prefix followed by the counter
    in decimal. Distinct counter values give distinct identifiers, which is
    what makes the counter a source of fresh ids. */
module Ids {

  function DigitChar(d: nat): (c: char)
    requires d < 10
    ensures '0' <= c <= '9' && (c as int) - ('0' as int) == d
  {
    ['0', '1', '2', '3', '4', '5', '6', '7', '8', '9'][d]
  }

  /** The decimal representation of `n`, most significant digit first. */
  function Decimal(n: nat): (s: string)
    ensures |s| >= 1
    ensures forall i :: 0 <= i < |s| ==> '0' <= s[i] <= '9'
  {
    if n < 10 then [DigitChar(n)] else Decimal(n / 10) + [DigitChar(n % 10)]
  }

  /** Reads a string of decimal digits back as a number. */
  function ParseDecimal(s: string): nat
    requires forall i :: 0 <= i < |s| ==> '0' <= s[i] <= '9'
  {
    if s == [] then 0
    else ParseDecimal(s[..|s| - 1]) * 10 + ((s[|s| - 1] as int) - ('0' as int))
  }

  lemma {:induction false} ParseDecimalOfDecimal(n: nat)
    ensures ParseDecimal(Decimal(n)) == n
  {
    if n >= 10 {
      var s := Decimal(n);
      assert s[..|s| - 1] == Decimal(n / 10);
      ParseDecimalOfDecimal(n / 10);
    }
  }

  /** The identifier issued for counter value `n`. */
  function IdOf(prefix: string, n: nat): string {
    prefix + Decimal(n)
  }

  /** Different counter values never give the same identifier. */
  lemma IdOfInjective(prefix: string, m: nat, n: nat)
    ensures IdOf(prefix, m) == IdOf(prefix, n) ==> m == n
  {
    if IdOf(prefix, m) == IdOf(prefix, n) {
      assert Decimal(m) == IdOf(prefix, m)[|prefix|..];
      assert Decimal(n) == IdOf(prefix, n)[|prefix|..];
      ParseDecimalOfDecimal(m);
      ParseDecimalOfDecimal(n);
    }
  }
}
