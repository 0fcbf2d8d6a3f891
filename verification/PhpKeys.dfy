/** The keys of a PHP array, and their text. */
module PhpKeys {
  datatype Key = Name(s: string) | Index(i: int)

  function Decimal(n: nat): (s: string)
    ensures |s| > 0 && forall i :: 0 <= i < |s| ==> '0' <= s[i] <= '9'
  {
    if n < 10 then ['0' + n as char] else Decimal(n / 10) + ['0' + (n % 10) as char]
  }

  /** key.to_string() */
  function Text(k: Key): string {
    match k case Name(s) => s case Index(i) => if i < 0 then "-" + Decimal(-i) else Decimal(i)
  }

  /** The number that decimal digits denote, most significant first. */
  function Denoted(s: string): nat
    requires forall i :: 0 <= i < |s| ==> '0' <= s[i] <= '9'
  {
    if |s| == 0 then 0 else 10 * Denoted(s[..|s| - 1]) + (s[|s| - 1] as int - '0' as int)
  }

  /** The digits denote the number, and do not start with a superfluous zero. */
  lemma {:induction false} DecimalDenotes(n: nat)
    ensures Denoted(Decimal(n)) == n
    ensures n > 0 ==> Decimal(n)[0] != '0'
    ensures n < 10 ==> |Decimal(n)| == 1
    decreases n
  {
    if n < 10 {
      assert Decimal(n)[..0] == "";
    } else {
      DecimalDenotes(n / 10);
      assert Decimal(n)[..|Decimal(n)| - 1] == Decimal(n / 10);
    }
  }

  /** Keys are written in full. */
  lemma TextMeans(k: Key)
    ensures k.Name? ==> Text(k) == k.s
    ensures k.Index? && k.i >= 0 ==> Text(k) == Decimal(k.i) && Denoted(Text(k)) == k.i
    ensures k.Index? && k.i < 0 ==>
      |Text(k)| > 1 && Text(k)[0] == '-' && Text(k)[1..] == Decimal(-k.i) && Denoted(Text(k)[1..]) == -k.i
  {
    if k.Index? { DecimalDenotes(if k.i < 0 then -k.i else k.i); }
  }
}
