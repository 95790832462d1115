/** The JavaScript number operations `makeUserId` uses on integer values:
    `x >>> 0` (ToUint32) and `n.toString(36)`. */
module JsNumber {

  /** 2^32. */
  const TWO_32: int := 0x1_0000_0000

  /** `x >>> 0` for an integer-valued number: ToUint32, reduction modulo 2^32
      into [0, 2^32). Dafny's `%` never returns a negative remainder. */
  function ToUint32(x: int): (r: nat)
    ensures r < TWO_32
    ensures 0 <= x < TWO_32 ==> r == x
  {
    x % TWO_32
  }

  predicate IsDigit36(c: char) {
    ('0' <= c <= '9') || ('a' <= c <= 'z')
  }

  /** The digit `toString(36)` writes for `d`: `0`-`9`, then `a`-`z`. */
  function Digit36(d: nat): (c: char)
    requires d < 36
    ensures IsDigit36(c)
  {
    if d < 10 then ('0' as int + d) as char else ('a' as int + d - 10) as char
  }

  /** The value of one base-36 digit. */
  function DigitValue36(c: char): (d: nat)
    requires IsDigit36(c)
    ensures d < 36
  {
    if '0' <= c <= '9' then c as int - '0' as int else c as int - 'a' as int + 10
  }

  /** `n.toString(36)`: the shortest base-36 numeral of `n`. */
  function ToBase36(n: nat): (s: string)
    ensures |s| >= 1
    ensures forall i | 0 <= i < |s| :: IsDigit36(s[i])
    ensures n > 0 ==> s[0] != '0'
  {
    if n < 36 then [Digit36(n)] else ToBase36(n / 36) + [Digit36(n % 36)]
  }

  /** Reads a base-36 numeral. */
  function FromBase36(s: string): nat
    requires forall i | 0 <= i < |s| :: IsDigit36(s[i])
  {
    if s == [] then 0 else FromBase36(s[..|s| - 1]) * 36 + DigitValue36(s[|s| - 1])
  }

  lemma DigitRoundTrip(d: nat)
    requires d < 36
    ensures DigitValue36(Digit36(d)) == d
  {
  }

  /** Reading back what `toString(36)` wrote gives the number again, so
      different hashes give different suffixes. */
  lemma {:induction false} Base36RoundTrip(n: nat)
    ensures FromBase36(ToBase36(n)) == n
  {
    var s := ToBase36(n);
    if n < 36 {
      DigitRoundTrip(n);
      assert s[..0] == [];
    } else {
      Base36RoundTrip(n / 36);
      DigitRoundTrip(n % 36);
      assert s[..|s| - 1] == ToBase36(n / 36);
    }
  }
}
