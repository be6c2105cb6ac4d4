/** MongoDB ObjectIds: 12-byte values whose `toString()` is 24 lower-case
    hexadecimal digits. The author guard compares ids through that string form,
    so the string form must determine the id. */
module ObjectIds {

  /** Hexadecimal digits in an ObjectId's string form (12 bytes). */
  const Width: nat := 24

  function Pow16(w: nat): (p: nat)
    ensures p > 0
  {
    if w == 0 then 1 else 16 * Pow16(w - 1)
  }

  /** An ObjectId is a 96-bit value. */
  type ObjectId = n: nat | n < Pow16(Width)

  predicate IsHexDigit(c: char) {
    '0' <= c <= '9' || 'a' <= c <= 'f'
  }

  function Digit(d: nat): (c: char)
    requires d < 16
    ensures IsHexDigit(c)
  {
    if d < 10 then ('0' as int + d) as char else ('a' as int + d - 10) as char
  }

  function DigitValue(c: char): (d: nat)
    requires IsHexDigit(c)
    ensures d < 16 && Digit(d) == c
  {
    if c <= '9' then c as int - '0' as int else c as int - 'a' as int + 10
  }

  /** The `w` low hexadecimal digits of `n`, most significant first. */
  function Hex(n: nat, w: nat): (s: string)
    requires n < Pow16(w)
    ensures |s| == w
    ensures forall i | 0 <= i < |s| :: IsHexDigit(s[i])
  {
    if w == 0 then "" else Hex(n / 16, w - 1) + [Digit(n % 16)]
  }

  /** The number a string of hexadecimal digits denotes. */
  function HexValue(s: string): (n: nat)
    requires forall i | 0 <= i < |s| :: IsHexDigit(s[i])
    ensures n < Pow16(|s|)
  {
    if s == [] then 0 else 16 * HexValue(s[..|s| - 1]) + DigitValue(s[|s| - 1])
  }

  /** `ObjectId.prototype.toString()`. */
  function ToString(id: ObjectId): (s: string)
    ensures |s| == Width
  {
    Hex(id, Width)
  }

  /** Reading the digits back gives the number that was written. */
  lemma {:induction false} HexRoundTrip(n: nat, w: nat)
    requires n < Pow16(w)
    ensures HexValue(Hex(n, w)) == n
  {
    if w > 0 {
      var s := Hex(n, w);
      assert s[..|s| - 1] == Hex(n / 16, w - 1);
      HexRoundTrip(n / 16, w - 1);
    }
  }

  /** Two ids have the same string form exactly when they are the same id. */
  lemma ToStringInjective(a: ObjectId, b: ObjectId)
    ensures ToString(a) == ToString(b) <==> a == b
  {
    HexRoundTrip(a, Width);
    HexRoundTrip(b, Width);
  }
}
