/** Unsigned numbers as bytes, least significant byte first. */
module Numbers {
  import opened Bits

  function ByteOf(n: nat): u8
    requires n < 256
  {
    n as u8
  }

  function Digit(b: u8): nat { b as nat }

  lemma DigitBack(n: nat)
    requires n < 256
    ensures Digit(ByteOf(n)) == n
  {
    ByteBack(n);
  }

  /** A number in `k` bytes, least significant byte first. */
  function NumberBytes(n: nat, k: nat): (s: seq<u8>)
    ensures |s| == k
  {
    if k == 0 then [] else [ByteOf(n % 256)] + NumberBytes(n / 256, k - 1)
  }

  function Number(s: seq<u8>): nat {
    if s == [] then 0 else Digit(s[0]) + 256 * Number(s[1..])
  }

  function Limit(k: nat): nat { if k == 0 then 1 else 256 * Limit(k - 1) }

  lemma {:induction false} NumberBack(n: nat, k: nat)
    requires n < Limit(k)
    ensures Number(NumberBytes(n, k)) == n
    decreases k
  {
    hide Digit, ByteOf;
    if k > 0 {
      DigitBack(n % 256);
      NumberBack(n / 256, k - 1);
      assert NumberBytes(n, k)[1..] == NumberBytes(n / 256, k - 1);
    }
  }
}
