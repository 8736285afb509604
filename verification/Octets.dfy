/** Numbers as bytes, most significant first: in addresses and in the sizes of frames. */
module Octets {

  type Octet = b: int | 0 <= b < 256

  type Bytes = seq<Octet>

  function BigEndian(bytes: Bytes): (v: nat)
    decreases |bytes|
  {
    if bytes == [] then 0 else BigEndian(bytes[..|bytes| - 1]) * 256 + bytes[|bytes| - 1]
  }

  /** The last `k` digits of a number in base 256. */
  function Digits(n: nat, k: nat): (b: Bytes)
    ensures |b| == k
  {
    if k == 0 then [] else Digits(n / 256, k - 1) + [n % 256]
  }

  /** How many numbers `k` bytes can hold. */
  function Range(k: nat): nat {
    if k == 0 then 1 else 256 * Range(k - 1)
  }

  lemma {:induction false} DigitsRoundTrip(n: nat, k: nat)
    requires n < Range(k)
    ensures BigEndian(Digits(n, k)) == n
  {
    if k > 0 {
      DigitsRoundTrip(n / 256, k - 1);
      assert Digits(n, k)[..k - 1] == Digits(n / 256, k - 1);
    }
  }

  lemma {:induction false} BigEndianUnique(b: Bytes)
    ensures BigEndian(b) < Range(|b|) && Digits(BigEndian(b), |b|) == b
    decreases |b|
  {
    if b != [] {
      var n := |b| - 1;
      BigEndianUnique(b[..n]);
      assert BigEndian(b) / 256 == BigEndian(b[..n]) && BigEndian(b) % 256 == b[n];
      assert b == b[..n] + [b[n]];
    }
  }

  lemma {:induction false} BigEndianAppend(high: Bytes, low: Bytes)
    ensures BigEndian(high + low) == BigEndian(high) * Range(|low|) + BigEndian(low)
    decreases |low|
  {
    if low == [] {
      assert high + low == high;
    } else {
      var n := |low| - 1;
      BigEndianAppend(high, low[..n]);
      assert (high + low)[..|high| + n] == high + low[..n];
      assert BigEndian(high) * (256 * Range(n)) == 256 * (BigEndian(high) * Range(n));
    }
  }

  /** As many bytes of all ones. */
  function Ones(k: nat): (b: Bytes)
    ensures |b| == k
  {
    if k == 0 then [] else Ones(k - 1) + [255]
  }

  lemma {:induction false} OnesValue(k: nat)
    ensures BigEndian(Ones(k)) == Range(k) - 1
  {
    if k > 0 {
      OnesValue(k - 1);
      assert Ones(k)[..k - 1] == Ones(k - 1);
    }
  }

  lemma EightBytes()
    ensures Range(8) == 0x1_0000_0000_0000_0000
  {
    FourBytes();
    assert Range(5) == 0x100_0000_0000 && Range(6) == 0x1_0000_0000_0000 && Range(7) == 0x100_0000_0000_0000;
  }

  lemma FourBytes()
    ensures Range(4) == 0x1_0000_0000
  {
    assert Range(1) == 256 && Range(2) == 0x1_0000 && Range(3) == 0x100_0000;
  }
}
