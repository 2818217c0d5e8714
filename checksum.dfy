/**
 * The fingerprint text a `Checksum` entry is compared with: a 32-bit hash
 * rendered as `{:08x}`, exactly eight lower-case hexadecimal digits. The
 * hash itself (xxHash32 over the derived `Hash` of the entity) is supplied
 * by the caller as a function.
 */
module Checksum {

  newtype u32 = x: int | 0 <= x < 0x1_0000_0000

  const HexDigits: string := "0123456789abcdef"

  function Pow16(k: nat): (p: nat)
    ensures p >= 1
  {
    if k == 0 then 1 else 16 * Pow16(k - 1)
  }

  /** The `width` least significant hexadecimal digits of `n`, most significant first. */
  function HexWidth(n: nat, width: nat): (s: string)
    ensures |s| == width
    ensures forall i :: 0 <= i < |s| ==> s[i] in HexDigits
  {
    if width == 0 then "" else HexWidth(n / 16, width - 1) + [HexDigits[n % 16]]
  }

  /** `format!("{:08x}", hash)` for a 32-bit hash. */
  function Fingerprint(h: u32): (s: string)
    ensures |s| == 8
    ensures forall i :: 0 <= i < |s| ==> s[i] in HexDigits
  {
    HexWidth(h as nat, 8)
  }

  function DigitValue(c: char): (d: nat)
    ensures d < 16
    ensures c in HexDigits ==> HexDigits[d] == c
  {
    if c in "0123456789" then c as nat - '0' as nat
    else if c in "abcdef" then c as nat - 'a' as nat + 10
    else 0
  }

  /** The number a string of hexadecimal digits denotes. */
  function HexValue(s: string): (n: nat)
  {
    if s == [] then 0 else 16 * HexValue(s[..|s| - 1]) + DigitValue(s[|s| - 1])
  }

  lemma DigitValueOf(d: nat)
    requires d < 16
    ensures DigitValue(HexDigits[d]) == d
  {
  }

  /** Reading the digits back gives the number, as long as it fits the width. */
  lemma {:induction false} HexRoundTrip(n: nat, width: nat)
    requires n < Pow16(width)
    ensures HexValue(HexWidth(n, width)) == n
  {
    if width > 0 {
      var q, d := n / 16, n % 16;
      assert n == 16 * q + d && d < 16;
      assert q < Pow16(width - 1) by {
        assert Pow16(width) == 16 * Pow16(width - 1);
      }
      var s := HexWidth(n, width);
      assert s == HexWidth(q, width - 1) + [HexDigits[d]];
      assert s[..|s| - 1] == HexWidth(q, width - 1);
      assert s[|s| - 1] == HexDigits[d];
      HexRoundTrip(q, width - 1);
      DigitValueOf(d);
      assert HexValue(s) == 16 * q + d;
    }
  }

  /** Different hashes render to different fingerprints. */
  lemma FingerprintInjective(a: u32, b: u32)
    requires Fingerprint(a) == Fingerprint(b)
    ensures a == b
  {
    assert Pow16(8) == 0x1_0000_0000;
    HexRoundTrip(a as nat, 8);
    HexRoundTrip(b as nat, 8);
  }

  /** Whether a stored checksum no longer matches the entity's current hash. */
  predicate Drifted(hash: u32, stored: string)
  {
    Fingerprint(hash) != stored
  }

  /**
   * A checksum stored as the fingerprint of `k` reports drift exactly when
   * the current hash is not `k`; a stored text that is not eight lower-case
   * hexadecimal digits reports drift whatever the hash.
   */
  lemma DriftDetection(hash: u32, stored: string)
    ensures forall k: u32 :: stored == Fingerprint(k) ==> (Drifted(hash, stored) <==> hash != k)
    ensures (|stored| != 8 || exists i :: 0 <= i < |stored| && stored[i] !in HexDigits) ==> Drifted(hash, stored)
  {
    forall k: u32 | stored == Fingerprint(k) ensures Drifted(hash, stored) <==> hash != k {
      if Fingerprint(hash) == Fingerprint(k) {
        FingerprintInjective(hash, k);
      }
    }
  }
}
