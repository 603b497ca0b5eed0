/** PKCS#7 padding (backend/symetric/unsafe_crypto_enabled.go; section 6.3 of RFC 5652). */
module Padding {
  import opened Wrappers
  import opened BigEndian
  import opened Division

  function Repeat(b: Byte, n: nat): seq<Byte> { seq(n, _ => b) }

  /** `pkcs7Pad` */
  function Pad(p: seq<Byte>, size: nat): seq<Byte>
    requires 0 < size < 256
  {
    var padding := size - |p| % size;
    p + Repeat(padding, padding)
  }

  /** `pkcs7Unpad` */
  function Unpad(s: seq<Byte>, size: nat): Option<seq<Byte>>
    requires 0 < size < 256
  {
    if |s| == 0 || |s| % size != 0 then None
    else
      MultipleAtLeast(|s|, size);
      var padding := s[|s| - 1];
      if padding == 0 || padding > size || s[|s| - padding..] != Repeat(padding, padding) then None
      else Some(s[..|s| - padding])
  }

  /** The plaintext, then between one and a whole block of bytes that each say how many they are, up to a
      multiple of the block size. */
  lemma PadShape(p: seq<Byte>, size: nat)
    requires 0 < size < 256
    ensures var s := Pad(p, size);
      && |p| < |s| <= |p| + size && |s| % size == 0
      && s[..|p|] == p && forall i | |p| <= i < |s| :: s[i] == |s| - |p|
  {
    DistanceToMultiple(|p|, size - |p| % size, size);
    assert Pad(p, size)[..|p|] == p;
  }

  lemma PadUnpads(p: seq<Byte>, size: nat)
    requires 0 < size < 256
    ensures Unpad(Pad(p, size), size) == Some(p)
  {
    var s, padding := Pad(p, size), size - |p| % size;
    DistanceToMultiple(|p|, padding, size);
    assert s[|s| - padding..] == Repeat(padding, padding);
    assert s[..|s| - padding] == p;
  }

  lemma UnpaddedWasPadded(s: seq<Byte>, size: nat)
    requires 0 < size < 256 && Unpad(s, size).Some?
    ensures s == Pad(Unpad(s, size).value, size)
  {
    MultipleAtLeast(|s|, size);
    var padding := s[|s| - 1];
    DistanceToMultiple(|s| - padding, padding, size);
    assert s == s[..|s| - padding] + s[|s| - padding..];
  }

  /** The padding is fully checked: unpadding gives `p` exactly on the padding of `p`. So padding is
      injective, and nothing else unpads. */
  lemma UnpadExactly(s: seq<Byte>, p: seq<Byte>, size: nat)
    requires 0 < size < 256
    ensures Unpad(s, size) == Some(p) <==> s == Pad(p, size)
  {
    hide Pad, Unpad;
    PadUnpads(p, size);
    if Unpad(s, size) == Some(p) { UnpaddedWasPadded(s, size); }
  }

  lemma PaddedIsWhole(p: seq<Byte>, size: nat)
    requires 0 < size < 256
    ensures Whole(|Pad(p, size)|, size) && |Pad(p, size)| >= size && |Pad(p, size)| % size == 0
  {
    DistanceToMultiple(|p|, size - |p| % size, size);
    WholeMeansNoRemainder(|Pad(p, size)|, size);
    MultipleAtLeast(|Pad(p, size)|, size);
  }
}
