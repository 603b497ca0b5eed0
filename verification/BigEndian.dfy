/** Big-endian integers: Go's `big.Int.Bytes`, `SetBytes` and `FillBytes`. */
module BigEndian {

  type Byte = x: int | 0 <= x < 256

  /** `SetBytes` */
  function Value(b: seq<Byte>): nat {
    if b == [] then 0 else 256 * Value(b[..|b| - 1]) + b[|b| - 1]
  }

  /** `Bytes`: no leading zero byte, and nothing at all for zero. */
  function Bytes(v: nat): seq<Byte> {
    if v == 0 then [] else Bytes(v / 256) + [v % 256]
  }

  function Power256(n: nat): nat {
    if n == 0 then 1 else 256 * Power256(n - 1)
  }

  /** `FillBytes`: exactly `size` bytes, with leading zeros. */
  function Fixed(v: nat, size: nat): seq<Byte> {
    if size == 0 then [] else Fixed(v / 256, size - 1) + [v % 256]
  }

  lemma {:induction false} ValueOfBytes(v: nat)
    ensures Value(Bytes(v)) == v
    ensures v > 0 ==> Bytes(v) != [] && Bytes(v)[0] != 0
  {
    if v > 0 { ValueOfBytes(v / 256); }
  }

  /** The first byte is the most significant one. */
  lemma {:induction false} FirstByteIsHighest(b: seq<Byte>, first: Byte)
    ensures Value([first] + b) == first * Power256(|b|) + Value(b)
  {
    if b == [] {
      assert [first] + b == [first] && [first][..0] == [];
    } else {
      var front := b[..|b| - 1];
      FirstByteIsHighest(front, first);
      assert ([first] + b)[..|b|] == [first] + front;
      assert 256 * (first * Power256(|front|)) == first * Power256(|b|);
    }
  }

  /** Bytes are the minimal ones of the integer they spell exactly when they have no leading zero. */
  lemma {:induction false} BytesOfValue(b: seq<Byte>)
    ensures Bytes(Value(b)) == b <==> b == [] || b[0] != 0
  {
    if b != [] {
      var front, last := b[..|b| - 1], b[|b| - 1];
      BytesOfValue(front);
      assert Value(b) / 256 == Value(front) && Value(b) % 256 == last;
      if front != [] {
        assert front[0] == b[0];
        if b[0] != 0 { assert Bytes(Value(front)) == front; }
      }
      ValueOfBytes(Value(b));
    }
  }

  lemma {:induction false} ValueOfFixed(v: nat, size: nat)
    requires v < Power256(size)
    ensures |Fixed(v, size)| == size && Value(Fixed(v, size)) == v
  {
    if size > 0 { ValueOfFixed(v / 256, size - 1); }
  }

  lemma {:induction false} FixedOfValue(b: seq<Byte>)
    ensures Value(b) < Power256(|b|) && Fixed(Value(b), |b|) == b
  {
    if b != [] {
      var front, last := b[..|b| - 1], b[|b| - 1];
      FixedOfValue(front);
      assert Value(b) / 256 == Value(front) && Value(b) % 256 == last;
    }
  }

  /** `FillBytes` into part of a buffer, from the least significant byte up. */
  method FillInto(buffer: array<Byte>, from: nat, to: nat, v: nat)
    requires from <= to <= buffer.Length && v < Power256(to - from)
    modifies buffer
    ensures buffer[from..to] == Fixed(v, to - from)
    ensures forall i | 0 <= i < buffer.Length && !(from <= i < to) :: buffer[i] == old(buffer[i])
  {
    var rest, i := v, to;
    while i > from
      invariant from <= i <= to
      invariant Fixed(rest, i - from) + buffer[i..to] == Fixed(v, to - from)
      invariant forall j | 0 <= j < buffer.Length && !(i <= j < to) :: buffer[j] == old(buffer[j])
    {
      ghost var tail := buffer[i..to];
      i := i - 1;
      buffer[i] := rest % 256;
      assert buffer[i..to] == [rest % 256] + tail;
      rest := rest / 256;
    }
  }
}
