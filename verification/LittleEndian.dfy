// Little-endian integers: `to_le_bytes` and `from_le_bytes`.
module LittleEndian {
  import opened Numbers

  function Pow256(width: nat): pos {
    if width == 0 then 1 else 256 * Pow256(width - 1)
  }

  function ToLE(n: nat, width: nat): (bytes: seq<u8>)
    ensures |bytes| == width
  {
    if width == 0 then [] else [n % 256] + ToLE(n / 256, width - 1)
  }

  function FromLE(bytes: seq<u8>): nat {
    if bytes == [] then 0 else bytes[0] + 256 * FromLE(bytes[1..])
  }

  lemma {:induction false} FromLEToLE(n: nat, width: nat)
    requires n < Pow256(width)
    ensures FromLE(ToLE(n, width)) == n
  {
    if width > 0 {
      FromLEToLE(n / 256, width - 1);
    }
  }

  lemma {:induction false} ToLEFromLE(bytes: seq<u8>)
    ensures FromLE(bytes) < Pow256(|bytes|)
    ensures ToLE(FromLE(bytes), |bytes|) == bytes
  {
    if bytes != [] {
      ToLEFromLE(bytes[1..]);
      var high := FromLE(bytes[1..]);
      DivUnique(bytes[0] + 256 * high, 256, high);
    }
  }

  lemma Widths()
    ensures Pow256(2) == U16_MAX + 1 && Pow256(4) == U32_MAX + 1 && Pow256(8) == U64_MAX + 1
  {
    assert Pow256(1) == 256 && Pow256(3) == 0x100_0000;
    assert Pow256(5) == 256 * Pow256(4) && Pow256(6) == 256 * Pow256(5) && Pow256(7) == 256 * Pow256(6);
  }

  // Reads a field of `width` bytes at `offset`, if all of it is there.
  function FieldAt(input: seq<u8>, offset: nat, width: nat): nat
    requires offset + width <= |input|
  {
    FromLE(input[offset..offset + width])
  }

  lemma FieldRoundTrip(before: seq<u8>, n: nat, width: nat, after: seq<u8>)
    requires n < Pow256(width)
    ensures FieldAt(before + ToLE(n, width) + after, |before|, width) == n
  {
    FromLEToLE(n, width);
    assert (before + ToLE(n, width) + after)[|before|..|before| + width] == ToLE(n, width);
  }

  // Byte `i` of a field is its base-256 digit `i`, the least significant first.
  lemma {:induction false} ByteIsDigit(n: nat, width: nat, i: nat)
    requires i < width
    ensures ToLE(n, width)[i] == n / Pow256(i) % 256
  {
    if i == 0 {
      assert n / Pow256(0) == n;
    } else {
      ByteIsDigit(n / 256, width - 1, i - 1);
      DivDiv(n, 256, Pow256(i - 1));
    }
  }
}
