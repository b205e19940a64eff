/** Little-endian integers inside byte sequences. */
module LittleEndian {
  import opened Base

  function Power256(n: nat): nat {
    if n == 0 then 1 else 256 * Power256(n - 1)
  }

  /** `to_le_bytes` of an `n`-byte integer */
  function Encode(v: nat, n: nat): (b: seq<byte>)
    ensures |b| == n
    decreases n
  {
    if n == 0 then [] else [v % 256] + Encode(v / 256, n - 1)
  }

  /** `from_le_bytes` */
  function Decode(b: seq<byte>): nat {
    if b == [] then 0 else b[0] + 256 * Decode(b[1..])
  }

  lemma {:induction false} DecodeEncode(v: nat, n: nat)
    requires v < Power256(n)
    ensures Decode(Encode(v, n)) == v
    decreases n
  {
    if n > 0 {
      assert v / 256 < Power256(n - 1);
      DecodeEncode(v / 256, n - 1);
      assert Encode(v, n)[1..] == Encode(v / 256, n - 1);
    }
  }

  lemma {:induction false} EncodeDecode(b: seq<byte>)
    ensures Encode(Decode(b), |b|) == b && Decode(b) < Power256(|b|)
  {
    if b != [] {
      EncodeDecode(b[1..]);
      assert Decode(b) % 256 == b[0] && Decode(b) / 256 == Decode(b[1..]);
      assert [b[0]] + b[1..] == b;
    }
  }

  lemma Widths()
    ensures Power256(2) == U16 && Power256(4) == U32 && Power256(8) == U64
  {
    assert Power256(4) == 256 * 256 * Power256(2);
    assert Power256(6) == 256 * 256 * Power256(4);
    assert Power256(8) == 256 * 256 * Power256(6);
  }
}
