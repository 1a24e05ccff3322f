/** Bytes and little-endian 32-bit words, shared by the digest and by the wire format. */
module Bytes {
  type byte = b: int | 0 <= b < 0x100
  type uint32 = n: int | 0 <= n < 0x1_0000_0000

  const TWO32 := 0x1_0000_0000

  function ByteAt(n: int, unit: int): byte
    requires 0 < unit
  {
    n / unit % 0x100
  }

  function EncodeWord(w: uint32): (bytes: seq<byte>)
    ensures |bytes| == 4
  {
    [ByteAt(w, 1), ByteAt(w, 0x100), ByteAt(w, 0x1_0000), ByteAt(w, 0x100_0000)]
  }

  function DecodeWord(bytes: seq<byte>): uint32
    requires |bytes| == 4
  {
    bytes[0] as int + 0x100 * bytes[1] as int + 0x1_0000 * bytes[2] as int + 0x100_0000 * bytes[3] as int
  }

  lemma DecodeUndoesEncode(w: uint32)
    ensures DecodeWord(EncodeWord(w)) == w
  {
    var n: int := w;
    assert n / 0x1_0000 == n / 0x100 / 0x100;
    assert n / 0x100_0000 == n / 0x100 / 0x100 / 0x100;
  }

  /** The least significant byte comes first. */
  lemma LeastSignificantFirst(w: uint32)
    ensures var e := EncodeWord(w);
            w == e[0] as int + 0x100 * e[1] as int + 0x1_0000 * e[2] as int + 0x100_0000 * e[3] as int
  {
    DecodeUndoesEncode(w);
  }

  lemma EncodeUndoesDecode(bytes: seq<byte>)
    requires |bytes| == 4
    ensures EncodeWord(DecodeWord(bytes)) == bytes
  {
    var w: int := DecodeWord(bytes);
    var b1: int, b2: int, b3: int := bytes[1], bytes[2], bytes[3];
    assert w / 0x100 == b1 + 0x100 * b2 + 0x1_0000 * b3;
    assert w / 0x1_0000 == b2 + 0x100 * b3;
    assert w / 0x100_0000 == b3;
  }

  function Concat(chunks: seq<seq<byte>>): seq<byte> {
    if chunks == [] then [] else Concat(chunks[..|chunks| - 1]) + chunks[|chunks| - 1]
  }
}
