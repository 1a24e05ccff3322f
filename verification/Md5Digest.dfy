/** MD5 as a function of the whole message (RFC 1321, sections 3.1 to 3.5), and the abstract value of a
    digest computation in progress. */
module Md5Digest {
  import opened Bytes
  import opened Md5Compress

  const BLOCK := 64

  // ---------- Folding the compression over a message ----------

  /** The state after the first `n` blocks of `m`. */
  function AbsorbBlocks(s: State, m: seq<byte>, n: nat): State
    requires BLOCK * n <= |m|
  {
    if n == 0 then s else Compress(AbsorbBlocks(s, m, n - 1), m[BLOCK * (n - 1)..BLOCK * n])
  }

  /** The state after every complete block of `m`. */
  function Absorb(s: State, m: seq<byte>): State {
    AbsorbBlocks(s, m, |m| / BLOCK)
  }

  /** The bytes of `m` after its last complete block. */
  function Tail(m: seq<byte>): (t: seq<byte>)
    ensures |t| == |m| % BLOCK
  {
    m[|m| - |m| % BLOCK..]
  }

  lemma {:induction false} AbsorbIgnoresRest(s: State, m: seq<byte>, rest: seq<byte>, n: nat)
    requires BLOCK * n <= |m|
    ensures AbsorbBlocks(s, m + rest, n) == AbsorbBlocks(s, m, n)
  {
    hide Compress;
    if n > 0 {
      AbsorbIgnoresRest(s, m, rest, n - 1);
      assert (m + rest)[BLOCK * (n - 1)..BLOCK * n] == m[BLOCK * (n - 1)..BLOCK * n];
    }
  }

  lemma {:induction false} AbsorbInTwoGoes(s: State, m: seq<byte>, q: nat, j: nat)
    requires BLOCK * (q + j) <= |m|
    ensures AbsorbBlocks(s, m, q + j) == AbsorbBlocks(AbsorbBlocks(s, m, q), m[BLOCK * q..], j)
  {
    hide Compress;
    if j > 0 {
      AbsorbInTwoGoes(s, m, q, j - 1);
      assert m[BLOCK * q..][BLOCK * (j - 1)..BLOCK * j] == m[BLOCK * (q + j - 1)..BLOCK * (q + j)];
    }
  }

  /** Complete blocks can be absorbed separately: what is left over takes part in the next fold. */
  lemma AbsorbInParts(s: State, m: seq<byte>, n: seq<byte>)
    ensures Absorb(Absorb(s, m), Tail(m) + n) == Absorb(s, m + n)
    ensures Tail(Tail(m) + n) == Tail(m + n)
  {
    hide AbsorbBlocks;
    var q := |m| / BLOCK;
    var rest := Tail(m) + n;
    var j := |rest| / BLOCK;
    assert |m + n| == BLOCK * q + |rest|;
    DivModUnique(q + j, BLOCK, |rest| % BLOCK);
    AbsorbIgnoresRest(s, m, n, q);
    AbsorbInTwoGoes(s, m + n, q, j);
    assert (m + n)[BLOCK * q..] == rest;
  }

  // ---------- Padding (sections 3.1 and 3.2) ----------

  const TWO64 := 0x1_0000_0000_0000_0000

  function Zeros(n: nat): (z: seq<byte>)
    ensures |z| == n && forall i :: 0 <= i < n ==> z[i] == 0
  {
    seq(n, _ => 0)
  }

  /** The fewest zero bytes that leave room for exactly the length in the last block. */
  function ZeroCount(n: nat): (k: nat)
    ensures k < BLOCK && (n + 1 + k) % BLOCK == 56
  {
    (55 - n) % BLOCK
  }

  function EncodeLong(n: nat): (bytes: seq<byte>)
    requires n < TWO64
    ensures |bytes| == 8
  {
    EncodeWord(n % TWO32) + EncodeWord(n / TWO32)
  }

  function DecodeLong(bytes: seq<byte>): (n: nat)
    requires |bytes| == 8
  {
    DecodeWord(bytes[..4]) as int + TWO32 * DecodeWord(bytes[4..]) as int
  }

  lemma DecodeLongUndoesEncode(n: nat)
    requires n < TWO64
    ensures DecodeLong(EncodeLong(n)) == n
  {
    DecodeUndoesEncode(n % TWO32);
    DecodeUndoesEncode(n / TWO32);
  }

  function Padding(n: nat): seq<byte> {
    [0x80] + Zeros(ZeroCount(n))
  }

  function Pad(m: seq<byte>): seq<byte> {
    m + Padding(|m|) + EncodeLong(8 * |m| % TWO64)
  }

  function EncodeState(s: State): (bytes: seq<byte>)
    ensures |bytes| == 16
  {
    EncodeWord(s.a) + EncodeWord(s.b) + EncodeWord(s.c) + EncodeWord(s.d)
  }

  /** The digest has the four words in order, least significant byte first. */
  lemma StateByteByByte(s: State)
    ensures var e := EncodeState(s);
            && s.a == e[0] as int + 0x100 * e[1] as int + 0x1_0000 * e[2] as int + 0x100_0000 * e[3] as int
            && s.b == e[4] as int + 0x100 * e[5] as int + 0x1_0000 * e[6] as int + 0x100_0000 * e[7] as int
            && s.c == e[8] as int + 0x100 * e[9] as int + 0x1_0000 * e[10] as int + 0x100_0000 * e[11] as int
            && s.d == e[12] as int + 0x100 * e[13] as int + 0x1_0000 * e[14] as int + 0x100_0000 * e[15] as int
  {
    hide EncodeWord;
    LeastSignificantFirst(s.a);
    LeastSignificantFirst(s.b);
    LeastSignificantFirst(s.c);
    LeastSignificantFirst(s.d);
  }

  /** The initial state of section 3.3, whose bytes are given there from the least significant one. */
  lemma InitialBytes()
    ensures EncodeState(INIT) == [0x01, 0x23, 0x45, 0x67, 0x89, 0xab, 0xcd, 0xef,
                                  0xfe, 0xdc, 0xba, 0x98, 0x76, 0x54, 0x32, 0x10]
  {
  }

  /** The digest of a message, in one shot. */
  function Digest(m: seq<byte>): (bytes: seq<byte>)
    ensures |bytes| == 16
  {
    EncodeState(Absorb(INIT, Pad(m)))
  }

  /** The length of a message from its padded form alone: the stored bit count fixes it modulo 64, and the
      padding is 9 to 72 bytes long. */
  function PaddedLength(p: seq<byte>): int
    requires |p| >= 8
  {
    var least := |p| - 72;
    least + (DecodeLong(p[|p| - 8..]) / 8 - least) % BLOCK
  }

  lemma PadLength(m: seq<byte>)
    ensures |Pad(m)| % BLOCK == 0 && |m| + 9 <= |Pad(m)| <= |m| + 72
  {
    var a := |m| + 1 + ZeroCount(|m|);
    assert |Pad(m)| == a + 8 == (a / BLOCK + 1) * BLOCK;
    hide Pad, ZeroCount;
    DivModUnique(a / BLOCK + 1, BLOCK, 0);
  }

  lemma EncodeLongBytes(n: nat)
    requires n < TWO64
    ensures var e := EncodeLong(n);
            n == e[0] as int + 0x100 * e[1] as int + 0x1_0000 * e[2] as int + 0x100_0000 * e[3] as int
                 + 0x1_0000_0000 * e[4] as int + 0x100_0000_0000 * e[5] as int
                 + 0x1_0000_0000_0000 * e[6] as int + 0x100_0000_0000_0000 * e[7] as int
  {
    hide EncodeWord;
    LeastSignificantFirst(n % TWO32);
    LeastSignificantFirst(n / TWO32);
  }

  /** The padded message byte by byte: the message, a byte 0x80, zeros, and the number of bits of the message
      modulo 2^64, least significant byte first. */
  lemma PadByteByByte(m: seq<byte>)
    ensures |m| + 9 <= |Pad(m)| <= |m| + 72 && |Pad(m)| % 64 == 0
    ensures Pad(m)[..|m|] == m && Pad(m)[|m|] == 0x80
    ensures forall i :: |m| < i < |Pad(m)| - 8 ==> Pad(m)[i] == 0
    ensures var e := Pad(m)[|Pad(m)| - 8..];
            var n := 8 * |m| % 0x1_0000_0000_0000_0000;
            n == e[0] as int + 0x100 * e[1] as int + 0x1_0000 * e[2] as int + 0x100_0000 * e[3] as int
                 + 0x1_0000_0000 * e[4] as int + 0x100_0000_0000 * e[5] as int
                 + 0x1_0000_0000_0000 * e[6] as int + 0x100_0000_0000_0000 * e[7] as int
  {
    PadLength(m);
    EncodeLongBytes(8 * |m| % TWO64);
    hide EncodeLong, ZeroCount;
    assert Pad(m)[|Pad(m)| - 8..] == EncodeLong(8 * |m| % TWO64);
  }

  lemma BitCountFixesLength(n: nat)
    ensures (8 * n % TWO64 / 8 - n) % BLOCK == 0
  {
    var q := 8 * n / TWO64;
    var e := 0x2000_0000_0000_0000;
    assert 8 * n % TWO64 == 8 * (n - q * e);
    var c := 8 * n % TWO64 / 8 - n;
    assert c == 64 * (-q * 0x80_0000_0000_0000);
    DivModUnique(-q * 0x80_0000_0000_0000, 64, 0);
  }

  lemma ResidueInWindow(n: int, least: int, c: int)
    requires least <= n < least + BLOCK && (c - n) % BLOCK == 0
    ensures least + (c - least) % BLOCK == n
  {
    var k := (c - n) / BLOCK;
    assert c - least == BLOCK * k + (n - least);
  }

  /** Every message, of any length, is recovered from its padded form. */
  lemma PadIsReversible(m: seq<byte>)
    ensures |Pad(m)| >= 8
    ensures 0 <= PaddedLength(Pad(m)) <= |Pad(m)| && Pad(m)[..PaddedLength(Pad(m))] == m
  {
    var p := Pad(m);
    PadLength(m);
    assert p[|p| - 8..] == EncodeLong(8 * |m| % TWO64);
    DecodeLongUndoesEncode(8 * |m| % TWO64);
    BitCountFixesLength(|m|);
    ResidueInWindow(|m|, |p| - 72, 8 * |m| % TWO64 / 8);
  }

  /** Distinct messages have distinct padded forms. */
  lemma PadIsInjective(m: seq<byte>, n: seq<byte>)
    requires Pad(m) == Pad(n)
    ensures m == n
  {
    hide Pad, PaddedLength;
    PadIsReversible(m);
    PadIsReversible(n);
  }

  // ---------- A computation in progress ----------

  /** The words `state`, the bytes buffered so far, and the bit count that the two words of `count` hold. */
  datatype Context = Context(state: State, pending: seq<byte>, bits: nat)

  const FRESH := Context(INIT, [], 0)

  ghost predicate Represents(c: Context, m: seq<byte>) {
    c == Context(Absorb(INIT, m), Tail(m), 8 * |m| % TWO64)
  }

  function Updated(c: Context, input: seq<byte>): Context {
    Context(Absorb(c.state, c.pending + input), Tail(c.pending + input), (c.bits + 8 * |input|) % TWO64)
  }

  /** What finalize feeds through update, and the digest it then reads off the state. */
  function Finished(c: Context): (bytes: seq<byte>)
    requires c.bits < TWO64
    ensures |bytes| == 16
  {
    EncodeState(Updated(Updated(c, Padding(|c.pending|)), EncodeLong(c.bits)).state)
  }

  lemma SumOfResidues(a: nat, b: nat)
    ensures (8 * a % TWO64 + 8 * b) % TWO64 == 8 * (a + b) % TWO64
  {
    var q := 8 * a / TWO64;
    var r := (8 * a % TWO64 + 8 * b) % TWO64;
    var q2 := (8 * a % TWO64 + 8 * b) / TWO64;
    assert 8 * (a + b) == (q + q2) * TWO64 + r;
    DivModUnique(q + q2, TWO64, r);
  }

  /** One update continues the message, wherever it is split. */
  lemma UpdateExtendsMessage(c: Context, m: seq<byte>, input: seq<byte>)
    requires Represents(c, m)
    ensures Represents(Updated(c, input), m + input)
  {
    hide Absorb, Tail;
    AbsorbInParts(INIT, m, input);
    SumOfResidues(|m|, |input|);
  }

  lemma ZeroCountOfTail(m: seq<byte>)
    ensures ZeroCount(|Tail(m)|) == ZeroCount(|m|)
  {
    var q := |m| / BLOCK;
    assert 55 - |m| == BLOCK * -q + (55 - |m| % BLOCK);
  }

  /** Finishing a computation yields the digest of the message it represents. */
  lemma FinishedIsDigest(c: Context, m: seq<byte>)
    requires Represents(c, m)
    ensures Finished(c) == Digest(m)
  {
    ZeroCountOfTail(m);
    UpdateExtendsMessage(c, m, Padding(|m|));
    var c1 := Updated(c, Padding(|m|));
    UpdateExtendsMessage(c1, m + Padding(|m|), EncodeLong(c.bits));
  }
}
