/** The incremental MD5 class of md5.cpp, with its 64-byte buffer, its bit counter split over two 32-bit words
    and its unrolled compression, proved to compute the one-shot digest of RFC 1321. */
module Md5 {
  import opened Bytes
  import opened Md5Compress
  import opened Md5Digest

  // ---------- decode and encode ----------

  /** decode: every four bytes become one word. */
  method Decode(output: array<uint32>, input: seq<byte>)
    requires |input| % 4 == 0 && output.Length == |input| / 4
    modifies output
    ensures output[..] == WordsOf(input)
  {
    var i, j := 0, 0;
    while j < |input|
      invariant j == 4 * i && 0 <= i <= output.Length
      invariant output[..i] == WordsOf(input)[..i]
    {
      output[i] := DecodeWord(input[j..j + 4]);
      i, j := i + 1, j + 4;
    }
  }

  function BytesOf(ws: seq<uint32>): (bytes: seq<byte>)
    ensures |bytes| == 4 * |ws|
  {
    if ws == [] then [] else BytesOf(ws[..|ws| - 1]) + EncodeWord(ws[|ws| - 1])
  }

  /** encode: every word becomes four bytes. */
  method Encode(output: array<byte>, input: seq<uint32>)
    requires output.Length == 4 * |input|
    modifies output
    ensures output[..] == BytesOf(input)
  {
    var i, j := 0, 0;
    while j < 4 * |input|
      invariant j == 4 * i && 0 <= i <= |input|
      invariant output[..j] == BytesOf(input[..i])
    {
      var bytes := EncodeWord(input[i]);
      output[j] := bytes[0];
      output[j + 1] := bytes[1];
      output[j + 2] := bytes[2];
      output[j + 3] := bytes[3];
      assert input[..i + 1][..i] == input[..i];
      assert output[..j + 4] == output[..j] + bytes;
      i, j := i + 1, j + 4;
    }
    assert input[..i] == input;
  }

  /** memcpy */
  method Copy(target: array<byte>, at: nat, source: seq<byte>)
    requires at + |source| <= target.Length
    modifies target
    ensures target[..at + |source|] == old(target[..at]) + source
  {
    forall k | 0 <= k < |source| {
      target[at + k] := source[k];
    }
  }

  // ---------- The 32-bit loop counter of update ----------

  /** The lengths update can take with `index` bytes in the buffer: its block counter must not wrap. */
  predicate UpdateFits(index: nat, length: nat) {
    && length < TWO32
    && (64 <= index + length ==> if index == 0 then length < TWO32 - 64 else index + length < TWO32)
  }

  /** 2^32 - 65 is the greatest length that fits whatever is in the buffer. */
  lemma UpdateFitsAlways(length: nat)
    ensures length <= TWO32 - 65 <==> forall index :: 0 <= index < 64 ==> UpdateFits(index, length)
  {
    if length > TWO32 - 65 {
      assert !UpdateFits(0, length);
    }
  }

  /** The positions in the input at which the block counter can stand. */
  predicate AtBlock(index: nat, length: nat, i: int) {
    64 - index <= i <= length && (index + i) % 64 == 0
  }

  /** `i + blocksize` stays below 2^32 at every block boundary the loop reaches exactly when UpdateFits holds.
      Otherwise the sum wraps around at one of them, and the loop goes on with a block beyond the input. */
  lemma UpdateFitsExactly(index: nat, length: nat)
    requires index < 64 && length < TWO32
    ensures UpdateFits(index, length) <==>
              (64 <= index + length ==>
                 forall i :: AtBlock(index, length, i) ==> i + 64 < TWO32)
    ensures 64 <= index + length && !UpdateFits(index, length) ==>
              exists i :: AtBlock(index, length, i) && (i + 64) % TWO32 <= length < i + 64
  {
    if 64 <= index + length && !UpdateFits(index, length) {
      var i := TWO32 - (if index == 0 then 64 else index);
      assert AtBlock(index, length, i) && !(i + 64 < TWO32);
      assert (i + 64) % TWO32 == if index == 0 then 0 else 64 - index;
    }
  }

  // ---------- The bit counter ----------

  /** Adding 8 * length to the two counter words with the carry test of update. */
  lemma CounterAddsBits(low: uint32, high: uint32, length: nat, low': uint32, high': uint32)
    requires length < TWO32
    requires var added := 8 * length % TWO32;
             && low' as int == (low as int + added) % TWO32
             && high' as int == ((if low' as int < added then (high as int + 1) % TWO32 else high as int)
                                 + length / 0x2000_0000) % TWO32
    ensures low' as int + TWO32 * high' as int == (low as int + TWO32 * high as int + 8 * length) % TWO64
  {
    var added := 8 * length % TWO32;
    var carry := if low' as int < added then 1 else 0;
    assert 8 * length == added + TWO32 * (length / 0x2000_0000);
    assert low as int + added == low' as int + TWO32 * carry;
    var h := high as int + carry + length / 0x2000_0000;
    ResidueOfSum(high as int + carry, length / 0x2000_0000);
    assert high' as int == h % TWO32;
    JoinWords(low', h);
  }

  lemma ResidueOfSum(a: nat, b: nat)
    ensures (a % TWO32 + b) % TWO32 == (a + b) % TWO32
  {
    var k := a / TWO32;
    var q := (a % TWO32 + b) / TWO32;
    DivModUnique(k + q, TWO32, (a % TWO32 + b) % TWO32);
  }

  lemma JoinWords(low: uint32, h: nat)
    ensures low as int + TWO32 * (h % TWO32) == (low as int + TWO32 * h) % TWO64
  {
    var q := h / TWO32;
    assert low as int + TWO32 * h == q * TWO64 + (low as int + TWO32 * (h % TWO32));
    DivModUnique(q, TWO64, low as int + TWO32 * (h % TWO32));
  }

  /** The buffer index that update derives from the low counter word moves with the message. */
  lemma IndexFollowsBytes(low: uint32, length: nat, low': uint32)
    requires low' as int == (low as int + 8 * length % TWO32) % TWO32
    ensures low' as int / 8 % 64 == (low as int / 8 % 64 + length) % 64
  {
    var added := 8 * length % TWO32;
    var q := 8 * length / TWO32 + (low as int + added) / TWO32;
    var n := low as int / 8 + length;
    assert low' as int == 8 * n + low as int % 8 - q * TWO32;
    assert low' as int / 8 == n - q * (TWO32 / 8);
    var k := low' as int / 8 / 64;
    var a := low as int / 8 / 64;
    var r := low' as int / 8 % 64;
    assert low as int / 8 % 64 + length == (k + q * (TWO32 / 8 / 64) - a) * 64 + r;
    DivModUnique(k + q * (TWO32 / 8 / 64) - a, 64, r);
  }

  // ---------- Folding block by block ----------

  lemma AbsorbOneBlock(s: State, m: seq<byte>, block: seq<byte>)
    requires |m| % 64 == 0 && |block| == 64
    ensures Absorb(s, m + block) == Compress(Absorb(s, m), block)
  {
    hide Compress;
    var n := |m| / 64;
    AbsorbIgnoresRest(s, m, block, n);
    assert |m + block| / 64 == n + 1;
    assert (m + block)[64 * n..64 * (n + 1)] == block;
  }

  /** Less than a block after the last complete one changes nothing. */
  lemma AbsorbRest(s: State, m: seq<byte>, k: nat)
    requires k <= |m| < k + 64 && k % 64 == 0
    ensures Absorb(s, m[..k]) == Absorb(s, m)
  {
    hide Compress;
    AbsorbInParts(s, m[..k], m[k..]);
    assert Tail(m[..k]) + m[k..] == m[k..] && m[..k] + m[k..] == m;
  }

  lemma AbsorbNothing(s: State, m: seq<byte>)
    requires |m| < 64
    ensures Absorb(s, m) == s
  {
  }

  lemma FirstBlock(s: State, pending: seq<byte>, input: seq<byte>)
    requires |pending| < 64 <= |pending| + |input|
    ensures var block := pending + input[..64 - |pending|];
            block == (pending + input)[..64] && Absorb(s, block) == Compress(s, block)
  {
    var block := pending + input[..64 - |pending|];
    AbsorbNothing(s, []);
    AbsorbOneBlock(s, [], block);
    assert [] + block == block;
  }

  lemma RestOfInput(pending: seq<byte>, input: seq<byte>, i: nat)
    requires i <= |input|
    ensures (pending + input)[|pending| + i..] == [] + input[i..]
  {
  }

  lemma TailFrom(m: seq<byte>, k: nat)
    requires k <= |m| < k + 64 && k % 64 == 0
    ensures Tail(m) == m[k..] && |m| % 64 == |m| - k
  {
    DivModUnique(k / 64, 64, |m| - k);
  }

  lemma NoSteps(s: State, x: seq<uint32>)
    requires |x| == 16
    ensures Steps(0, s, x) == s
  {
  }

  lemma CounterBytes(low: uint32, high: uint32)
    ensures BytesOf([low, high]) == EncodeLong(low as int + TWO32 * high as int)
  {
    DivModUnique(high, TWO32, low);
    assert [low, high][..1] == [low] && [low][..0] == [];
    assert BytesOf([low]) == EncodeWord(low);
  }

  lemma StateBytes(s: State)
    ensures BytesOf([s.a, s.b, s.c, s.d]) == EncodeState(s)
  {
    assert [s.a][..0] == [] && [s.a, s.b][..1] == [s.a] && [s.a, s.b, s.c][..2] == [s.a, s.b];
    assert [s.a, s.b, s.c, s.d][..3] == [s.a, s.b, s.c];
    assert BytesOf([s.a]) == EncodeWord(s.a);
    assert BytesOf([s.a, s.b]) == EncodeWord(s.a) + EncodeWord(s.b);
  }

  lemma PaddingOfIndex(index: nat)
    requires index < 64
    ensures PADDING[..if index < 56 then 56 - index else 120 - index] == Padding(index)
  {
  }

  lemma FedInParts(c: Context, a: seq<byte>, b: seq<byte>)
    ensures Updated(Updated(c, a), b).state == Absorb(c.state, c.pending + (a + b))
  {
    hide Absorb, Tail;
    AbsorbInParts(c.state, c.pending + a, b);
    assert c.pending + a + b == c.pending + (a + b);
  }

  // ---------- The class ----------

  const PADDING: seq<byte> := [0x80] + Zeros(63)

  class Hasher {
    var finalized: bool
    const buffer: array<byte>
    var count0: uint32
    var count1: uint32
    var state: State
    const digest: array<byte>

    ghost predicate Valid()
      reads this
    {
      buffer.Length == 64 && digest.Length == 16 && buffer != digest
    }

    function Index(): (i: nat)
      reads this
      ensures i < 64
    {
      count0 as int / 8 % 64
    }

    ghost function View(): (c: Context)
      reads this, buffer
      requires Valid()
      ensures c.bits < TWO64
    {
      Context(state, buffer[..Index()], count0 as int + TWO32 * count1 as int)
    }

    constructor ()
      ensures Valid() && View() == FRESH && !finalized && fresh(buffer) && fresh(digest)
      ensures state == State(0x67452301, 0xefcdab89, 0x98badcfe, 0x10325476)
    {
      buffer := new byte[64];
      digest := new byte[16];
      finalized, count0, count1, state := false, 0, 0, INIT;
    }

    /** transform */
    method Transform(block: seq<byte>)
      requires |block| == 64
      modifies `state
      ensures state == Compress(old(state), block)
    {
      hide Steps;
      var x := new uint32[16];
      Decode(x, block);
      var words := x[..];
      assert Steps(0, state, words) == state by {
        NoSteps(state, words);
      }
      var a, b, c, d := state.a, state.b, state.c, state.d;
      a, b, c, d := Round1(state, words, a, b, c, d);
      a, b, c, d := Round2(state, words, a, b, c, d);
      a, b, c, d := Round3(state, words, a, b, c, d);
      a, b, c, d := Round4(state, words, a, b, c, d);
      state := State(Add(state.a, a), Add(state.b, b), Add(state.c, c), Add(state.d, d));
    }

    /** The counter part of update. */
    method Count(length: nat)
      requires Valid() && length < TWO32
      modifies `count0, `count1
      ensures count0 as int + TWO32 * count1 as int
           == (old(count0) as int + TWO32 * old(count1) as int + 8 * length) % TWO64
      ensures Index() == (old(Index()) + length) % 64
    {
      var added := 8 * length % TWO32;
      ghost var low, high := count0, count1;
      count0 := (count0 as int + added) % TWO32;
      IndexFollowsBytes(low, length, count0);
      if count0 as int < added {
        count1 := (count1 as int + 1) % TWO32;
      }
      count1 := (count1 as int + length / 0x2000_0000) % TWO32;
      CounterAddsBits(low, high, length, count0, count1);
    }

    /** The block loop of update. The sum of `i` and the block size is taken modulo 2^32, as in the program. */
    method TransformBlocks(input: seq<byte>, firstPart: nat, ghost s: State, ghost pending: seq<byte>)
      returns (i: nat)
      requires |pending| < 64 && firstPart == 64 - |pending| <= |input| && UpdateFits(|pending|, |input|)
      requires state == Absorb(s, (pending + input)[..64])
      modifies `state
      ensures firstPart <= i <= |input| < i + 64 && (|pending| + i) % 64 == 0
      ensures state == Absorb(s, pending + input)
    {
      hide Absorb, Compress;
      ghost var all := pending + input;
      ghost var index := |pending|;
      UpdateFitsExactly(index, |input|);
      i := firstPart;
      while (i + 64) % TWO32 <= |input|
        invariant firstPart <= i && AtBlock(index, |input|, i)
        invariant state == Absorb(s, all[..index + i])
        decreases |input| - i
      {
        assert all[..index + (i + 64)] == all[..index + i] + input[i..i + 64];
        AbsorbOneBlock(s, all[..index + i], input[i..i + 64]);
        Transform(input[i..i + 64]);
        i := i + 64;
      }
      AbsorbRest(s, all, index + i);
    }

    /** update */
    method Update(input: seq<byte>)
      requires Valid() && UpdateFits(Index(), |input|)
      modifies this, buffer
      ensures Valid() && finalized == old(finalized)
      ensures View() == Updated(old(View()), input)
    {
      hide Absorb, Compress, Tail;
      var length := |input|;
      var index := Index();
      ghost var s, pending := state, buffer[..index];
      ghost var all := pending + input;
      assert old(View()).pending + input == all;
      Count(length);

      var firstPart := 64 - index;
      var i := 0;
      ghost var k := 0;
      if length >= firstPart {
        Copy(buffer, index, input[..firstPart]);
        FirstBlock(s, pending, input);
        assert buffer[..64] == buffer[..];
        Transform(buffer[..]);
        i := TransformBlocks(input, firstPart, s, pending);
        k, index := index + i, 0;
        RestOfInput(pending, input, i);
      } else {
        AbsorbNothing(s, all);
      }
      TailFrom(all, k);
      Copy(buffer, index, input[i..]);
      assert View().pending == Tail(all) && View().state == Absorb(s, all);
    }

    /** The first half of finalize: the padding, cut to the length the program computes, and the bit count
        as it was before the padding. */
    method FeedPadding() returns (ghost fed: seq<byte>)
      requires Valid()
      modifies this, buffer
      ensures Valid() && finalized == old(finalized)
      ensures EncodeState(state) == Finished(old(View()))
      ensures 9 <= |fed| <= 72 && (old(Index()) + |fed|) % 64 == 0
      ensures fed[0] == 0x80 && forall i :: 1 <= i < |fed| - 8 ==> fed[i] == 0
      ensures var e := fed[|fed| - 8..];
              old(count0) as int + 0x1_0000_0000 * old(count1) as int
              == e[0] as int + 0x100 * e[1] as int + 0x1_0000 * e[2] as int + 0x100_0000 * e[3] as int
                 + 0x1_0000_0000 * e[4] as int + 0x100_0000_0000 * e[5] as int
                 + 0x1_0000_0000_0000 * e[6] as int + 0x100_0000_0000_0000 * e[7] as int
      ensures state == Absorb(old(state), old(buffer[..Index()]) + fed)
    {
      hide Updated, Absorb, Tail, EncodeLong, BytesOf, Padding, EncodeState;
      var bits := new byte[8];
      Encode(bits, [count0, count1]);
      CounterBytes(count0, count1);
      ghost var before := View();
      ghost var long := bits[..];

      var index := Index();
      var padLen := if index < 56 then 56 - index else 120 - index;
      PaddingOfIndex(index);
      Update(PADDING[..padLen]);
      assert bits[..] == long;
      Update(bits[..]);
      fed := PADDING[..padLen] + long;
      FedInParts(before, PADDING[..padLen], long);
      EncodeLongBytes(before.bits);
      assert fed[|fed| - 8..] == long;
    }

    /** finalize */
    method Finalize()
      requires Valid()
      modifies this, buffer, digest
      ensures Valid() && finalized
      ensures if old(finalized)
              then digest[..] == old(digest[..]) && View() == old(View())
              else digest[..] == Finished(old(View()))
      ensures !old(finalized) ==> count0 == 0 && count1 == 0 && forall i :: 0 <= i < 64 ==> buffer[i] == 0
    {
      hide Updated, Absorb, Tail, BytesOf, Padding, EncodeState, Finished;
      if finalized {
        return;
      }
      ghost var fed := FeedPadding();
      Encode(digest, [state.a, state.b, state.c, state.d]);
      StateBytes(state);
      Copy(buffer, 0, Zeros(64));
      count0, count1, finalized := 0, 0, true;
    }
  }

  // ---------- Every way of cutting a message into updates ----------

  lemma FreshRepresentsNothing(m: seq<byte>)
    requires |m| == 0
    ensures Represents(FRESH, m)
  {
  }

  lemma PendingLength(c: Context, m: seq<byte>)
    requires Represents(c, m)
    ensures |c.pending| == |m| % 64
  {
  }

  /** Whatever the chunks, the digest is that of their concatenation. */
  method DigestOfChunks(chunks: seq<seq<byte>>) returns (bytes: seq<byte>)
    requires forall i :: 0 <= i < |chunks| ==> UpdateFits(|Concat(chunks[..i])| % 64, |chunks[i]|)
    ensures bytes == Digest(Concat(chunks))
  {
    hide Updated, Absorb, Tail, Finished, Digest, Represents;
    var md5 := new Hasher();
    FreshRepresentsNothing(Concat(chunks[..0]));
    var i := 0;
    while i < |chunks|
      invariant 0 <= i <= |chunks| && md5.Valid() && !md5.finalized
      invariant fresh(md5) && fresh(md5.buffer) && fresh(md5.digest)
      invariant Represents(md5.View(), Concat(chunks[..i]))
    {
      PendingLength(md5.View(), Concat(chunks[..i]));
      UpdateExtendsMessage(md5.View(), Concat(chunks[..i]), chunks[i]);
      md5.Update(chunks[i]);
      assert chunks[..i + 1][..i] == chunks[..i];
      i := i + 1;
    }
    assert chunks[..i] == chunks;
    FinishedIsDigest(md5.View(), Concat(chunks));
    md5.Finalize();
    bytes := md5.digest[..];
  }
}
