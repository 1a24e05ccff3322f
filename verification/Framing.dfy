/** The wire format of thread.cpp: OnWrite puts an 8-byte head before every payload, OnReadCb waits until the
    input buffer holds exactly one frame. */
module Framing {
  import opened Bytes

  const HEAD := 8
  const MAX_DATA_LENGTH := HEAD + 0x2000
  const MAX_TOTAL_SIZE := 512 * MAX_DATA_LENGTH
  const MSG_TYPE_MAX := 33

  datatype Frame = Frame(msgType: uint32, payload: seq<byte>)

  /** The frames the reader is willing to accept. */
  predicate Legal(f: Frame) {
    f.msgType <= MSG_TYPE_MAX && |f.payload| + HEAD <= MAX_TOTAL_SIZE
  }

  /** The size field is 32 bits wide. */
  function TotalSize(f: Frame): uint32 {
    (|f.payload| + HEAD) % TWO32
  }

  function Encode(f: Frame): (bytes: seq<byte>)
    ensures |bytes| == HEAD + |f.payload|
  {
    EncodeWord(TotalSize(f)) + EncodeWord(f.msgType) + f.payload
  }

  /** What OnWrite hands over: as many bytes of the frame as its size field says. */
  function Sent(f: Frame): seq<byte> {
    Encode(f)[..TotalSize(f)]
  }

  /** The whole frame is sent exactly when its size fits the size field. */
  lemma SentWholeIff(f: Frame)
    ensures Sent(f) == Encode(f) <==> |f.payload| + HEAD < TWO32
    ensures Legal(f) ==> Sent(f) == Encode(f)
  {
    if Sent(f) == Encode(f) {
      assert |Sent(f)| == TotalSize(f);
    }
  }

  /** A frame is its size with the head of eight bytes, its type, each with the least significant byte first, and
      its payload. */
  lemma FrameByteByByte(f: Frame)
    requires |f.payload| + 8 < 0x1_0000_0000
    ensures var e := Encode(f);
            && |f.payload| + 8 == e[0] as int + 0x100 * e[1] as int + 0x1_0000 * e[2] as int + 0x100_0000 * e[3] as int
            && f.msgType == e[4] as int + 0x100 * e[5] as int + 0x1_0000 * e[6] as int + 0x100_0000 * e[7] as int
            && e[8..] == f.payload
  {
    hide EncodeWord;
    LeastSignificantFirst(TotalSize(f));
    LeastSignificantFirst(f.msgType);
  }

  /** Types 0 to 33 are accepted, with up to 4198400 bytes including the head. */
  lemma LegalSizes(f: Frame)
    ensures Legal(f) <==> f.msgType <= 33 && |f.payload| + 8 <= 4_198_400
  {
  }

  // ---------- The reader as a function of what has arrived ----------

  /** The input buffer, the ReadBufInfo of the session, and the frames handed to MessageHandle so far. */
  datatype Decoder = Decoder(input: seq<byte>, gotHead: bool, totalSize: uint32, msgType: uint32,
                             closed: bool, delivered: seq<Frame>)
  {
    ghost predicate Valid() {
      gotHead ==> HEAD <= |input|
    }

    ghost predicate Idle() {
      input == [] && !gotHead && totalSize == 0 && msgType == 0 && !closed
    }
  }

  /** The first part of OnReadCb: parse the head once its eight bytes are there. */
  function ReadHead(d: Decoder): (r: Decoder) {
    if !d.gotHead && HEAD <= |d.input| then
      var totalSize, msgType := DecodeWord(d.input[..4]), DecodeWord(d.input[4..8]);
      if msgType > MSG_TYPE_MAX || totalSize > MAX_TOTAL_SIZE
      then Decoder([], false, 0, 0, true, d.delivered)
      else d.(totalSize := totalSize, msgType := msgType, gotHead := true)
    else
      d
  }

  /** The second part: deliver when the buffer holds exactly the announced number of bytes. */
  function Deliver(d: Decoder, handled: bool): Decoder
    requires d.Valid()
  {
    if d.gotHead && |d.input| == d.totalSize
    then Decoder([], false, 0, 0, !handled, d.delivered + [Frame(d.msgType, d.input[HEAD..])])
    else d
  }

  /** One read event: `chunk` arrives and OnReadCb runs; `handled` is what MessageHandle would answer. */
  function Feed(d: Decoder, chunk: seq<byte>, handled: bool): (r: Decoder)
    requires d.Valid()
    ensures r.Valid()
  {
    if d.closed then d else Deliver(ReadHead(d.(input := d.input + chunk)), handled)
  }

  function FeedAll(d: Decoder, chunks: seq<seq<byte>>): (r: Decoder)
    requires d.Valid()
    ensures r.Valid()
  {
    if chunks == [] then d else Feed(FeedAll(d, chunks[..|chunks| - 1]), chunks[|chunks| - 1], true)
  }

  // ---------- One frame, cut anywhere ----------

  /** The reader after an incomplete part `p` of a frame has arrived. */
  ghost function Midway(d: Decoder, f: Frame, p: seq<byte>): Decoder
    requires Legal(f)
  {
    if |p| < HEAD then d.(input := p)
    else d.(input := p, gotHead := true, totalSize := |f.payload| + HEAD, msgType := f.msgType)
  }

  lemma HeadOfFrame(f: Frame, p: seq<byte>)
    requires Legal(f) && HEAD <= |p| && Encode(f)[..HEAD] == p[..HEAD]
    ensures DecodeWord(p[..4]) == |f.payload| + HEAD && DecodeWord(p[4..8]) == f.msgType
  {
    assert p[..4] == p[..HEAD][..4] && p[4..8] == p[..HEAD][4..8];
    assert p[..4] == EncodeWord(|f.payload| + HEAD);
    assert p[4..8] == EncodeWord(f.msgType);
    DecodeUndoesEncode(|f.payload| + HEAD);
    DecodeUndoesEncode(f.msgType);
  }

  lemma OneChunk(d: Decoder, f: Frame, p: seq<byte>, chunk: seq<byte>, handled: bool)
    requires d.Idle() && Legal(f) && p < Encode(f) && (p + chunk <= Encode(f) || Encode(f) <= p + chunk)
    ensures Midway(d, f, p).Valid()
    ensures Feed(Midway(d, f, p), chunk, handled)
         == if p + chunk == Encode(f) then d.(delivered := d.delivered + [f], closed := !handled)
            else Midway(d, f, p + chunk)
  {
    var e, q := Encode(f), p + chunk;
    if HEAD <= |q| {
      assert e[..HEAD] == q[..HEAD];
      HeadOfFrame(f, q);
    }
    if |q| == |e| {
      assert q == e && e[HEAD..] == f.payload;
    }
  }

  /** However the bytes of one frame are cut into reads, the frame is delivered once, when the last byte
      arrives, and the reader is idle again. */
  lemma {:induction false} FrameRoundTrip(d: Decoder, f: Frame, chunks: seq<seq<byte>>)
    requires d.Idle() && Legal(f) && Concat(chunks) <= Encode(f)
    ensures FeedAll(d, chunks)
         == if Concat(chunks) == Encode(f) then d.(delivered := d.delivered + [f])
            else Midway(d, f, Concat(chunks))
  {
    if chunks != [] {
      var before, last := chunks[..|chunks| - 1], chunks[|chunks| - 1];
      var p := Concat(before);
      assert p <= Encode(f);
      FrameRoundTrip(d, f, before);
      if p == Encode(f) {
        assert last == [];
      } else {
        OneChunk(d, f, p, last, true);
      }
    }
  }

  /** When the last bytes of a frame arrive, it is handed over; the reader is closed exactly if the message was not
      handled, and a closed reader takes no more notice of anything. */
  lemma LastReadOfFrame(d: Decoder, f: Frame, chunks: seq<seq<byte>>, last: seq<byte>, handled: bool,
                        more: seq<byte>, again: bool)
    requires d.Idle() && Legal(f) && Concat(chunks) + last == Encode(f) && last != []
    ensures var r := Feed(FeedAll(d, chunks), last, handled);
            && r == d.(delivered := d.delivered + [f], closed := !handled)
            && (!handled ==> Feed(r, more, again) == r)
  {
    var p := Concat(chunks);
    assert p <= Encode(f) && p != Encode(f);
    FrameRoundTrip(d, f, chunks);
    OneChunk(d, f, p, last, handled);
  }

  /** A head that announces an unknown type or too many bytes. */
  predicate Refused(head: seq<byte>)
    requires |head| == HEAD
  {
    DecodeWord(head[4..8]) > MSG_TYPE_MAX || DecodeWord(head[..4]) > MAX_TOTAL_SIZE
  }

  /** However the bytes are cut, a refused head closes the connection as soon as it is complete and not before,
      and nothing is delivered. */
  lemma {:induction false} RefusedHeadCloses(d: Decoder, chunks: seq<seq<byte>>)
    requires d.Idle() && (HEAD <= |Concat(chunks)| ==> Refused(Concat(chunks)[..HEAD]))
    ensures FeedAll(d, chunks)
         == if |Concat(chunks)| < HEAD then d.(input := Concat(chunks)) else Decoder([], false, 0, 0, true, d.delivered)
  {
    if chunks != [] {
      var all, before := Concat(chunks), Concat(chunks[..|chunks| - 1]);
      assert HEAD <= |before| ==> before[..HEAD] == all[..HEAD];
      RefusedHeadCloses(d, chunks[..|chunks| - 1]);
      assert HEAD <= |all| ==> all[..HEAD][..4] == all[..4] && all[..HEAD][4..8] == all[4..8];
    }
  }

  // ---------- Many frames ----------

  lemma {:induction false} FeedAllAppends(d: Decoder, first: seq<seq<byte>>, second: seq<seq<byte>>)
    requires d.Valid()
    ensures FeedAll(d, first + second) == FeedAll(FeedAll(d, first), second)
  {
    if second == [] {
      assert first + second == first;
    } else {
      var all := first + second;
      assert all[..|all| - 1] == first + second[..|second| - 1];
      FeedAllAppends(d, first, second[..|second| - 1]);
    }
  }

  /** Each frame cut into its own reads, one after the other. */
  function Joined(readings: seq<seq<seq<byte>>>): seq<seq<byte>> {
    if readings == [] then [] else Joined(readings[..|readings| - 1]) + readings[|readings| - 1]
  }

  lemma NothingToFeed(d: Decoder)
    requires d.Valid()
    ensures FeedAll(d, []) == d
  {
  }

  /** A sequence of frames is delivered in order, each exactly once, when no read spans two of them. */
  lemma {:induction false} FramesRoundTrip(d: Decoder, frames: seq<Frame>, readings: seq<seq<seq<byte>>>)
    requires d.Idle() && |frames| == |readings|
    requires forall i :: 0 <= i < |frames| ==> Legal(frames[i]) && Concat(readings[i]) == Encode(frames[i])
    ensures FeedAll(d, Joined(readings)) == d.(delivered := d.delivered + frames)
  {
    hide Encode, Legal, FeedAll;
    if frames == [] {
      NothingToFeed(d);
    } else {
      var n := |frames| - 1;
      FramesRoundTrip(d, frames[..n], readings[..n]);
      FeedAllAppends(d, Joined(readings[..n]), readings[n]);
      FrameRoundTrip(d.(delivered := d.delivered + frames[..n]), frames[n], readings[n]);
      assert frames == frames[..n] + [frames[n]];
    }
  }

  // ---------- When a read does span two frames ----------

  /** More bytes are buffered than the head announced. */
  ghost predicate Overrun(d: Decoder) {
    !d.closed && d.gotHead && HEAD <= |d.input| && d.totalSize < |d.input|
  }

  lemma {:induction false} OverrunIsForever(d: Decoder, chunks: seq<seq<byte>>)
    requires Overrun(d)
    ensures Overrun(FeedAll(d, chunks)) && FeedAll(d, chunks).delivered == d.delivered
  {
    if chunks != [] {
      OverrunIsForever(d, chunks[..|chunks| - 1]);
    }
  }

  lemma {:induction false} DeliveredGrows(d: Decoder, chunks: seq<seq<byte>>)
    requires d.Valid()
    ensures d.delivered <= FeedAll(d, chunks).delivered
  {
    if chunks != [] {
      DeliveredGrows(d, chunks[..|chunks| - 1]);
    }
  }

  lemma {:induction false} ConcatOfPrefix(chunks: seq<seq<byte>>, k: nat)
    requires k <= |chunks|
    ensures Concat(chunks[..k]) <= Concat(chunks)
  {
    if k == |chunks| {
      assert chunks[..k] == chunks;
    } else {
      var before := chunks[..|chunks| - 1];
      ConcatOfPrefix(before, k);
      assert before[..k] == chunks[..k];
    }
  }

  /** Some read ends exactly where the frame ends. */
  ghost predicate SomeReadEndsAt(f: Frame, chunks: seq<seq<byte>>)
    requires Legal(f)
  {
    exists k :: 0 <= k <= |chunks| && Concat(chunks[..k]) == Encode(f)
  }

  /** Where the bytes that arrive continue past a frame, the frame is delivered if and only if some read ends
      exactly at its end: the size test of OnReadCb is an equality. If none does, nothing is ever delivered
      again, and the connection stays open. */
  lemma FrameDeliveredIffReadEndsThere(d: Decoder, f: Frame, chunks: seq<seq<byte>>)
    requires d.Idle() && Legal(f) && Encode(f) <= Concat(chunks)
    ensures d.delivered + [f] <= FeedAll(d, chunks).delivered <==> SomeReadEndsAt(f, chunks)
    ensures !SomeReadEndsAt(f, chunks) ==>
              Overrun(FeedAll(d, chunks)) && FeedAll(d, chunks).delivered == d.delivered
  {
    hide Encode, Feed, FeedAll, Overrun, SomeReadEndsAt;
    if SomeReadEndsAt(f, chunks) {
      ReadEndsThere(d, f, chunks);
    } else {
      NoReadEndsThere(d, f, chunks);
    }
  }

  /** Two frames that arrive in one read are both lost. */
  lemma TwoFramesInOneRead(d: Decoder, f: Frame, g: Frame)
    requires d.Idle() && Legal(f)
    ensures Overrun(Feed(d, Encode(f) + Encode(g), true))
    ensures Feed(d, Encode(f) + Encode(g), true).delivered == d.delivered
  {
    hide Encode;
    assert Midway(d, f, []) == d;
    assert [] + (Encode(f) + Encode(g)) == Encode(f) + Encode(g);
    SpanningRead(d, f, [], Encode(f) + Encode(g));
  }

  lemma ReadEndsThere(d: Decoder, f: Frame, chunks: seq<seq<byte>>)
    requires d.Idle() && Legal(f) && SomeReadEndsAt(f, chunks)
    ensures d.delivered + [f] <= FeedAll(d, chunks).delivered
  {
    hide Encode, Feed, FeedAll;
    var k :| 0 <= k <= |chunks| && Concat(chunks[..k]) == Encode(f);
    FrameRoundTrip(d, f, chunks[..k]);
    FeedAllAppends(d, chunks[..k], chunks[k..]);
    assert chunks == chunks[..k] + chunks[k..];
    DeliveredGrows(FeedAll(d, chunks[..k]), chunks[k..]);
  }

  lemma NoReadEndsThere(d: Decoder, f: Frame, chunks: seq<seq<byte>>)
    requires d.Idle() && Legal(f) && Encode(f) <= Concat(chunks) && !SomeReadEndsAt(f, chunks)
    ensures Overrun(FeedAll(d, chunks)) && FeedAll(d, chunks).delivered == d.delivered
  {
    hide Feed, FeedAll, Overrun;
    assert Concat(chunks[..0]) == [];
    assert |chunks| > 0;
    SpanningReadStalls(d, f, chunks, 0);
  }

  lemma SameLengthPrefix(a: seq<byte>, b: seq<byte>)
    requires a <= b
    ensures |a| == |b| ==> a == b
  {
    if |a| == |b| {
      assert b[..|a|] == b;
    }
  }

  /** A read that starts inside a frame and ends beyond it leaves the reader overrun. */
  lemma SpanningRead(d: Decoder, f: Frame, p: seq<byte>, chunk: seq<byte>)
    requires d.Idle() && Legal(f) && p < Encode(f) && Encode(f) <= p + chunk && p + chunk != Encode(f)
    ensures Midway(d, f, p).Valid()
    ensures var r := Feed(Midway(d, f, p), chunk, true);
            Overrun(r) && r.delivered == d.delivered
  {
    OneChunk(d, f, p, chunk, true);
    SameLengthPrefix(Encode(f), p + chunk);
  }

  lemma SpanningReadStalls(d: Decoder, f: Frame, chunks: seq<seq<byte>>, k: nat)
    requires d.Idle() && Legal(f) && Encode(f) <= Concat(chunks) && k < |chunks|
    requires forall i :: 0 <= i <= |chunks| ==> Concat(chunks[..i]) != Encode(f)
    requires |Concat(chunks[..k])| < |Encode(f)|
    ensures Overrun(FeedAll(d, chunks)) && FeedAll(d, chunks).delivered == d.delivered
    decreases |chunks| - k
  {
    hide Feed, Encode, Overrun, Midway;
    var e, p, last := Encode(f), Concat(chunks[..k]), chunks[k];
    ConcatOfPrefix(chunks, k);
    ConcatOfPrefix(chunks, k + 1);
    assert chunks[..k + 1][..k] == chunks[..k] && chunks[..|chunks|] == chunks;
    assert Concat(chunks[..k + 1]) == p + last;
    if |p + last| < |e| {
      SpanningReadStalls(d, f, chunks, k + 1);
    } else {
      FrameRoundTrip(d, f, chunks[..k]);
      SpanningRead(d, f, p, last);
      var r := FeedAll(d, chunks[..k + 1]);
      OverrunIsForever(r, chunks[k + 1..]);
      FeedAllAppends(d, chunks[..k + 1], chunks[k + 1..]);
      assert chunks == chunks[..k + 1] + chunks[k + 1..];
    }
  }

  // ---------- The connection object ----------

  class Connection {
    var buffer: array<byte>
    var bufSize: nat
    var clifd: int
    var input: seq<byte>
    var gotHead: bool
    var totalSize: uint32
    var msgType: uint32
    var closed: bool
    var delivered: seq<Frame> // what MessageHandle was called with
    var output: seq<byte>     // what bufferevent_write was given

    ghost predicate Valid()
      reads this
    {
      buffer.Length == bufSize && View().Valid()
    }

    ghost function View(): Decoder
      reads this
    {
      Decoder(input, gotHead, totalSize, msgType, closed, delivered)
    }

    constructor (fd: int)
      ensures Valid() && View() == Decoder([], false, 0, 0, false, []) && output == [] && clifd == fd && fresh(buffer)
    {
      buffer := new byte[0];
      bufSize, clifd := 0, fd;
      input, gotHead, totalSize, msgType, closed, delivered, output := [], false, 0, 0, false, [], [];
    }

    /** GetBuffer: whatever was allocated before, the buffer holds at least `size` bytes afterwards. */
    method GetBuffer(size: nat)
      requires Valid()
      modifies `buffer, `bufSize
      ensures Valid() && size <= buffer.Length && old(bufSize) <= bufSize
      ensures bufSize == if old(bufSize) == 0 && size < 8200 then 8200
                         else if size > old(bufSize) then size else old(bufSize)
      ensures if bufSize == old(bufSize) then buffer == old(buffer)
              else fresh(buffer) && buffer[..old(bufSize)] == old(buffer[..])
    {
      if bufSize == 0 && size < MAX_DATA_LENGTH {
        buffer, bufSize := new byte[MAX_DATA_LENGTH], MAX_DATA_LENGTH;
      } else if size > bufSize {
        var bigger := new byte[size];
        forall k | 0 <= k < bufSize {
          bigger[k] := buffer[k];
        }
        buffer, bufSize := bigger, size;
      }
    }

    /** OnWrite. The buffer takes the whole frame, whatever the size field says. */
    method OnWrite(type_: uint32, data: seq<byte>) returns (ok: bool)
      requires Valid()
      modifies this, buffer
      ensures Valid() && View() == old(View()) && ok == (0 <= old(clifd))
      ensures output == old(output) + (if ok then Sent(Frame(type_, data)) else [])
    {
      GetBuffer(|data| + HEAD);
      var total: uint32 := (|data| + HEAD) % TWO32;
      if clifd < 0 {
        return false;
      }
      var bytes := EncodeWord(total) + EncodeWord(type_) + data;
      forall k | 0 <= k < |bytes| {
        buffer[k] := bytes[k];
      }
      assert buffer[..|bytes|] == bytes;
      output := output + buffer[..total];
      ok := true;
    }

    /** ClosingClientCon, as far as this connection is concerned: DestructResource resets the reader. */
    method Close()
      requires buffer.Length == bufSize
      modifies this
      ensures Valid() && View() == Decoder([], false, 0, 0, true, old(delivered))
      ensures buffer == old(buffer) && output == old(output)
    {
      input, gotHead, totalSize, msgType, closed, clifd := [], false, 0, 0, true, -1;
    }

    /** OnReadCb, for a session that is still open, after `chunk` was appended to the input buffer. */
    method OnReadCb(chunk: seq<byte>, handled: bool)
      requires Valid() && !closed
      modifies this, buffer
      ensures Valid() && View() == Feed(old(View()), chunk, handled)
    {
      hide DecodeWord;
      ghost var before := View();
      input := input + chunk;
      ghost var arrived := View();
      assert arrived == before.(input := before.input + chunk);
      var inputLen := |input|;
      if !gotHead && HEAD <= inputLen {
        totalSize := DecodeWord(input[..4]);
        msgType := DecodeWord(input[4..8]);
        if msgType > MSG_TYPE_MAX || totalSize > MAX_TOTAL_SIZE {
          Close();
          return;
        } else {
          gotHead := true;
        }
      }
      assert View() == ReadHead(arrived);
      if inputLen == totalSize && gotHead {
        GetBuffer(totalSize);
        forall k | 0 <= k < totalSize {
          buffer[k] := input[k];
        }
        assert buffer[..totalSize] == input;
        input := input[totalSize..];
        var data := buffer[HEAD..totalSize];
        delivered := delivered + [Frame(msgType, data)];
        if handled {
          gotHead, totalSize, msgType := false, 0, 0;
        } else {
          Close();
        }
      }
    }
  }
}
