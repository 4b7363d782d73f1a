// The framing protocol of the qemud serial port: every packet travels as a 6-byte
// header (two hex digits of channel, four of payload size) and its payload.
module Framing {
  import opened Bytes
  import Hex

  const HEADER_SIZE: nat := 6
  const CHANNEL_SIZE: nat := 2
  const LENGTH_SIZE: nat := 4
  const MAX_PAYLOAD: nat := 4000

  datatype Frame = Frame(channel: int, payload: seq<Byte>)

  // ---------------------------------------------------------------- sending

  function Header(channel: int, length: nat): (h: seq<Byte>)
    ensures |h| == HEADER_SIZE
  {
    Hex.Text(channel, CHANNEL_SIZE) + Hex.Text(length, LENGTH_SIZE)
  }

  function EncodeFrame(f: Frame): (e: seq<Byte>)
    ensures |e| == HEADER_SIZE + |f.payload|
  {
    Header(f.channel, |f.payload|) + f.payload
  }

  function Encode(frames: seq<Frame>): seq<Byte> {
    if frames == [] then [] else EncodeFrame(frames[0]) + Encode(frames[1..])
  }

  lemma {:induction false} EncodeAppend(a: seq<Frame>, b: seq<Frame>)
    ensures Encode(a + b) == Encode(a) + Encode(b)
  {
    if a == [] {
      assert a + b == b;
    } else {
      EncodeAppend(a[1..], b);
      assert (a + b)[1..] == a[1..] + b && (a + b)[0] == a[0];
      Associative(EncodeFrame(a[0]), Encode(a[1..]), Encode(b));
    }
  }

  // What a header can carry: a payload length that is not zero and fits four digits.
  predicate Sendable(f: Frame) {
    1 <= |f.payload| < 0x1_0000
  }

  // The channel as the two digits of the header keep it.
  function OnWire(f: Frame): Frame {
    f.(channel := f.channel % 256)
  }

  function AllOnWire(frames: seq<Frame>): (r: seq<Frame>)
    ensures |r| == |frames|
  {
    seq(|frames|, i requires 0 <= i < |frames| => OnWire(frames[i]))
  }

  // -------------------------------------------------------------- receiving

  // The receiver between two bytes: the part of the header or payload seen so far,
  // the payload size (0 while reading a header) and the last channel decoded.
  datatype Rx = Rx(buf: seq<Byte>, datalen: nat, channel: int) {
    predicate Valid() {
      |buf| < if datalen == 0 then HEADER_SIZE else datalen
    }
    predicate Idle() {
      buf == [] && datalen == 0
    }
  }

  // A complete header: a size that is zero or malformed is ignored.
  function HeaderDone(header: seq<Byte>): (r: Rx)
    requires |header| == HEADER_SIZE
    ensures r.Valid()
  {
    var length := Hex.Value(header[CHANNEL_SIZE..]);
    Rx([], if length <= 0 then 0 else length, Hex.Value(header[..CHANNEL_SIZE]))
  }

  // A complete payload: posted unless the channel was malformed.
  function Posted(channel: int, payload: seq<Byte>): seq<Frame> {
    if channel < 0 then [] else [Frame(channel, payload)]
  }

  function StepByte(r: Rx, b: Byte): (result: (Rx, seq<Frame>))
    requires r.Valid()
    ensures result.0.Valid()
  {
    var buf := r.buf + [b];
    if r.datalen == 0 then
      if |buf| == HEADER_SIZE then (HeaderDone(buf), []) else (r.(buf := buf), [])
    else
      if |buf| == r.datalen then (Rx([], 0, r.channel), Posted(r.channel, buf)) else (r.(buf := buf), [])
  }

  function Feed(r: Rx, s: seq<Byte>): (result: (Rx, seq<Frame>))
    requires r.Valid()
    ensures result.0.Valid()
    decreases |s|
  {
    if s == [] then (r, [])
    else
      var (r1, f1) := StepByte(r, s[0]);
      var (r2, f2) := Feed(r1, s[1..]);
      (r2, f1 + f2)
  }

  lemma {:induction false} FeedAppend(r: Rx, a: seq<Byte>, b: seq<Byte>)
    requires r.Valid()
    ensures Feed(r, a + b).0 == Feed(Feed(r, a).0, b).0
    ensures Feed(r, a + b).1 == Feed(r, a).1 + Feed(Feed(r, a).0, b).1
    decreases |a|
  {
    if a == [] {
      assert a + b == b;
    } else {
      var r1 := StepByte(r, a[0]).0;
      FeedAppend(r1, a[1..], b);
      assert (a + b)[1..] == a[1..] + b && (a + b)[0] == a[0];
      Associative(StepByte(r, a[0]).1, Feed(r1, a[1..]).1, Feed(Feed(r, a).0, b).1);
    }
  }

  // One read after another.
  function FeedChunks(r: Rx, chunks: seq<seq<Byte>>): (result: (Rx, seq<Frame>))
    requires r.Valid()
    ensures result.0.Valid()
    decreases |chunks|
  {
    if chunks == [] then (r, [])
    else
      var (r1, f1) := Feed(r, chunks[0]);
      var (r2, f2) := FeedChunks(r1, chunks[1..]);
      (r2, f1 + f2)
  }

  // Chunk invariance: what is received depends only on the concatenation.
  lemma {:induction false} ChunkInvariance(r: Rx, chunks: seq<seq<Byte>>)
    requires r.Valid()
    ensures FeedChunks(r, chunks) == Feed(r, Flatten(chunks))
    decreases |chunks|
  {
    if chunks != [] {
      ChunkInvariance(Feed(r, chunks[0]).0, chunks[1..]);
      FeedAppend(r, chunks[0], Flatten(chunks[1..]));
    }
  }

  // A block that stays inside the header or payload being read is only stored.
  lemma {:induction false} FeedInside(r: Rx, block: seq<Byte>)
    requires r.Valid() && r.(buf := r.buf + block).Valid()
    ensures Feed(r, block).0 == r.(buf := r.buf + block)
    ensures Feed(r, block).1 == []
    decreases |block|
  {
    if block == [] {
      assert r.buf + block == r.buf;
    } else {
      var r1 := r.(buf := r.buf + [block[0]]);
      assert r1.buf + block[1..] == r.buf + block;
      FeedInside(r1, block[1..]);
      assert StepByte(r, block[0]) == (r1, []);
    }
  }

  // A block that completes the header.
  lemma FeedHeader(r: Rx, block: seq<Byte>)
    requires r.Valid() && r.datalen == 0 && |r.buf| + |block| == HEADER_SIZE
    ensures Feed(r, block).0 == HeaderDone(r.buf + block)
    ensures Feed(r, block).1 == []
  {
    var n := |block| - 1;
    FeedInside(r, block[..n]);
    FeedAppend(r, block[..n], [block[n]]);
    assert block == block[..n] + [block[n]];
    assert r.buf + block[..n] + [block[n]] == r.buf + block;
    FeedOne(r.(buf := r.buf + block[..n]), block[n]);
  }

  // A block that completes the payload.
  lemma FeedPayload(r: Rx, block: seq<Byte>)
    requires r.Valid() && r.datalen > 0 && |r.buf| + |block| == r.datalen
    ensures Feed(r, block).0 == Rx([], 0, r.channel)
    ensures Feed(r, block).1 == Posted(r.channel, r.buf + block)
  {
    var n := |block| - 1;
    FeedInside(r, block[..n]);
    FeedAppend(r, block[..n], [block[n]]);
    assert block == block[..n] + [block[n]];
    assert r.buf + block[..n] + [block[n]] == r.buf + block;
    FeedOne(r.(buf := r.buf + block[..n]), block[n]);
  }

  lemma FeedOne(r: Rx, b: Byte)
    requires r.Valid()
    ensures Feed(r, [b]).0 == StepByte(r, b).0
    ensures Feed(r, [b]).1 == StepByte(r, b).1
  {
    var (r1, f1) := StepByte(r, b);
    assert [b][1..] == [] && Feed(r1, []) == (r1, []);
    assert f1 + [] == f1;
  }

  // ------------------------------------------------ independent description

  // A byte stream read as a whole, by recursive descent over its headers.
  function Parse(s: seq<Byte>): seq<Frame>
    decreases |s|
  {
    if |s| < HEADER_SIZE then []
    else
      var channel, length := Hex.Value(s[..CHANNEL_SIZE]), Hex.Value(s[CHANNEL_SIZE..HEADER_SIZE]);
      if length <= 0 then Parse(s[HEADER_SIZE..])                 // skip exactly the header
      else if |s| < HEADER_SIZE + length then []                  // payload still incomplete
      else (if channel < 0 then [] else [Frame(channel, s[HEADER_SIZE..HEADER_SIZE + length])])
           + Parse(s[HEADER_SIZE + length..])
  }

  // The byte-driven receiver computes the recursive-descent reading.
  lemma {:induction false} FeedIsParse(r: Rx, s: seq<Byte>)
    requires r.Idle()
    ensures Feed(r, s).1 == Parse(s)
    decreases |s|
  {
    if |s| < HEADER_SIZE {
      FeedInside(r, s);
    } else {
      var header, rest := s[..HEADER_SIZE], s[HEADER_SIZE..];
      assert s == header + rest && r.buf + header == header;
      FeedHeader(r, header);
      FeedAppend(r, header, rest);
      assert header[..CHANNEL_SIZE] == s[..CHANNEL_SIZE];
      assert header[CHANNEL_SIZE..] == s[CHANNEL_SIZE..HEADER_SIZE];
      var r1 := HeaderDone(header);
      if r1.datalen == 0 {
        FeedIsParse(r1, rest);
      } else if |rest| < r1.datalen {
        FeedInside(r1, rest);
      } else {
        var payload, tail := s[HEADER_SIZE..HEADER_SIZE + r1.datalen], s[HEADER_SIZE + r1.datalen..];
        assert rest == payload + tail;
        FeedWholePayload(r1, payload, tail);
        FeedIsParse(Rx([], 0, r1.channel), tail);
      }
    }
  }

  lemma FeedWholePayload(r: Rx, payload: seq<Byte>, tail: seq<Byte>)
    requires r.buf == [] && r.datalen == |payload| > 0
    ensures Feed(r, payload + tail).1 == Posted(r.channel, payload) + Feed(Rx([], 0, r.channel), tail).1
  {
    assert r.buf + payload == payload;
    FeedPayload(r, payload);
    FeedAppend(r, payload, tail);
  }

  // -------------------------------------------------------------- round trip

  // The header written for a payload announces exactly that payload.
  lemma HeaderOfFrame(channel: int, length: nat)
    requires 1 <= length < 0x1_0000
    ensures HeaderDone(Header(channel, length)) == Rx([], length, channel % 256)
  {
    HeaderParts(channel, length);
    DigitsOf(channel, CHANNEL_SIZE, 256);
    DigitsOf(length, LENGTH_SIZE, 0x1_0000);
  }

  lemma HeaderParts(channel: int, length: nat)
    ensures Header(channel, length)[..CHANNEL_SIZE] == Hex.Text(channel, CHANNEL_SIZE)
    ensures Header(channel, length)[CHANNEL_SIZE..] == Hex.Text(length, LENGTH_SIZE)
  {
  }

  lemma DigitsOf(value: int, digits: nat, limit: int)
    requires (digits == 2 && limit == 256) || (digits == 4 && limit == 0x1_0000)
    ensures Hex.Value(Hex.Text(value, digits)) == value % limit
  {
    Hex.ValueOfText(value, digits);
    PowersOf16();
  }

  lemma PowersOf16()
    ensures Hex.Pow16(2) == 256 && Hex.Pow16(4) == 0x1_0000
  {
  }

  lemma FeedFrame(r: Rx, f: Frame)
    requires r.Idle() && Sendable(f)
    ensures Feed(r, EncodeFrame(f)).0 == Rx([], 0, f.channel % 256)
    ensures Feed(r, EncodeFrame(f)).1 == [OnWire(f)]
  {
    var header := Header(f.channel, |f.payload|);
    HeaderOfFrame(f.channel, |f.payload|);
    assert r.buf + header == header;
    FeedHeader(r, header);
    var r1 := HeaderDone(header);
    assert r1.buf + f.payload == f.payload;
    FeedPayload(r1, f.payload);
    FeedAppend(r, header, f.payload);
  }

  // Everything sent is received: same payloads, same order, same channels.
  lemma {:induction false} RoundTrip(r: Rx, frames: seq<Frame>)
    requires r.Idle() && forall i :: 0 <= i < |frames| ==> Sendable(frames[i])
    ensures Feed(r, Encode(frames)).0.Idle()
    ensures Feed(r, Encode(frames)).1 == AllOnWire(frames)
    decreases |frames|
  {
    if frames != [] {
      FeedFrame(r, frames[0]);
      RoundTrip(Rx([], 0, frames[0].channel % 256), frames[1..]);
      FeedAppend(r, EncodeFrame(frames[0]), Encode(frames[1..]));
      assert AllOnWire(frames) == [OnWire(frames[0])] + AllOnWire(frames[1..]);
    }
  }

  // Framing round trip under any chunking.
  lemma RoundTripChunked(r: Rx, frames: seq<Frame>, chunks: seq<seq<Byte>>)
    requires r.Idle()
    requires forall i :: 0 <= i < |frames| ==> 0 <= frames[i].channel < 256 && Sendable(frames[i])
    requires Flatten(chunks) == Encode(frames)
    ensures FeedChunks(r, chunks).1 == frames && FeedChunks(r, chunks).0.Idle()
  {
    ChunkInvariance(r, chunks);
    RoundTrip(r, frames);
    OnWireIsIdentity(frames);
  }

  lemma OnWireIsIdentity(frames: seq<Frame>)
    requires forall i :: 0 <= i < |frames| ==> 0 <= frames[i].channel < 256
    ensures AllOnWire(frames) == frames
  {
    forall i | 0 <= i < |frames|
      ensures AllOnWire(frames)[i] == frames[i]
    {
      assert OnWire(frames[i]) == frames[i];
    }
  }

  // How many frames the first `cut` bytes of the stream contain whole.
  function Complete(frames: seq<Frame>, cut: nat): (n: nat)
    ensures n <= |frames|
    decreases |frames|
  {
    if frames == [] || cut < |EncodeFrame(frames[0])| then 0
    else 1 + Complete(frames[1..], cut - |EncodeFrame(frames[0])|)
  }

  lemma {:induction false} CompleteIsGreatest(frames: seq<Frame>, cut: nat)
    ensures |Encode(frames[..Complete(frames, cut)])| <= cut
    ensures Complete(frames, cut) < |frames| ==> cut < |Encode(frames[..Complete(frames, cut) + 1])|
    decreases |frames|
  {
    if frames != [] {
      var n, first := Complete(frames, cut), |EncodeFrame(frames[0])|;
      if cut < first {
        assert frames[..1][0] == frames[0];
      } else {
        CompleteIsGreatest(frames[1..], cut - first);
        EncodePrefix(frames, n);
        if n < |frames| {
          EncodePrefix(frames, n + 1);
        }
      }
    }
  }

  lemma EncodePrefix(frames: seq<Frame>, n: nat)
    requires 1 <= n <= |frames|
    ensures Encode(frames[..n]) == EncodeFrame(frames[0]) + Encode(frames[1..][..n - 1])
  {
    assert frames[..n][1..] == frames[1..][..n - 1];
  }

  // However much of the stream has been received, the frames it contains whole, and
  // only those, have been posted.
  lemma {:induction false} ReceivedSoFar(r: Rx, frames: seq<Frame>, cut: nat)
    requires r.Idle() && forall i :: 0 <= i < |frames| ==> Sendable(frames[i])
    requires cut <= |Encode(frames)|
    ensures Feed(r, Encode(frames)[..cut]).1 == AllOnWire(frames[..Complete(frames, cut)])
    decreases |frames|
  {
    if frames != [] {
      var first, rest := EncodeFrame(frames[0]), Encode(frames[1..]);
      if cut < |first| {
        assert Encode(frames)[..cut] == first[..cut];
        PartialFrame(r, frames[0], cut);
      } else {
        var n := Complete(frames, cut);
        FeedFrame(r, frames[0]);
        ReceivedSoFar(Feed(r, first).0, frames[1..], cut - |first|);
        OneFrameMore(r, frames, cut);
        AllOnWireFirst(frames, n);
      }
    }
  }

  lemma OneFrameMore(r: Rx, frames: seq<Frame>, cut: nat)
    requires r.Valid() && frames != [] && |EncodeFrame(frames[0])| <= cut <= |Encode(frames)|
    ensures var first := EncodeFrame(frames[0]);
            Feed(r, Encode(frames)[..cut]).1 ==
              Feed(r, first).1 + Feed(Feed(r, first).0, Encode(frames[1..])[..cut - |first|]).1
  {
    var first, rest := EncodeFrame(frames[0]), Encode(frames[1..]);
    assert Encode(frames)[..cut] == first + rest[..cut - |first|];
    FeedAppend(r, first, rest[..cut - |first|]);
  }

  lemma AllOnWireFirst(frames: seq<Frame>, n: nat)
    requires 1 <= n <= |frames|
    ensures AllOnWire(frames[..n]) == [OnWire(frames[0])] + AllOnWire(frames[1..][..n - 1])
  {
    assert frames[..n][1..] == frames[1..][..n - 1];
    AllOnWireCons(frames[..n]);
  }

  lemma AllOnWireCons(frames: seq<Frame>)
    requires frames != []
    ensures AllOnWire(frames) == [OnWire(frames[0])] + AllOnWire(frames[1..])
  {
  }

  lemma PartialFrame(r: Rx, f: Frame, cut: nat)
    requires r.Idle() && Sendable(f) && cut < |EncodeFrame(f)|
    ensures Feed(r, EncodeFrame(f)[..cut]).1 == []
  {
    var header := Header(f.channel, |f.payload|);
    if cut < HEADER_SIZE {
      FeedInside(r, EncodeFrame(f)[..cut]);
    } else {
      var part := f.payload[..cut - HEADER_SIZE];
      assert EncodeFrame(f)[..cut] == header + part;
      HeaderOfFrame(f.channel, |f.payload|);
      assert r.buf + header == header;
      FeedHeader(r, header);
      FeedInside(HeaderDone(header), part);
      FeedAppend(r, header, part);
    }
  }

  // ------------------------------------------------------------- buffer bound

  // No length declared while reading s exceeds a packet buffer.
  predicate Fits(r: Rx, s: seq<Byte>)
    requires r.Valid()
    decreases |s|
  {
    r.datalen <= MAX_PAYLOAD && (s == [] || Fits(StepByte(r, s[0]).0, s[1..]))
  }

  lemma {:induction false} FitsAppend(r: Rx, a: seq<Byte>, b: seq<Byte>)
    requires r.Valid()
    ensures Fits(r, a + b) <==> Fits(r, a) && Fits(Feed(r, a).0, b)
    decreases |a|
  {
    if a == [] {
      assert a + b == b;
    } else {
      FitsAppend(StepByte(r, a[0]).0, a[1..], b);
      assert (a + b)[1..] == a[1..] + b;
    }
  }

  lemma FitsHere(r: Rx, s: seq<Byte>)
    requires r.Valid() && Fits(r, s)
    ensures r.datalen <= MAX_PAYLOAD
  {
  }

  // Reading s up to i and then up to j.
  lemma FeedSlice(r: Rx, s: seq<Byte>, i: nat, j: nat)
    requires r.Valid() && i <= j <= |s|
    ensures Feed(r, s[..j]).0 == Feed(Feed(r, s[..i]).0, s[i..j]).0
    ensures Feed(r, s[..j]).1 == Feed(r, s[..i]).1 + Feed(Feed(r, s[..i]).0, s[i..j]).1
  {
    var a, b := s[..i], s[i..j];
    assert s[..j] == a + b;
    FeedAppend(r, a, b);
  }

  lemma FitsSplit(r: Rx, s: seq<Byte>, i: nat, j: nat)
    requires r.Valid() && i <= j <= |s| && Fits(r, s[i..])
    ensures Feed(r, s[i..j]).0.datalen <= MAX_PAYLOAD && Fits(Feed(r, s[i..j]).0, s[j..])
  {
    assert s[i..] == s[i..j] + s[j..];
    FitsAppend(r, s[i..j], s[j..]);
    FitsHere(Feed(r, s[i..j]).0, s[j..]);
  }
}
