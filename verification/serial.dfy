// The Serial object of qemud (android/qemud/qemud.c): it reassembles framed packets
// from the reads of the serial port and frames the packets sent to it.
module SerialPort {
  import opened Bytes
  import opened Framing
  import opened Packets
  import opened FDHandlers
  import Hex

  // Up to rpos the input has brought the receiver from start to now, posting these frames,
  // and the lengths declared in the rest fit.
  ghost predicate ReadTo(start: Rx, input: seq<Byte>, rpos: nat, now: Rx, posted: seq<Frame>) {
    && start.Valid() && now.Valid() && rpos <= |input|
    && Feed(start, input[..rpos]) == (now, posted) && Fits(now, input[rpos..])
  }

  lemma ReadNothing(start: Rx, input: seq<Byte>)
    requires start.Valid() && Fits(start, input)
    ensures ReadTo(start, input, 0, start, [])
  {
    assert |input[..0]| == 0 && input[0..] == input;
  }

  lemma ReadMore(start: Rx, input: seq<Byte>, i: nat, j: nat, now: Rx, posted: seq<Frame>, now': Rx, more: seq<Frame>)
    requires ReadTo(start, input, i, now, posted) && i <= j <= |input|
    requires Feed(now, input[i..j]).0 == now' && Feed(now, input[i..j]).1 == more && Fits(now', input[j..])
    ensures ReadTo(start, input, j, now', posted + more)
  {
    FeedSlice(start, input, i, j);
  }

  class Serial {
    var inLen: int
    var inDatalen: int
    var inChannel: int
    var inPacket: Packet
    const pool: PacketPool
    const fdhandler: FDHandler

    // The receiver when inpos bytes of inPacket are in use.
    ghost predicate Reading(inpos: int)
      reads this, pool, pool.items, inPacket
    {
      && pool.Valid() && inPacket !in pool.items && inPacket.Valid()
      && 0 <= inpos && 0 <= inDatalen <= MAX_PAYLOAD
      && inpos < (if inDatalen == 0 then HEADER_SIZE else inDatalen)
    }

    // Its state, as a value.
    ghost function Now(inpos: int): Rx
      requires Reading(inpos)
      reads this, pool, pool.items, inPacket
    {
      Rx(inPacket.data[..inpos], inDatalen, inChannel)
    }

    ghost predicate Valid()
      reads this, pool, pool.items, inPacket
    {
      Reading(inLen)
    }

    ghost function State(): Rx
      requires Valid()
      reads this, pool, pool.items, inPacket
    {
      Now(inLen)
    }

    // serial_init
    constructor (pool: PacketPool, fdhandler: FDHandler)
      requires pool.Valid()
      modifies pool, if pool.free == null then {} else {pool.free}
      ensures Valid() && this.pool == pool && this.fdhandler == fdhandler
      ensures State() == Rx([], 0, 0)
    {
      var first := pool.Alloc();
      this.pool, this.fdhandler := pool, fdhandler;
      inLen, inDatalen, inChannel, inPacket := 0, 0, 0, first;
    }

    // Who owns what while the packet p is being read: p, the packet being filled, the
    // free ones and the ones given to the receiver are all different.
    ghost predicate Apart(p: Packet, given: set<Packet>)
      reads this, pool
    {
      && p != inPacket && p !in pool.items && p !in given
      && inPacket !in given && forall q :: q in pool.items ==> q !in given
    }

    // Packets given away or free beyond those that had to be allocated.
    ghost function Balance(given: set<Packet>): int
      reads pool
    {
      |given| + |pool.items| - pool.made
    }

    // Packets come from the free list, or are new.
    twostate predicate Recycled(inPacket0: Packet, items0: seq<Packet>)
      reads this, pool
    {
      && (inPacket == inPacket0 || inPacket in items0 || fresh(inPacket))
      && forall q :: q in pool.items ==> q in items0
    }

    // memcpy(inp->data + inpos, p->data + rpos, avail)
    method Store(inpos: nat, p: Packet, rpos: nat, avail: nat)
      requires inPacket.Valid() && p.Valid() && inpos + avail <= MAX_PAYLOAD && rpos + avail <= MAX_PAYLOAD
      modifies inPacket`data
      ensures inPacket.Valid()
      ensures inPacket.data[..inpos + avail] == old(inPacket.data[..inpos]) + old(p.data[rpos..rpos + avail])
    {
      inPacket.data := Blit(inPacket.data, inpos, p.data[rpos..rpos + avail]);
    }

    // The header in inPacket is complete: decode it.
    method DecodeHeader()
      requires pool.Valid() && inPacket !in pool.items && inPacket.Valid() && inDatalen == 0
      requires HeaderDone(inPacket.data[..HEADER_SIZE]).datalen <= MAX_PAYLOAD
      modifies this`inDatalen, this`inChannel
      ensures Reading(0) && Now(0) == HeaderDone(inPacket.data[..HEADER_SIZE])
    {
      ghost var header := inPacket.data[..HEADER_SIZE];
      assert header[CHANNEL_SIZE..] == inPacket.data[CHANNEL_SIZE..HEADER_SIZE][..LENGTH_SIZE];
      assert header[..CHANNEL_SIZE] == inPacket.data[..CHANNEL_SIZE];
      inDatalen := Hex.Hex2Int(inPacket.data[CHANNEL_SIZE..HEADER_SIZE], LENGTH_SIZE);
      inChannel := Hex.Hex2Int(inPacket.data, CHANNEL_SIZE);
      if inDatalen <= 0 {
        inDatalen := 0;
      }
    }

    // The payload in inPacket is complete: give it to the receiver and get another
    // packet, or forget it when it is addressed to a malformed channel.
    method DeliverPayload(ghost p: Packet, ghost given: set<Packet>)
      returns (posted: seq<Frame>, ghost given': set<Packet>)
      requires pool.Valid() && inPacket !in pool.items && inPacket.Valid() && 0 < inDatalen <= MAX_PAYLOAD
      requires Apart(p, given)
      modifies this`inDatalen, this`inPacket, inPacket`len, inPacket`channel, pool,
        if pool.free == null then {} else {pool.free}
      ensures Reading(0) && Now(0) == Rx([], 0, inChannel)
      ensures Apart(p, given') && Balance(given') == old(Balance(given))
      ensures posted == Posted(inChannel, old(inPacket.data[..inDatalen]))
      ensures given' == if inChannel < 0 then given else given + {old(inPacket)}
      ensures Recycled(old(inPacket), old(pool.items))
    {
      posted, given' := [], given;
      if inChannel >= 0 {
        inPacket.len := inDatalen;
        inPacket.channel := inChannel;
        posted := [Frame(inPacket.channel, inPacket.data[..inPacket.len])];
        given' := given + {inPacket};
        inPacket := pool.Alloc();
      }
      inDatalen := 0;
    }

    // One turn of the loop while a header is being read.
    method HeaderBlock(p: Packet, rpos: nat, inpos: nat, avail: nat, ghost block: seq<Byte>) returns (inpos': nat)
      requires Reading(inpos) && p.Valid() && 0 < avail && rpos + avail <= p.len && p != inPacket
      requires block == p.data[rpos..rpos + avail]
      requires inDatalen == 0 && inpos + avail <= HEADER_SIZE
      requires Feed(Now(inpos), block).0.datalen <= MAX_PAYLOAD
      modifies this`inDatalen, this`inChannel, inPacket`data
      ensures Reading(inpos') && Now(inpos') == Feed(old(Now(inpos)), block).0
      ensures Feed(old(Now(inpos)), block).1 == []
    {
      ghost var before := Now(inpos);
      Store(inpos, p, rpos, avail);
      inpos' := inpos + avail;
      if inpos' == HEADER_SIZE {
        FeedHeader(before, block);
        DecodeHeader();
        inpos' := 0;
      } else {
        FeedInside(before, block);
      }
    }

    // One turn of the loop while a payload is being read.
    method PayloadBlock(p: Packet, rpos: nat, inpos: nat, avail: nat, ghost block: seq<Byte>, ghost given: set<Packet>)
      returns (inpos': nat, posted: seq<Frame>, ghost given': set<Packet>)
      requires Reading(inpos) && p.Valid() && 0 < avail && rpos + avail <= p.len && Apart(p, given)
      requires block == p.data[rpos..rpos + avail]
      requires 0 < inDatalen && inpos + avail <= inDatalen
      modifies this`inDatalen, this`inPacket, inPacket, pool,
        if pool.free == null then {} else {pool.free}
      ensures Reading(inpos') && Now(inpos') == Feed(old(Now(inpos)), block).0
      ensures posted == Feed(old(Now(inpos)), block).1
      ensures Apart(p, given') && Balance(given') == old(Balance(given))
      ensures Recycled(old(inPacket), old(pool.items))
    {
      ghost var before := Now(inpos);
      Store(inpos, p, rpos, avail);
      inpos', posted, given' := inpos + avail, [], given;
      if inpos' == inDatalen {
        FeedPayload(before, block);
        posted, given' := DeliverPayload(p, given);
        inpos' := 0;
      } else {
        FeedInside(before, block);
      }
    }

    // One turn of the loop of serial_fd_receive: the bytes that finish the header or
    // payload being read, or all that remain if they do not reach that far.
    method Block(p: Packet, rpos: nat, inpos: nat, ghost given: set<Packet>)
      returns (rpos': nat, inpos': nat, posted: seq<Frame>, ghost given': set<Packet>)
      requires Reading(inpos) && p.Valid() && rpos < p.len && Apart(p, given)
      requires Fits(Now(inpos), p.Payload()[rpos..])
      modifies this`inDatalen, this`inChannel, this`inPacket, inPacket, pool,
        if pool.free == null then {} else {pool.free}
      ensures rpos < rpos' <= p.len && unchanged(p)
      ensures Reading(inpos') && Now(inpos') == Feed(old(Now(inpos)), p.Payload()[rpos..rpos']).0
      ensures posted == Feed(old(Now(inpos)), p.Payload()[rpos..rpos']).1
      ensures Fits(Now(inpos'), p.Payload()[rpos'..])
      ensures Apart(p, given') && Balance(given') == old(Balance(given))
      ensures Recycled(old(inPacket), old(pool.items))
    {
      var wanted := (if inDatalen == 0 then HEADER_SIZE else inDatalen) - inpos;
      var avail := p.len - rpos;
      if avail > wanted { avail := wanted; }
      rpos', posted, given' := rpos + avail, [], given;
      SliceOfPrefix(p.data, rpos, rpos', p.len);
      ghost var input := p.Payload();
      ghost var block := input[rpos..rpos'];
      FitsSplit(Now(inpos), input, rpos, rpos');
      if inDatalen == 0 {
        inpos' := HeaderBlock(p, rpos, inpos, avail, block);
      } else {
        inpos', posted, given' := PayloadBlock(p, rpos, inpos, avail, block, given);
      }
    }

    // The loop of serial_fd_receive.
    method ReadBlocks(p: Packet) returns (inpos: nat, posted: seq<Frame>, ghost given: set<Packet>)
      requires Valid() && p.Valid() && p != inPacket && p !in pool.items
      requires Fits(State(), p.Payload())
      modifies this`inDatalen, this`inChannel, this`inPacket, inPacket, pool, set q | q in pool.items
      ensures Reading(inpos) && unchanged(p)
      ensures Now(inpos) == Feed(old(State()), p.Payload()).0
      ensures posted == Feed(old(State()), p.Payload()).1
      ensures Apart(p, given) && Balance(given) == old(Balance({}))
    {
      ghost var start, input := State(), p.Payload();
      var rpos := 0;
      inpos, posted, given := inLen, [], {};
      ReadNothing(start, input);
      while rpos < p.len
        invariant 0 <= rpos <= p.len && Reading(inpos) && unchanged(p)
        invariant ReadTo(start, input, rpos, Now(inpos), posted)
        invariant Apart(p, given) && Balance(given) == old(Balance({}))
        invariant Recycled(old(inPacket), old(pool.items))
      {
        rpos, inpos, posted, given := NextBlock(p, rpos, inpos, posted, given, start, input);
      }
      assert input[..rpos] == input;
    }

    method NextBlock(p: Packet, rpos: nat, inpos: nat, posted: seq<Frame>, ghost given: set<Packet>,
                     ghost start: Rx, ghost input: seq<Byte>)
      returns (rpos': nat, inpos': nat, posted': seq<Frame>, ghost given': set<Packet>)
      requires Reading(inpos) && p.Valid() && rpos < p.len && Apart(p, given)
      requires input == p.Payload() && ReadTo(start, input, rpos, Now(inpos), posted)
      modifies this`inDatalen, this`inChannel, this`inPacket, inPacket, pool,
        if pool.free == null then {} else {pool.free}
      ensures rpos < rpos' <= p.len && unchanged(p) && Reading(inpos')
      ensures ReadTo(start, input, rpos', Now(inpos'), posted')
      ensures Apart(p, given') && Balance(given') == old(Balance(given))
      ensures Recycled(old(inPacket), old(pool.items))
    {
      ghost var before := Now(inpos);
      var more;
      rpos', inpos', more, given' := Block(p, rpos, inpos, given);
      posted' := posted + more;
      ReadMore(start, input, rpos, rpos', before, posted, Now(inpos'), more);
    }

    // serial_fd_receive: the packet p holds what one read of the port returned. What is
    // posted, and what is kept for the next read, is what the byte-driven receiver says.
    method Receive(p: Packet) returns (posted: seq<Frame>, ghost given: set<Packet>)
      requires Valid() && p.Valid() && p != inPacket && p !in pool.items
      requires Fits(State(), p.Payload())
      modifies this, inPacket, p, pool, set q | q in pool.items
      ensures Valid()
      ensures State() == Feed(old(State()), old(p.Payload())).0
      ensures posted == Feed(old(State()), old(p.Payload())).1
      ensures p in pool.items && inPacket !in given && forall q :: q in pool.items ==> q !in given
      ensures Balance(given) == old(Balance({p}))
    {
      var inpos;
      inpos, posted, given := ReadBlocks(p);
      inLen := inpos;
      pool.Free(p);
    }

    // A packet holding the header for a payload.
    method MakeHeader(len: nat, channel: int) returns (h: Packet)
      requires pool.Valid()
      modifies pool, if pool.free == null then {} else {pool.free}
      ensures pool.Valid() && h.Valid() && h !in pool.items
      ensures if old(pool.free) == null then fresh(h) else h == old(pool.free) && h in old(pool.items)
      ensures forall q :: q in pool.items ==> q in old(pool.items)
      ensures |pool.items| - pool.made == |old(pool.items)| - old(pool.made) - 1
      ensures h.Payload() == Header(channel, len)
    {
      h := pool.Alloc();
      WriteHeader(h, len, channel);
    }

    method WriteHeader(h: Packet, len: nat, channel: int)
      requires h.Valid()
      modifies h`len, h`data
      ensures h.Valid() && h.Payload() == Header(channel, len)
    {
      h.len := HEADER_SIZE;
      var digits := Hex.Int2Hex(len, LENGTH_SIZE);
      var text := Hex.Int2Hex(channel, CHANNEL_SIZE);
      h.data := Blit(h.data, CHANNEL_SIZE, digits);
      h.data := Blit(h.data, 0, text);
      assert h.data[..HEADER_SIZE] == text + digits;
    }

    // fdhandler_enqueue of one packet, which leaves the free list alone.
    method EnqueueOne(p: Packet)
      requires pool.Valid() && fdhandler.Valid() && p.Valid()
      requires p !in fdhandler.queue && p !in pool.items
      requires forall q :: q in fdhandler.queue ==> q !in pool.items
      modifies fdhandler, p`next, (if fdhandler.outLast == null then {} else {fdhandler.outLast})`next
      ensures pool.Valid() && fdhandler.Valid() && fdhandler.queue == old(fdhandler.queue) + [p]
      ensures forall q :: q in fdhandler.queue ==> q !in pool.items
      ensures fdhandler.enqueued == old(fdhandler.enqueued) + old(p.Payload())
      ensures fdhandler.written == old(fdhandler.written)
    {
      ghost var last := fdhandler.outLast;
      assert last != null ==> last == fdhandler.queue[|fdhandler.queue| - 1] && last !in pool.items;
      fdhandler.Enqueue(p);
    }

    // serial_send: the header and the payload are queued next to each other.
    method Send(p: Packet)
      requires pool.Valid() && fdhandler.Valid() && p.Valid()
      requires p !in fdhandler.queue && p !in pool.items
      requires forall q :: q in fdhandler.queue ==> q !in pool.items
      modifies pool, (if pool.free == null then {} else {pool.free}), fdhandler, p`next
      modifies (if fdhandler.outLast == null then {} else {fdhandler.outLast})`next
      ensures pool.Valid() && fdhandler.Valid()
      ensures exists h :: fdhandler.queue == old(fdhandler.queue) + [h] + [p]
      ensures forall q :: q in fdhandler.queue ==> q !in pool.items
      ensures |pool.items| - pool.made == |old(pool.items)| - old(pool.made) - 1
      ensures fdhandler.enqueued == old(fdhandler.enqueued) + EncodeFrame(Frame(old(p.channel), old(p.Payload())))
      ensures fdhandler.written == old(fdhandler.written)
    {
      ghost var all := fdhandler.queue;
      assert pool.free != null ==> pool.free == pool.items[0] && pool.free !in all;
      var h := MakeHeader(p.len, p.channel);
      assert h !in all && p !in all + [h];
      EnqueueBoth(h, p);
    }

    // The two packets of a frame.
    method EnqueueBoth(h: Packet, p: Packet)
      requires pool.Valid() && fdhandler.Valid() && h.Valid() && p.Valid() && h != p
      requires h !in fdhandler.queue && p !in fdhandler.queue && h !in pool.items && p !in pool.items
      requires forall q :: q in fdhandler.queue ==> q !in pool.items
      modifies fdhandler, h`next, p`next, (if fdhandler.outLast == null then {} else {fdhandler.outLast})`next
      ensures pool.Valid() && fdhandler.Valid() && fdhandler.queue == old(fdhandler.queue) + [h] + [p]
      ensures forall q :: q in fdhandler.queue ==> q !in pool.items
      ensures fdhandler.enqueued == old(fdhandler.enqueued) + (old(h.Payload()) + old(p.Payload()))
      ensures fdhandler.written == old(fdhandler.written)
    {
      ghost var before, first := fdhandler.enqueued, h.Payload();
      EnqueueOne(h);
      EnqueueOne(p);
      Associative(before, first, p.Payload());
    }
  }
}
