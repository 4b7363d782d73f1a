// The outgoing packet queue of an FDHandler (android/qemud/qemud.c): a singly linked
// list that is appended through a pointer to its last link and drained by partial
// writes to the file descriptor.
module FDHandlers {
  import opened Bytes
  import opened Packets

  function Content(images: seq<Contents>): seq<Byte> {
    if images == [] then [] else images[0].Payload() + Content(images[1..])
  }

  lemma {:induction false} ContentAppend(images: seq<Contents>, image: Contents)
    ensures Content(images + [image]) == Content(images) + image.Payload()
  {
    if images == [] {
      assert images + [image] == [image] && [image][1..] == [];
    } else {
      assert (images + [image])[1..] == images[1..] + [image];
      ContentAppend(images[1..], image);
      Associative(images[0].Payload(), Content(images[1..]), image.Payload());
    }
  }

  // What is queued and not yet written, the head packet being written up to pos.
  function Unwritten(images: seq<Contents>, pos: int): seq<Byte>
    requires PosInFirst(images, pos)
  {
    Content(images)[pos..]
  }

  predicate PosInFirst(images: seq<Contents>, pos: int) {
    0 <= pos && (if |images| == 0 then pos == 0 else pos <= |images[0].Payload()|)
  }

  // No byte is lost, duplicated or reordered.
  predicate Conserves(images: seq<Contents>, pos: int, written: seq<Byte>, enqueued: seq<Byte>) {
    PosInFirst(images, pos) && written + Unwritten(images, pos) == enqueued
  }

  lemma ConservesAppend(images: seq<Contents>, pos: int, written: seq<Byte>, enqueued: seq<Byte>, image: Contents)
    requires Conserves(images, pos, written, enqueued)
    ensures Conserves(images + [image], pos, written, enqueued + image.Payload())
    ensures Unwritten(images + [image], pos) == Unwritten(images, pos) + image.Payload()
  {
    ContentAppend(images, image);
    assert |images| > 0 ==> (images + [image])[0] == images[0];
    Associative(written, Unwritten(images, pos), image.Payload());
  }

  lemma ConservesAdvance(images: seq<Contents>, pos: int, written: seq<Byte>, enqueued: seq<Byte>, n: nat)
    requires Conserves(images, pos, written, enqueued)
    requires |images| > 0 && pos + n <= |images[0].Payload()|
    ensures n <= |Unwritten(images, pos)|
    ensures images[0].Payload()[pos..pos + n] == Unwritten(images, pos)[..n]
    ensures Conserves(images, pos + n, written + Unwritten(images, pos)[..n], enqueued)
  {
    Associative(written, Unwritten(images, pos)[..n], Unwritten(images, pos + n));
    assert Unwritten(images, pos) == Unwritten(images, pos)[..n] + Unwritten(images, pos + n);
  }

  lemma ConservesPop(images: seq<Contents>, pos: int, written: seq<Byte>, enqueued: seq<Byte>)
    requires Conserves(images, pos, written, enqueued)
    requires |images| > 0 && pos == |images[0].Payload()|
    ensures Conserves(images[1..], 0, written, enqueued)
  {
    assert Unwritten(images, pos) == Unwritten(images[1..], 0);
  }

  class FDHandler {
    var outPos: int
    var outFirst: Packet?
    var outLast: Packet?      // owner of the link out_ptail addresses; null stands for &out_first
    var outEnabled: bool      // EPOLLOUT is in the mask the looper monitors

    ghost var queue: seq<Packet>
    ghost var images: seq<Contents>    // what the queued packets hold
    ghost var enqueued: seq<Byte>   // every byte ever enqueued
    ghost var written: seq<Byte>    // every byte the descriptor has accepted

    ghost predicate ImagesMatch()
      reads this, queue
    {
      && |images| == |queue|
      && forall i :: 0 <= i < |queue| ==>
           queue[i].Valid() && images[i] == queue[i].Image()
    }

    // The bytes still to be written.
    ghost function Pending(): seq<Byte>
      requires PosInFirst(images, outPos)
      reads this
    {
      Unwritten(images, outPos)
    }

    // The list and its tail link.
    ghost predicate LinksValid()
      reads this, queue
    {
      && Linked(outFirst, queue)
      && outLast == (if |queue| == 0 then null else queue[|queue| - 1])
      && ImagesMatch()
    }

    ghost predicate Conserved()
      reads this
    {
      Conserves(images, outPos, written, enqueued)
    }

    ghost predicate Valid()
      reads this, queue
    {
      LinksValid() && Conserved() && outEnabled == (|queue| != 0)
    }

    constructor ()
      ensures Valid() && queue == [] && enqueued == [] && written == []
    {
      outPos, outFirst, outLast, outEnabled := 0, null, null, false;
      queue, images, enqueued, written := [], [], [], [];
    }

    // out_ptail[0] = p; out_ptail = &p->next
    method Append(p: Packet)
      requires LinksValid() && p.Valid() && p !in queue
      modifies this`outFirst, this`outLast, this`queue, this`images, p`next,
        (if outLast == null then {} else {outLast})`next
      ensures LinksValid()
      ensures queue == old(queue) + [p] && images == old(images) + [old(p.Image())]
    {
      p.next := null;
      if outLast == null { outFirst := p; } else { outLast.next := p; }
      outLast := p;
      assert ImagesMatch();
      ghost var before, was := queue, images;
      queue, images := queue + [p], images + [p.Image()];
      assert forall i :: 0 <= i < |before| ==> queue[i] == before[i] && images[i] == was[i];
    }

    // fdhandler_enqueue
    method Enqueue(p: Packet)
      requires Valid() && p.Valid() && p !in queue
      modifies this, p`next, (if outLast == null then {} else {outLast})`next
      ensures Valid()
      ensures queue == old(queue) + [p] && images == old(images) + [old(p.Image())]
      ensures outPos == old(outPos)
      ensures Pending() == old(Pending()) + old(p.Payload())
      ensures enqueued == old(enqueued) + old(p.Payload()) && written == old(written)
    {
      var first := outFirst;
      ConservesAppend(images, outPos, written, enqueued, p.Image());
      enqueued := enqueued + p.Payload();
      Append(p);
      if first == null {
        outPos := 0;
        outEnabled := true;
      }
    }

    // Release the packet at the head of the queue.
    method PopFirst(pool: PacketPool)
      requires Linked(outFirst, queue) && ImagesMatch() && |queue| > 0 && pool.Valid()
      requires queue[0] !in pool.items
      modifies this`outFirst, this`queue, this`images, pool, {queue[0]}`next
      ensures pool.Valid() && pool.items == [old(queue)[0]] + old(pool.items)
      ensures queue == old(queue)[1..] && images == old(images)[1..]
      ensures Linked(outFirst, queue) && ImagesMatch()
    {
      var p := outFirst;
      LinkedTail(p, queue);
      outFirst := p.next;
      ghost var before := queue;
      queue, images := queue[1..], images[1..];
      assert forall i :: 0 <= i < |queue| ==> queue[i] == before[i + 1];
      pool.Free(p);
    }

    // Account for the bytes a write accepted from the head packet.
    method Advance(len: nat)
      requires Conserved() && |images| > 0 && outPos + len <= |images[0].Payload()|
      requires outFirst != null && outFirst.Valid() && outFirst.Image() == images[0]
      modifies this`outPos, this`written
      ensures Conserved() && outPos == old(outPos) + len
      ensures len <= |old(Pending())| && written == old(written) + old(Pending())[..len]
    {
      ConservesAdvance(images, outPos, written, enqueued, len);
      SliceOfPrefix(outFirst.data, outPos, outPos + len, outFirst.len);
      written := written + outFirst.data[outPos..outPos + len];
      outPos := outPos + len;
    }

    // Drop the head packet once all of it is written.
    method PopWritten(pool: PacketPool)
      requires Valid() && |queue| > 0 && pool.Valid()
      requires queue[0] !in pool.items && outPos == |images[0].Payload()|
      modifies this`outPos, this`outFirst, this`outLast, this`outEnabled, this`queue, this`images, pool, {queue[0]}`next
      ensures Valid() && outPos == 0
      ensures pool.Valid() && pool.items == [old(queue)[0]] + old(pool.items)
      ensures queue == old(queue)[1..] && images == old(images)[1..]
    {
      ConservesPop(images, outPos, written, enqueued);
      PopFirst(pool);
      outPos := 0;
      if outFirst == null {
        outLast := null;
        outEnabled := false;
      }
    }

    // The EPOLLOUT part of fdhandler_event, where write() returned `len`: negative for
    // an error, otherwise the number of bytes accepted.
    method WriteReady(len: int, pool: PacketPool)
      requires Valid() && pool.Valid()
      requires forall q :: q in queue ==> q !in pool.items
      requires queue != [] ==> len <= |images[0].Payload()| - outPos
      modifies this, pool, (set q | q in queue)`next
      ensures Valid() && pool.Valid()
      ensures enqueued == old(enqueued)
      ensures old(queue) != [] && len > 0 ==> len <= |old(Pending())| && written == old(written) + old(Pending())[..len]
      ensures old(queue) == [] || len <= 0 ==> written == old(written)
      ensures if old(queue) != [] && len >= 0 && old(outPos) + len == |old(images)[0].Payload()|
              then queue == old(queue)[1..] && images == old(images)[1..] && outPos == 0
                   && pool.items == [old(queue)[0]] + old(pool.items)
              else queue == old(queue) && images == old(images) && pool.items == old(pool.items)
                   && outPos == old(outPos) + (if old(queue) != [] && len > 0 then len else 0)
    {
      if outFirst != null && len >= 0 {
        Advance(len);
        assert outFirst == queue[0] && outFirst.Image() == images[0];
        if outPos >= outFirst.len {
          PopWritten(pool);
        }
      }
    }

    // The part of fdhandler_close that releases the outgoing queue.
    method Discard(pool: PacketPool)
      requires Valid() && pool.Valid()
      requires forall q :: q in queue ==> q !in pool.items
      modifies this, pool, (set q | q in queue)`next
      ensures pool.Valid() && outFirst == null && queue == []
      ensures multiset(pool.items) == multiset(old(pool.items)) + multiset(old(queue))
      ensures written == old(written) && enqueued == old(enqueued)
    {
      while outFirst != null
        invariant pool.Valid() && Linked(outFirst, queue) && ImagesMatch()
        invariant forall q :: q in queue ==> q in old(queue) && q !in pool.items
        invariant multiset(pool.items) + multiset(queue) == multiset(old(pool.items)) + multiset(old(queue))
        invariant written == old(written) && enqueued == old(enqueued)
        decreases |queue|
      {
        LinkedTail(outFirst, queue);
        PopFirst(pool);
      }
    }
  }
}
