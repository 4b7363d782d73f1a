// Packets and the free list that recycles them (android/qemud/qemud.c).
module Packets {
  import opened Bytes
  import opened Seqs
  import opened Framing

  // The contents of a packet, as a value.
  datatype Contents = Contents(data: seq<Byte>, len: int) {
    function Payload(): seq<Byte> {
      if 0 <= len <= |data| then data[..len] else []
    }
  }

  // struct Packet. Its data array is embedded in the struct, so it is a field holding
  // MAX_PAYLOAD bytes by value rather than a shared array object.
  class Packet {
    var next: Packet?
    var len: int
    var channel: int
    var data: seq<Byte>

    ghost predicate Valid()
      reads this
    {
      |data| == MAX_PAYLOAD && 0 <= len <= MAX_PAYLOAD
    }

    ghost function Image(): Contents
      reads this
    {
      Contents(data, len)
    }

    ghost function Payload(): seq<Byte>
      reads this
    {
      Image().Payload()
    }

    constructor ()
      ensures Valid() && next == null && len == 0 && channel == -1
    {
      next, len, channel := null, 0, -1;
      data := seq(MAX_PAYLOAD, _ => 0);
    }
  }

  // The i-th packet of a list, or the null that ends it.
  ghost function At(items: seq<Packet>, i: nat): Packet? {
    if i < |items| then items[i] else null
  }

  // `first` heads a null-terminated list of exactly these packets.
  ghost predicate Linked(first: Packet?, items: seq<Packet>)
    reads items
  {
    && NoDup(items)
    && first == At(items, 0)
    && forall i {:trigger items[i].next} :: 0 <= i < |items| ==> items[i].next == At(items, i + 1)
  }

  lemma LinkedTail(first: Packet, items: seq<Packet>)
    requires Linked(first, items)
    ensures |items| > 0 && first == items[0]
    ensures Linked(first.next, items[1..]) && first !in items[1..]
    ensures multiset(items) == multiset{first} + multiset(items[1..])
  {
    assert forall i :: 0 <= i < |items[1..]| ==> items[1..][i] == items[i + 1];
    assert items == [first] + items[1..];
  }

  ghost predicate AllValid(items: seq<Packet>)
    reads items
  {
    forall i :: 0 <= i < |items| ==> items[i].Valid()
  }

  // The stack of free packets, _free_packets.
  class PacketPool {
    var free: Packet?
    ghost var items: seq<Packet>
    ghost var made: nat             // packets allocated so far

    ghost predicate Valid()
      reads this, items
    {
      Linked(free, items) && AllValid(items)
    }

    constructor ()
      ensures Valid() && items == [] && made == 0
    {
      free, items, made := null, [], 0;
    }

    // packet_alloc: pop the free list, or allocate when it is empty.
    method Alloc() returns (p: Packet)
      requires Valid()
      modifies this, if free == null then {} else {free}
      ensures Valid() && p !in items
      ensures if old(items) == [] then fresh(p) && items == [] else p == old(items)[0] && items == old(items)[1..]
      ensures made == old(made) + if old(items) == [] then 1 else 0
      ensures p.Valid() && p.next == null && p.len == 0 && p.channel == -1
    {
      if free != null {
        p := free;
        ghost var before := items;
        free, items := p.next, items[1..];
        p.next, p.len, p.channel := null, 0, -1;
        assert forall i :: 0 <= i < |items| ==> items[i] == before[i + 1];
      } else {
        p := new Packet();
        made := made + 1;
      }
    }

    // packet_free: push on the free list. A packet already there must not come again.
    method Free(p: Packet)
      requires Valid() && p.Valid() && p !in items
      modifies this`free, this`items, p`next
      ensures Valid() && items == [p] + old(items)
    {
      p.next := free;
      ghost var before := items;
      free, items := p, [p] + items;
      assert forall i :: 1 <= i < |items| ==> items[i] == before[i - 1];
    }
  }
}
