// The Multiplexer and Client objects of qemud as they are in memory
// (android/qemud/qemud.c): clients are linked both ways, the way back being the address
// of the pointer that leads to a client. Every method does to these objects what the
// function of the same name does to the multiplexer's state.
module MuxObject {
  import opened Bytes
  import opened Seqs
  import opened Framing
  import opened Channels
  import opened Multiplexer
  import Hex

  // The pointer that leads to a client: the list's own, or another client's next.
  datatype Pref = Head | NextOf(c: Node)

  class Node {
    var next: Node?
    var pref: Pref
    var channel: int
    var registered: bool
    const fd: int
    var out: OutQueue        // the handler's queue

    constructor (fd: int)
      ensures this.fd == fd && Value() == Client(fd, -1, false, EmptyQueue) && next == null && pref == Head
    {
      this.fd := fd;
      next, pref, channel, registered, out := null, Head, -1, false, EmptyQueue;
    }

    function Value(): Client
      reads this
    {
      Client(fd, channel, registered, out)
    }
  }

  ghost function At(nodes: seq<Node>, i: int): Node? {
    if 0 <= i < |nodes| then nodes[i] else null
  }

  ghost function Before(nodes: seq<Node>, i: int): Pref
    requires 0 <= i <= |nodes|
  {
    if i == 0 then Head else NextOf(nodes[i - 1])
  }

  ghost predicate Linked(first: Node?, nodes: seq<Node>)
    reads nodes
  {
    && NoDup(nodes)
    && first == At(nodes, 0)
    && (forall i {:trigger nodes[i].next} :: 0 <= i < |nodes| ==> nodes[i].next == At(nodes, i + 1))
    && (forall i {:trigger nodes[i].pref} :: 0 <= i < |nodes| ==> nodes[i].pref == Before(nodes, i))
  }

  ghost function ValuesOf(nodes: seq<Node>): (r: seq<Client>)
    reads nodes
    ensures |r| == |nodes| && forall i :: 0 <= i < |nodes| ==> r[i] == nodes[i].Value()
  {
    seq(|nodes|, i requires 0 <= i < |nodes| reads nodes => nodes[i].Value())
  }

  // The first client found going down the list is the one the search on values finds.
  lemma {:induction false} FoundFirst(clients: seq<Client>, channel: int, i: nat)
    requires i < |clients| && clients[i].channel == channel
    requires forall j :: 0 <= j < i ==> clients[j].channel != channel
    ensures FindChannel(clients, channel) == i
  {
    if i > 0 {
      FoundFirst(clients[1..], channel, i - 1);
    }
  }

  lemma {:induction false} FoundFirstFd(clients: seq<Client>, fd: int, i: nat)
    requires i < |clients| && clients[i].fd == fd
    requires forall j :: 0 <= j < i ==> clients[j].fd != fd
    ensures FindFd(clients, fd) == i
  {
    if i > 0 {
      FoundFirstFd(clients[1..], fd, i - 1);
    }
  }

  lemma ValuesWithout(nodes: seq<Node>, i: nat)
    requires i < |nodes|
    ensures ValuesOf(Without(nodes, i)) == Without(ValuesOf(nodes), i)
  {
  }

  lemma ValuesFirst(c: Node, nodes: seq<Node>)
    ensures ValuesOf([c] + nodes) == [c.Value()] + ValuesOf(nodes)
  {
  }

  class Mux {
    var clients: Node?
    ghost var nodes: seq<Node>
    var lastChannel: int
    var pool: Pool
    ghost var lost: seq<nat>
    var closing: seq<Closing>
    var serial: OutQueue
    var rx: Rx
    var inId: nat

    ghost predicate Valid()
      reads this, nodes
    {
      Linked(clients, nodes)
    }

    ghost function Now(): State
      reads this, nodes
    {
      State(pool, lost, ValuesOf(nodes), closing, lastChannel, serial, rx, inId)
    }

    // Clients come from where they were, or are new.
    twostate predicate Kept()
      reads this
    {
      forall i :: 0 <= i < |nodes| ==> nodes[i] in old(nodes) || fresh(nodes[i])
    }

    constructor ()
      ensures Valid() && Now() == Initial && nodes == []
    {
      clients, nodes, lastChannel, pool, lost := null, [], 0, Pool([], 1), [];
      closing, serial, rx, inId := [], EmptyQueue, Rx([], 0, 0), 0;
    }

    // client_new
    method ClientNew(fd: int) returns (c: Node)
      requires Valid()
      modifies this`clients, this`nodes, if clients == null then {} else {clients}`pref
      ensures Valid() && fresh(c) && nodes == [c] + old(nodes)
      ensures ValuesOf(nodes) == [Client(fd, -1, false, EmptyQueue)] + old(ValuesOf(nodes))
    {
      c := new Node(fd);
      LinkFirst(c);
      ValuesFirst(c, nodes);
      nodes := [c] + nodes;
    }

    // A new client's pointers, and those that lead to it.
    method LinkFirst(c: Node)
      requires Valid() && c !in nodes && c.pref == Head
      modifies this`clients, c`next, if clients == null then {} else {clients}`pref
      ensures Linked(clients, [c] + nodes)
      ensures ValuesOf(nodes) == old(ValuesOf(nodes)) && c.Value() == old(c.Value())
    {
      ghost var values := ValuesOf(nodes);
      ghost var all := [c] + nodes;
      c.next := clients;
      clients := c;
      if c.next != null {
        c.next.pref := NextOf(c);
      }
      NoDupFirst(c, nodes);
      forall k | 0 <= k < |all|
        ensures all[k].next == At(all, k + 1) && all[k].pref == Before(all, k)
      {
        if k > 0 {
          assert all[k] == nodes[k - 1];
          assert old(nodes[k - 1].next) == At(nodes, k) && old(nodes[k - 1].pref) == Before(nodes, k - 1);
        }
      }
      SameValues(values);
    }

    // The pointers around a client lead past it.
    method Relink(c: Node, ghost i: nat)
      requires Valid() && i < |nodes| && nodes[i] == c
      modifies this`clients, nodes`next, nodes`pref
      ensures Linked(clients, Without(nodes, i)) && ValuesOf(nodes) == old(ValuesOf(nodes))
    {
      assert c.pref == Before(nodes, i) && c.next == At(nodes, i + 1);
      match c.pref {
        case Head => clients := c.next;
        case NextOf(p) => p.next := c.next;
      }
      if c.next != null {
        c.next.pref := c.pref;
      }
      ghost var rest := Without(nodes, i);
      NoDupWithout(nodes, i);
      forall k | 0 <= k < |rest|
        ensures rest[k].next == At(rest, k + 1) && rest[k].pref == Before(rest, k)
      {
        var j := if k < i then k else k + 1;
        assert rest[k] == nodes[j];
        assert old(nodes[j].next) == At(nodes, j + 1) && old(nodes[j].pref) == Before(nodes, j);
        if j == i - 1 {
          assert nodes[j].next == At(nodes, i + 1);
        } else if j == i + 1 {
          assert nodes[j].pref == Before(nodes, i);
        }
      }
      SameValues(old(ValuesOf(nodes)));
    }

    lemma SameValues(before: seq<Client>)
      requires |before| == |nodes| && forall j :: 0 <= j < |nodes| ==> nodes[j].Value() == before[j]
      ensures ValuesOf(nodes) == before
    {
    }

    // Take a client out of the list.
    method Unlink(c: Node, ghost i: nat)
      requires Valid() && i < |nodes| && nodes[i] == c
      modifies this`clients, this`nodes, nodes`next, nodes`pref
      ensures Kept()
      ensures Valid() && nodes == Without(old(nodes), i)
      ensures ValuesOf(nodes) == Without(old(ValuesOf(nodes)), i)
    {
      Relink(c, i);
      ValuesWithout(nodes, i);
      WithoutIn(nodes, i);
      nodes := Without(nodes, i);
    }

    // client_free
    method ClientFree(c: Node, ghost i: nat)
      requires Valid() && i < |nodes| && nodes[i] == c
      modifies this`clients, this`nodes, this`closing, nodes`next, nodes`pref
      ensures Kept()
      ensures Valid() && nodes == Without(old(nodes), i)
      ensures Now() == FreeClient(old(Now()), i)
    {
      Unlink(c, i);
      if c.out.pkts != [] {
        closing := [Closing(c.fd, c.out)] + closing;
      }
    }

    // multiplexer_find_client
    method FindClient(channel: int) returns (c: Node?, ghost i: int)
      requires Valid()
      ensures i == FindChannel(Now().clients, channel) && c == At(nodes, i)
    {
      c, i := clients, 0;
      while c != null
        invariant 0 <= i <= |nodes| && c == At(nodes, i)
        invariant forall j :: 0 <= j < i ==> Now().clients[j].channel != channel
        decreases |nodes| - i
      {
        if c.channel == channel {
          FoundFirst(Now().clients, channel, i);
          return;
        }
        c, i := c.next, i + 1;
      }
      i := -1;
    }

    // A client's fields are changed, and with them the state.
    lemma OneChanged(before: seq<Client>, i: nat)
      requires i < |nodes| == |before| && forall j :: 0 <= j < |nodes| && j != i ==> nodes[j].Value() == before[j]
      ensures ValuesOf(nodes) == before[i := nodes[i].Value()]
    {
    }

    // client_registration
    method ClientRegistration(c: Node, registered: bool, ghost i: nat)
      requires Valid() && i < |nodes| && nodes[i] == c
      modifies this`pool, c`out, c`registered, c`channel
      ensures Valid() && Now() == Registration(old(Now()), i, registered)
    {
      ghost var before := ValuesOf(nodes);
      var p := Pkt(pool.Top(), if registered then OkText() else KoText());
      pool := pool.Alloc();
      c.out := c.out.Push(p);
      c.registered := registered;
      if !registered {
        c.channel := -1;
      }
      OneChanged(before, i);
    }

    // The answer to a registration, for the client that waits on the channel, if it is
    // still there.
    method Answered(channel: int, ok: bool)
      requires Valid()
      modifies this`pool, nodes`out, nodes`registered, nodes`channel
      ensures Valid() && Now() == HandleControl(old(Now()), if ok then OkConnect(channel) else KoConnect(channel))
    {
      var c, i := FindClient(channel);
      if c != null {
        ClientRegistration(c, ok, i);
      }
    }

    method Disconnected(channel: int)
      requires Valid()
      modifies this`clients, this`nodes, this`closing, nodes`next, nodes`pref
      ensures Kept()
      ensures Valid() && Now() == HandleControl(old(Now()), Disconnect(channel))
    {
      var c, i := FindClient(channel);
      if c != null {
        ClientFree(c, i);
      }
    }

    // The comparisons of multiplexer_handle_control.
    method Command(payload: seq<Byte>) returns (k: Control)
      ensures k == ParseControl(payload)
    {
      assert |payload| == 13 ==> payload[11..][..2] == payload[11..];
      if |payload| == 13 && payload[..11] == Ascii("ok:connect:") {
        var channel := Hex.Hex2Int(payload[11..], 2);
        return OkConnect(channel);
      }
      if |payload| == 13 && payload[..11] == Ascii("ko:connect:") {
        var channel := Hex.Hex2Int(payload[11..], 2);
        return KoConnect(channel);
      }
      if |payload| == 13 && payload[..11] == Ascii("disconnect:") {
        var channel := Hex.Hex2Int(payload[11..], 2);
        return Disconnect(channel);
      }
      k := OtherControl;
    }

    method Obey(k: Control)
      requires Valid()
      modifies this`clients, this`nodes, this`closing, this`pool, nodes
      ensures Kept()
      ensures Valid() && Now() == HandleControl(old(Now()), k)
    {
      match k {
        case OkConnect(channel) => Answered(channel, true);
        case KoConnect(channel) => Answered(channel, false);
        case Disconnect(channel) => Disconnected(channel);
        case OtherControl =>
      }
    }

    // multiplexer_handle_control
    method ControlReceived(payload: seq<Byte>, id: nat)
      requires Valid()
      modifies this`clients, this`nodes, this`closing, this`pool, nodes
      ensures Kept()
      ensures Valid() && Now() == FreeId(HandleControl(old(Now()), ParseControl(payload)), id)
    {
      var k := Command(payload);
      Obey(k);
      pool := pool.Free(id);
    }

    // client_send
    method ClientSend(c: Node, p: Pkt, ghost i: nat)
      requires Valid() && i < |nodes| && nodes[i] == c
      modifies c`out
      ensures Valid() && ValuesOf(nodes) == old(ValuesOf(nodes))[i := old(c.Value()).(out := old(c.out).Push(p))]
    {
      ghost var before := ValuesOf(nodes);
      c.out := c.out.Push(p);
      OneChanged(before, i);
    }

    // multiplexer_serial_receive
    method SerialReceive(f: Frame, id: nat)
      requires Valid()
      modifies this`clients, this`nodes, this`closing, this`pool, nodes
      ensures Kept()
      ensures Valid() && Now() == Serve(old(Now()), f, id)
    {
      if f.channel == 0 {
        ControlReceived(f.payload, id);
        return;
      }
      var c, i := FindClient(f.channel);
      if c != null {
        ClientSend(c, Pkt(id, f.payload), i);
        return;
      }
      pool := pool.Free(id);
    }

    // serial_send: the header in a packet of its own, then the packet
    method SendOnChannel(channel: int, id: nat, data: seq<Byte>)
      requires Valid()
      modifies this`pool, this`serial
      ensures Valid() && Now() == SerialSend(old(Now()), channel, id, data)
    {
      serial := serial.Push(Pkt(pool.Top(), Header(channel, |data|)));
      pool := pool.Alloc();
      serial := serial.Push(Pkt(id, data));
    }

    // Is the channel held? One turn of the TRY_AGAIN search.
    method IsHeld(channel: int) returns (held: bool)
      requires Valid()
      ensures held <==> channel in ChannelsOf(Now().clients)
    {
      var c, i := FindClient(channel);
      held := c != null;
      if held {
        assert ChannelsOf(Now().clients)[i] == channel;
      }
    }

    // The TRY_AGAIN search of multiplexer_open_channel.
    method NextChannel() returns (channel: int)
      requires Valid() && SomeFree(ChannelsOf(Now().clients))
      modifies this`lastChannel
      ensures Valid() && lastChannel == Next(ChannelsOf(old(Now()).clients), old(lastChannel))
      ensures channel == lastChannel % CHANNELS
    {
      ghost var channels, last := ChannelsOf(Now().clients), lastChannel;
      var held := true;
      channel := 0;
      while held
        invariant last <= lastChannel && ChannelsOf(Now().clients) == channels
        invariant held ==> forall v :: last < v <= lastChannel ==> v % CHANNELS in channels
        invariant !held ==> IsNext(channels, last, lastChannel) && channel == lastChannel % CHANNELS
        decreases if held then last + CHANNELS + 1 - lastChannel else -1
      {
        StillSearching(channels, last, lastChannel + 1);
        lastChannel := lastChannel + 1;
        channel := lastChannel % CHANNELS;
        held := IsHeld(channel);
      }
      NextIsUnique(channels, last, lastChannel, Next(channels, last));
    }

    // multiplexer_open_channel: a free channel, and the request for it on the way; or -1
    // if the service name is too long for a packet.
    method OpenChannel(service: seq<Byte>) returns (channel: int)
      requires Valid() && SomeFree(ChannelsOf(Now().clients))
      modifies this`pool, this`lastChannel, this`serial
      ensures Valid()
      ensures var s := old(Now()); var last := Next(ChannelsOf(s.clients), s.last);
              var s1 := AllocInto(s).(last := last);
              var text := ConnectText(service, last % CHANNELS);
              && channel == (if |text| >= MAX_PAYLOAD then -1 else last % CHANNELS)
              && Now() == if channel < 0 then FreeId(s1, s.pool.Top()) else SerialSend(s1, 0, s.pool.Top(), text)
    {
      var p := pool.Top();
      pool := pool.Alloc();
      channel := NextChannel();
      var text := ConnectText(service, channel);
      if |text| >= MAX_PAYLOAD {
        pool := pool.Free(p);
        return -1;
      }
      SendOnChannel(0, p, text);
    }

    // client_fd_receive
    method ClientFdReceive(c: Node, data: seq<Byte>, id: nat, ghost i: nat)
      requires Valid() && i < |nodes| && nodes[i] == c
      requires !c.registered && c.channel <= 0 ==> SomeFree(ChannelsOf(Now().clients))
      modifies this`pool, this`lastChannel, this`serial, this`clients, this`nodes, this`closing,
        nodes`next, nodes`pref, c`channel
      ensures Kept()
      ensures Valid() && Now() == ClientReceive(old(Now()), i, data, id).next
    {
      if c.registered {
        SendOnChannel(c.channel, id, data);
        return;
      }
      if c.channel > 0 {
        pool := pool.Free(id);
        ClientFree(c, i);
        return;
      }
      Register(c, data, id, i);
    }

    // The rest of client_fd_receive: data is the name of a service.
    method Register(c: Node, data: seq<Byte>, id: nat, ghost i: nat)
      requires Valid() && i < |nodes| && nodes[i] == c && SomeFree(ChannelsOf(Now().clients))
      modifies this`pool, this`lastChannel, this`serial, this`clients, this`nodes, this`closing,
        nodes`next, nodes`pref, c`channel
      ensures Kept()
      ensures Valid() && Now() == Multiplexer.OpenChannel(old(Now()), i, data, id).next
    {
      var channel := OpenChannel(data);
      pool := pool.Free(id);
      if channel < 0 {
        ClientFree(c, i);
        return;
      }
      SetChannel(c, channel, i);
    }

    method SetChannel(c: Node, channel: int, ghost i: nat)
      requires Valid() && i < |nodes| && nodes[i] == c
      modifies c`channel
      ensures Valid() && Now() == SetClient(old(Now()), i, old(c.Value()).(channel := channel))
    {
      ghost var before := ValuesOf(nodes);
      c.channel := channel;
      OneChanged(before, i);
    }

    // multiplexer_close_channel
    method CloseChannel(channel: int)
      requires Valid()
      modifies this`pool, this`serial
      ensures Valid()
      ensures Now() == SerialSend(AllocInto(old(Now())), 0, old(pool).Top(), DisconnectText(channel))
    {
      var p := pool.Top();
      pool := pool.Alloc();
      SendOnChannel(0, p, DisconnectText(channel));
    }

    // fdhandler_close and client_fd_close
    method ClientClosed(c: Node, ghost i: nat)
      requires Valid() && i < |nodes| && nodes[i] == c
      modifies this`pool, this`serial, this`clients, this`nodes, nodes`next, nodes`pref
      ensures Kept()
      ensures Valid() && Now() == HangUp(old(Now()), i).next
    {
      if c.channel > 0 {
        CloseChannel(c.channel);
      }
      Discard(c, i);
    }

    // The client and the packets of its handler are given up.
    method Discard(c: Node, ghost i: nat)
      requires Valid() && i < |nodes| && nodes[i] == c
      modifies this`pool, this`clients, this`nodes, nodes`next, nodes`pref
      ensures Kept()
      ensures Valid() && pool == FreeAll(old(pool), old(c.out).pkts)
      ensures ValuesOf(nodes) == Without(old(ValuesOf(nodes)), i)
    {
      Unlink(c, i);
      FreePackets(c.out.pkts);
    }

    method FreePackets(pkts: seq<Pkt>)
      modifies this`pool
      ensures pool == FreeAll(old(pool), pkts)
    {
      var n := 0;
      while n < |pkts|
        invariant 0 <= n <= |pkts| && FreeAll(pool, pkts[n..]) == FreeAll(old(pool), pkts)
      {
        assert pkts[n..][1..] == pkts[n + 1..];
        pool := pool.Free(pkts[n].id);
        n := n + 1;
      }
    }

    // The client behind a descriptor, which the event loop's hook points to.
    method FindByFd(fd: int) returns (c: Node?, ghost i: int)
      requires Valid()
      ensures i == FindFd(Now().clients, fd) && c == At(nodes, i)
    {
      c, i := clients, 0;
      while c != null
        invariant 0 <= i <= |nodes| && c == At(nodes, i)
        invariant forall j :: 0 <= j < i ==> Now().clients[j].fd != fd
        decreases |nodes| - i
      {
        if c.fd == fd {
          FoundFirstFd(Now().clients, fd, i);
          return;
        }
        c, i := c.next, i + 1;
      }
      i := -1;
    }
  }
}
