// Packet ownership in the qemud multiplexer (android/qemud/qemud.c): over every run each
// packet ever allocated is in exactly one place, once, and only a read that returns 0
// loses one.
module MuxOwnership {
  import opened Bytes
  import opened Seqs
  import opened Framing
  import opened Channels
  import opened Multiplexer

  // ------------------------------------------------- how often a packet occurs

  function InList(ids: seq<nat>, id: nat): nat {
    if ids == [] then 0 else (if ids[0] == id then 1 else 0) + InList(ids[1..], id)
  }

  function InQueue(pkts: seq<Pkt>, id: nat): nat {
    if pkts == [] then 0 else (if pkts[0].id == id then 1 else 0) + InQueue(pkts[1..], id)
  }

  function InClients(clients: seq<Client>, id: nat): nat {
    if clients == [] then 0 else InQueue(clients[0].out.pkts, id) + InClients(clients[1..], id)
  }

  function InClosing(closing: seq<Closing>, id: nat): nat {
    if closing == [] then 0 else InQueue(closing[0].out.pkts, id) + InClosing(closing[1..], id)
  }

  // All the places a packet can be: free, lost, queued for the serial port or for a
  // client, or being filled by the frame receiver.
  function Places(s: State, id: nat): nat {
    InList(s.pool.free, id) + InList(s.lost, id) + InQueue(s.serial.pkts, id) + (if s.inId == id then 1 else 0)
    + InClients(s.clients, id) + InClosing(s.closing, id)
  }

  function Is(id: nat, other: nat): nat {
    if id == other then 1 else 0
  }

  // Packet `id` is in one place if it was ever allocated and in none otherwise,
  // counting `hand` for the packets the running callback holds.
  predicate Accounted(s: State, id: nat, hand: int) {
    Places(s, id) + hand == if id < s.pool.made then 1 else 0
  }

  // --------------------------------------------------------- counting lemmas

  lemma {:induction false} QueuePush(pkts: seq<Pkt>, p: Pkt, id: nat)
    ensures InQueue(pkts + [p], id) == InQueue(pkts, id) + Is(p.id, id)
  {
    if pkts == [] {
      assert pkts + [p] == [p] && [p][1..] == [];
    } else {
      assert (pkts + [p])[1..] == pkts[1..] + [p];
      QueuePush(pkts[1..], p, id);
    }
  }

  lemma {:induction false} ClientsSet(clients: seq<Client>, i: nat, c: Client, id: nat)
    requires i < |clients|
    ensures InClients(clients[i := c], id) + InQueue(clients[i].out.pkts, id)
         == InClients(clients, id) + InQueue(c.out.pkts, id)
  {
    if i == 0 {
      assert clients[i := c][1..] == clients[1..];
    } else {
      assert clients[i := c][1..] == clients[1..][i - 1 := c];
      ClientsSet(clients[1..], i - 1, c, id);
    }
  }

  lemma {:induction false} ClientsWithout(clients: seq<Client>, i: nat, id: nat)
    requires i < |clients|
    ensures InClients(Without(clients, i), id) + InQueue(clients[i].out.pkts, id) == InClients(clients, id)
  {
    if i == 0 {
      assert Without(clients, i) == clients[1..];
    } else {
      assert Without(clients, i)[0] == clients[0] && Without(clients, i)[1..] == Without(clients[1..], i - 1);
      ClientsWithout(clients[1..], i - 1, id);
    }
  }

  lemma {:induction false} ClosingSet(closing: seq<Closing>, i: nat, c: Closing, id: nat)
    requires i < |closing|
    ensures InClosing(closing[i := c], id) + InQueue(closing[i].out.pkts, id)
         == InClosing(closing, id) + InQueue(c.out.pkts, id)
  {
    if i == 0 {
      assert closing[i := c][1..] == closing[1..];
    } else {
      assert closing[i := c][1..] == closing[1..][i - 1 := c];
      ClosingSet(closing[1..], i - 1, c, id);
    }
  }

  lemma {:induction false} ClosingWithout(closing: seq<Closing>, i: nat, id: nat)
    requires i < |closing|
    ensures InClosing(Without(closing, i), id) + InQueue(closing[i].out.pkts, id) == InClosing(closing, id)
  {
    if i == 0 {
      assert Without(closing, i) == closing[1..];
    } else {
      assert Without(closing, i)[0] == closing[0] && Without(closing, i)[1..] == Without(closing[1..], i - 1);
      ClosingWithout(closing[1..], i - 1, id);
    }
  }

  lemma ListPush(ids: seq<nat>, x: nat, id: nat)
    ensures InList([x] + ids, id) == Is(x, id) + InList(ids, id)
  {
    assert ([x] + ids)[1..] == ids;
  }

  lemma {:induction false} FreeAllCounts(pool: Pool, pkts: seq<Pkt>, id: nat)
    ensures FreeAll(pool, pkts).made == pool.made
    ensures InList(FreeAll(pool, pkts).free, id) == InList(pool.free, id) + InQueue(pkts, id)
    decreases |pkts|
  {
    if pkts != [] {
      ListPush(pool.free, pkts[0].id, id);
      FreeAllCounts(pool.Free(pkts[0].id), pkts[1..], id);
    }
  }

  // ------------------------------------------------ operations keep the account

  lemma Alloc(s: State, id: nat, hand: int)
    requires Accounted(s, id, hand)
    ensures Accounted(AllocInto(s), id, hand + Is(s.pool.Top(), id))
  {
  }

  lemma Free(s: State, x: nat, id: nat, hand: int)
    requires Accounted(s, id, hand)
    ensures Accounted(FreeId(s, x), id, hand - Is(x, id))
  {
    ListPush(s.pool.free, x, id);
  }

  lemma Send(s: State, channel: int, x: nat, data: seq<Byte>, id: nat, hand: int)
    requires Accounted(s, id, hand)
    ensures Accounted(SerialSend(s, channel, x, data), id, hand - Is(x, id))
  {
    Alloc(s, id, hand);
    var h := Pkt(s.pool.Top(), Header(channel, |data|));
    QueuePush(s.serial.pkts, h, id);
    QueuePush(s.serial.pkts + [h], Pkt(x, data), id);
  }

  // Queueing packet p for client i.
  lemma PushToClient(s: State, i: nat, c: Client, p: Pkt, id: nat, hand: int)
    requires i < |s.clients| && c.out == s.clients[i].out.Push(p)
    requires Accounted(s, id, hand)
    ensures Accounted(SetClient(s, i, c), id, hand - Is(p.id, id))
  {
    ClientsSet(s.clients, i, c, id);
    QueuePush(s.clients[i].out.pkts, p, id);
  }

  // Changing what is known of client i other than its queue.
  lemma Relabel(s: State, i: nat, c: Client, id: nat, hand: int)
    requires i < |s.clients| && c.out == s.clients[i].out && Accounted(s, id, hand)
    ensures Accounted(SetClient(s, i, c), id, hand)
  {
    ClientsSet(s.clients, i, c, id);
  }

  lemma Drop(s: State, i: nat, id: nat, hand: int)
    requires i < |s.clients| && Accounted(s, id, hand)
    ensures Accounted(FreeClient(s, i), id, hand)
  {
    ClientsWithout(s.clients, i, id);
    var c := s.clients[i];
    assert ([Closing(c.fd, c.out)] + s.closing)[1..] == s.closing;
  }

  lemma Register(s: State, i: nat, ok: bool, id: nat, hand: int)
    requires i < |s.clients| && Accounted(s, id, hand)
    ensures Accounted(Registration(s, i, ok), id, hand)
  {
    Alloc(s, id, hand);
    PushToClient(AllocInto(s), i, Registration(s, i, ok).clients[i],
                 Pkt(s.pool.Top(), if ok then OkText() else KoText()), id, hand + Is(s.pool.Top(), id));
  }

  lemma Obey(s: State, control: Control, id: nat, hand: int)
    requires Accounted(s, id, hand)
    ensures Accounted(HandleControl(s, control), id, hand)
  {
    if !control.OtherControl? {
      var i := FindChannel(s.clients, control.channel);
      if i >= 0 {
        match control
        case OkConnect(channel) => Register(s, i, true, id, hand);
        case KoConnect(channel) => Register(s, i, false, id, hand);
        case Disconnect(channel) => Drop(s, i, id, hand);
        case OtherControl =>
      }
    }
  }

  lemma ServeOne(s: State, f: Frame, x: nat, id: nat, hand: int)
    requires Accounted(s, id, hand)
    ensures Accounted(Serve(s, f, x), id, hand - Is(x, id))
  {
    if f.channel == 0 {
      Obey(s, ParseControl(f.payload), id, hand);
      Free(HandleControl(s, ParseControl(f.payload)), x, id, hand);
    } else {
      var i := FindChannel(s.clients, f.channel);
      if i >= 0 {
        var c, p := s.clients[i], Pkt(x, f.payload);
        PushToClient(s, i, c.(out := c.out.Push(p)), p, id, hand);
      } else {
        Free(s, x, id, hand);
      }
    }
  }

  lemma KeepsInId(s: State, f: Frame, x: nat)
    ensures Serve(s, f, x).inId == s.inId && Serve(s, f, x).lost == s.lost
  {
  }

  // in_packet leaves for the receiver and its replacement comes.
  lemma {:induction false} ServeMany(s: State, frames: seq<Frame>, id: nat, hand: int)
    requires Accounted(s, id, hand)
    ensures Accounted(ServeAll(s, frames), id, hand) && ServeAll(s, frames).lost == s.lost
    decreases |frames|
  {
    if frames != [] {
      var x := s.inId;
      var s1 := Serve(s, frames[0], x);
      // for a moment the packet is both in_packet and where it was delivered
      ServeOne(s, frames[0], x, id, hand);
      KeepsInId(s, frames[0], x);
      Alloc(s1, id, hand - Is(x, id));
      var s2 := AllocInto(s1).(inId := s1.pool.Top());
      assert Accounted(s2, id, hand);
      ServeMany(s2, frames[1..], id, hand);
    }
  }

  lemma OpenAccount(s: State, i: nat, service: seq<Byte>, x: nat, id: nat)
    requires i < |s.clients| && SomeFree(ChannelsOf(s.clients)) && Accounted(s, id, Is(x, id))
    ensures Accounted(OpenChannel(s, i, service, x).next, id, 0)
    ensures OpenChannel(s, i, service, x).next.lost == s.lost
  {
    var last := Next(ChannelsOf(s.clients), s.last);
    var channel := last % CHANNELS;
    var text := ConnectText(service, channel);
    var y := s.pool.Top();
    var s1 := AllocInto(s).(last := last);
    Alloc(s, id, Is(x, id));
    assert Accounted(s1, id, Is(x, id) + Is(y, id));
    if |text| >= MAX_PAYLOAD {
      Free(s1, y, id, Is(x, id) + Is(y, id));
      Free(FreeId(s1, y), x, id, Is(x, id));
      Drop(FreeId(FreeId(s1, y), x), i, id, 0);
    } else {
      Send(s1, 0, y, text, id, Is(x, id) + Is(y, id));
      var s2 := SerialSend(s1, 0, y, text);
      Relabel(s2, i, s2.clients[i].(channel := channel), id, Is(x, id));
      Free(SetClient(s2, i, s2.clients[i].(channel := channel)), x, id, Is(x, id));
    }
  }

  lemma ReceiveAccount(s: State, i: nat, data: seq<Byte>, x: nat, id: nat)
    requires i < |s.clients| && Accounted(s, id, Is(x, id))
    requires !s.clients[i].registered && s.clients[i].channel <= 0 ==> SomeFree(ChannelsOf(s.clients))
    ensures Accounted(ClientReceive(s, i, data, x).next, id, 0)
    ensures ClientReceive(s, i, data, x).next.lost == s.lost
  {
    var c := s.clients[i];
    if c.registered {
      Send(s, c.channel, x, data, id, Is(x, id));
    } else if c.channel > 0 {
      Free(s, x, id, Is(x, id));
      Drop(FreeId(s, x), i, id, 0);
    } else {
      OpenAccount(s, i, data, x, id);
    }
  }

  lemma HangUpAccount(s: State, i: nat, id: nat)
    requires i < |s.clients| && Accounted(s, id, 0)
    ensures Accounted(HangUp(s, i).next, id, 0) && HangUp(s, i).next.lost == s.lost
  {
    var c := s.clients[i];
    var y, text := s.pool.Top(), DisconnectText(c.channel);
    if c.channel > 0 {
      Alloc(s, id, 0);
      Send(AllocInto(s), 0, y, text, id, Is(y, id));
    }
    var s1 := if c.channel > 0 then SerialSend(AllocInto(s), 0, y, text) else s;
    ClientsWithout(s1.clients, i, id);
    FreeAllCounts(s1.pool, c.out.pkts, id);
  }

  lemma WriteAccount(q: OutQueue, pool: Pool, n: int, id: nat)
    requires q.Valid() && q.CanWrite(n)
    ensures var (q', pool') := Write(q, pool, n);
            pool'.made == pool.made &&
            InList(pool'.free, id) + InQueue(q'.pkts, id) == InList(pool.free, id) + InQueue(q.pkts, id)
  {
    ListPush(pool.free, q.pkts[0].id, id);
  }

  lemma ClientWriteAccount(s: State, fd: int, n: int, id: nat)
    requires Enabled(s, ClientWrite(fd, n)) && Accounted(s, id, 0)
    ensures Accounted(Step(s, ClientWrite(fd, n)).next, id, 0)
    ensures Step(s, ClientWrite(fd, n)).next.lost == s.lost
  {
    var i := FindFd(s.clients, fd);
    if i >= 0 {
      var c := s.clients[i];
      WriteAccount(c.out, s.pool, n, id);
      ClientsSet(s.clients, i, c.(out := c.out.AfterWrite(n)), id);
    } else {
      var j := FindClosing(s.closing, fd);
      WriteAccount(s.closing[j].out, s.pool, n, id);
      ClosingSet(s.closing, j, Closing(fd, s.closing[j].out.AfterWrite(n)), id);
    }
  }

  lemma ClosingAccount(s: State, j: nat, id: nat)
    requires j < |s.closing| && Accounted(s, id, 0)
    ensures Accounted(s.(closing := Without(s.closing, j), pool := FreeAll(s.pool, s.closing[j].out.pkts)), id, 0)
  {
    ClosingWithout(s.closing, j, id);
    FreeAllCounts(s.pool, s.closing[j].out.pkts, id);
  }

  lemma SerialReadAccount(s: State, frames: seq<Frame>, id: nat)
    requires Accounted(s, id, 0)
    ensures Accounted(FreeId(ServeAll(AllocInto(s), frames), s.pool.Top()), id, 0)
    ensures ServeAll(AllocInto(s), frames).lost == s.lost
  {
    var x := s.pool.Top();
    Alloc(s, id, 0);
    ServeMany(AllocInto(s), frames, id, Is(x, id));
    Free(ServeAll(AllocInto(s), frames), x, id, Is(x, id));
  }

  // The packets lost by an event.
  predicate Loses(e: Event) {
    e.ClientReadZero? || e.SerialReadZero?
  }

  lemma StepAccount(s: State, e: Event, id: nat)
    requires Enabled(s, e) && Accounted(s, id, 0)
    ensures Accounted(Step(s, e).next, id, 0)
    ensures |Step(s, e).next.lost| == |s.lost| + if Loses(e) then 1 else 0
  {
    match e
    case ClientWrite(fd, n) => ClientWriteAccount(s, fd, n, id);
    case ClientHangUp(fd) =>
      var i := FindFd(s.clients, fd);
      if i >= 0 { HangUpAccount(s, i, id); } else { ClosingAccount(s, FindClosing(s.closing, fd), id); }
    case SerialWrite(n) => WriteAccount(s.serial, s.pool, n, id);
    case _ => ReadAccount(s, e, id);
  }

  // An event that allocates a packet.
  lemma ReadAccount(s: State, e: Event, id: nat)
    requires Enabled(s, e) && Accounted(s, id, 0) && !e.ClientWrite? && !e.ClientHangUp? && !e.SerialWrite?
    ensures Accounted(Step(s, e).next, id, 0)
    ensures |Step(s, e).next.lost| == |s.lost| + if Loses(e) then 1 else 0
  {
    var x := s.pool.Top();
    Alloc(s, id, 0);
    match e
    case ClientRead(fd, data) => ReceiveAccount(AllocInto(s), FindFd(s.clients, fd), data, x, id);
    case SerialRead(data) => SerialReadAccount(s, Feed(s.rx, data).1, id);
    case ClientReadZero(fd) => ListPush(s.lost, x, id);
    case SerialReadZero => ListPush(s.lost, x, id);
    case Accept(fd) =>
      Free(AllocInto(s), x, id, Is(x, id));
      assert ([Client(fd, -1, false, EmptyQueue)] + s.clients)[1..] == s.clients;
    case _ => Free(AllocInto(s), x, id, Is(x, id));
  }

  function CountLosses(events: seq<Event>): nat {
    if events == [] then 0 else (if Loses(events[0]) then 1 else 0) + CountLosses(events[1..])
  }

  lemma {:induction false} RunAccount(s: State, events: seq<Event>, id: nat)
    requires Runs(s, events) && Accounted(s, id, 0)
    ensures Accounted(Final(s, events), id, 0)
    ensures |Final(s, events).lost| == |s.lost| + CountLosses(events)
    decreases |events|
  {
    if events != [] {
      StepAccount(s, events[0], id);
      RunAccount(Step(s, events[0]).next, events[1..], id);
    }
  }

  // Packet ownership over every run of the daemon: a packet allocated so far is in
  // exactly one place, exactly once, and no place names any other packet.
  lemma OwnedOnce(events: seq<Event>, id: nat)
    requires Runs(Initial, events)
    ensures Places(Final(Initial, events), id) == if id < Final(Initial, events).pool.made then 1 else 0
  {
    assert Accounted(Initial, id, 0);
    RunAccount(Initial, events, id);
  }

  // Packets are lost exactly by the reads that return 0, one by each.
  lemma LostIffZeroRead(events: seq<Event>)
    requires Runs(Initial, events)
    ensures |Final(Initial, events).lost| == CountLosses(events)
    ensures Final(Initial, events).lost == [] <==> forall i :: 0 <= i < |events| ==> !Loses(events[i])
  {
    assert Accounted(Initial, 0, 0);
    RunAccount(Initial, events, 0);
    NoLosses(events);
  }

  lemma {:induction false} NoLosses(events: seq<Event>)
    ensures CountLosses(events) == 0 <==> forall i :: 0 <= i < |events| ==> !Loses(events[i])
  {
    if events != [] {
      NoLosses(events[1..]);
      assert forall i :: 1 <= i < |events| ==> events[i] == events[1..][i - 1];
      if forall i :: 0 <= i < |events| ==> !Loses(events[i]) {
        assert forall i :: 0 <= i < |events[1..]| ==> events[1..][i] == events[i + 1];
      }
    }
  }
}
