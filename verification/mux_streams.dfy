// End-to-end streams through the qemud multiplexer (android/qemud/qemud.c): what a
// registered client writes comes out on its channel at the far end of the serial port,
// and what arrives for its channel reaches its descriptor, whatever the interleaving of
// client reads, partial writes and serial reads.
module MuxStreams {
  import opened Bytes
  import opened Seqs
  import opened Framing
  import opened Channels
  import opened Multiplexer
  import opened MuxInvariants

  // ------------------------------------------------------- the serial port

  lemma {:induction false} ServeAllKeeps(s: State, frames: seq<Frame>)
    ensures ServeAll(s, frames).serial == s.serial && ServeAll(s, frames).rx == s.rx
    decreases |frames|
  {
    if frames != [] {
      var s1 := Serve(s, frames[0], s.inId);
      ServeAllKeeps(AllocInto(s1).(inId := s1.pool.Top()), frames[1..]);
    }
  }

  // What one step does for the serial port: the frames it sends enter the queue whole,
  // the bytes it writes leave at the front.
  predicate SendsWhole(s: State, o: Outcome)
    requires s.serial.Valid() && o.next.serial.Valid()
  {
    && (forall i :: 0 <= i < |o.sent| ==> Sendable(o.sent[i]))
    && s.serial.Pending() + Encode(o.sent) == o.wire + o.next.serial.Pending()
  }

  lemma OneFrame(s: State, o: Outcome, f: Frame)
    requires s.serial.Valid() && o.next.serial.Valid()
    requires o.sent == [f] && Sendable(f) && o.wire == []
    requires o.next.serial.Pending() == s.serial.Pending() + EncodeFrame(f)
    ensures SendsWhole(s, o)
  {
    assert o.sent[1..] == [];
    assert Encode(o.sent) == EncodeFrame(f) + Encode([]);
    assert EncodeFrame(f) + [] == EncodeFrame(f);
    assert [] + o.next.serial.Pending() == o.next.serial.Pending();
  }

  lemma NoFrame(s: State, o: Outcome)
    requires s.serial.Valid() && o.next.serial == s.serial && o.sent == [] && o.wire == []
    ensures SendsWhole(s, o)
  {
    assert s.serial.Pending() + [] == s.serial.Pending() == [] + s.serial.Pending();
  }

  lemma ReceiveSends(s: State, i: nat, data: seq<Byte>, id: nat)
    requires Inv(s) && i < |s.clients| && 1 <= |data| <= MAX_PAYLOAD
    requires !s.clients[i].registered && s.clients[i].channel <= 0 ==> SomeFree(ChannelsOf(s.clients))
    ensures Inv(ClientReceive(s, i, data, id).next) && SendsWhole(s, ClientReceive(s, i, data, id))
  {
    ReceiveInv(s, i, data, id);
    var c, o := s.clients[i], ClientReceive(s, i, data, id);
    if c.registered {
      SerialSendInv(s, c.channel, id, data);
      OneFrame(s, o, Frame(c.channel, data));
    } else if c.channel > 0 {
      NoFrame(s, o);
    } else {
      var last := Next(ChannelsOf(s.clients), s.last);
      var text := ConnectText(data, last % CHANNELS);
      if |text| >= MAX_PAYLOAD {
        NoFrame(s, o);
      } else {
        SerialSendInv(AllocInto(s).(last := last), 0, s.pool.Top(), text);
        OneFrame(s, o, Frame(0, text));
      }
    }
  }

  lemma HangUpSends(s: State, i: nat)
    requires Inv(s) && i < |s.clients|
    ensures Inv(HangUp(s, i).next) && SendsWhole(s, HangUp(s, i))
  {
    HangUpInv(s, i);
    var c := s.clients[i];
    if c.channel > 0 {
      SerialSendInv(AllocInto(s), 0, s.pool.Top(), DisconnectText(c.channel));
      OneFrame(s, HangUp(s, i), Frame(0, DisconnectText(c.channel)));
    } else {
      NoFrame(s, HangUp(s, i));
    }
  }

  lemma StepSends(s: State, e: Event)
    requires Inv(s) && Enabled(s, e)
    ensures Inv(Step(s, e).next) && SendsWhole(s, Step(s, e))
  {
    StepInv(s, e);
    match e
    case ClientRead(fd, data) => ReceiveSends(AllocInto(s), FindFd(s.clients, fd), data, s.pool.Top());
    case ClientHangUp(fd) =>
      if FindFd(s.clients, fd) >= 0 { HangUpSends(s, FindFd(s.clients, fd)); } else { NoFrame(s, Step(s, e)); }
    case SerialRead(data) =>
      ServeAllKeeps(AllocInto(s), Feed(s.rx, data).1);
      NoFrame(s, Step(s, e));
    case SerialWrite(n) =>
      WriteMoves(s.serial, n);
      assert s.serial.Pending() + [] == s.serial.Pending();
    case _ => NoFrame(s, Step(s, e));
  }

  // Over every run: queued bytes plus everything sent, framed, is everything written
  // plus the bytes still queued.
  lemma RunSends(s: State, events: seq<Event>)
    requires Inv(s) && Runs(s, events)
    ensures Inv(Final(s, events))
    ensures forall i :: 0 <= i < |Sent(s, events)| ==> Sendable(Sent(s, events)[i])
    ensures s.serial.Pending() + Encode(Sent(s, events)) == Wire(s, events) + Final(s, events).serial.Pending()
  {
    RunSendable(s, events);
    RunSendsBytes(s, events);
  }

  lemma {:induction false} RunSendable(s: State, events: seq<Event>)
    requires Inv(s) && Runs(s, events)
    ensures Inv(Final(s, events))
    ensures forall i :: 0 <= i < |Sent(s, events)| ==> Sendable(Sent(s, events)[i])
    decreases |events|
  {
    if events != [] {
      StepSends(s, events[0]);
      RunSendable(Step(s, events[0]).next, events[1..]);
    }
  }

  lemma {:induction false} RunSendsBytes(s: State, events: seq<Event>)
    requires Inv(s) && Runs(s, events)
    ensures Inv(Final(s, events))
    ensures s.serial.Pending() + Encode(Sent(s, events)) == Wire(s, events) + Final(s, events).serial.Pending()
    decreases |events|
  {
    if events == [] {
      assert s.serial.Pending() + [] == s.serial.Pending() == [] + s.serial.Pending();
    } else {
      var o := Step(s, events[0]);
      StepSends(s, events[0]);
      RunSendsBytes(o.next, events[1..]);
      EncodeAppend(o.sent, Sent(o.next, events[1..]));
      Regroup(s.serial.Pending(), Encode(o.sent), o.wire, o.next.serial.Pending(), Encode(Sent(o.next, events[1..])),
              Wire(o.next, events[1..]), Final(s, events).serial.Pending());
    }
  }

  lemma Regroup<T>(a: seq<T>, b: seq<T>, c: seq<T>, d: seq<T>, e: seq<T>, f: seq<T>, g: seq<T>)
    requires a + b == c + d && d + e == f + g
    ensures a + (b + e) == (c + f) + g
  {
    Associative(a, b, e);
    Associative(c, d, e);
    Associative(c, f, g);
  }

  // What the far end has received of everything the daemon sent, for any way the reads
  // there cut the byte stream: exactly the frames already written whole, in order.
  lemma FarEndReceives(events: seq<Event>, chunks: seq<seq<Byte>>)
    requires Runs(Initial, events) && Flatten(chunks) == Wire(Initial, events)
    ensures |Wire(Initial, events)| <= |Encode(Sent(Initial, events))|
    ensures FeedChunks(Rx([], 0, 0), chunks).1
         == AllOnWire(Sent(Initial, events)[..Complete(Sent(Initial, events), |Wire(Initial, events)|)])
    ensures Final(Initial, events).serial.pkts == [] ==>
              FeedChunks(Rx([], 0, 0), chunks).1 == AllOnWire(Sent(Initial, events))
  {
    InitialInv();
    RunSends(Initial, events);
    var sent, wire, left := Sent(Initial, events), Wire(Initial, events), Final(Initial, events).serial.Pending();
    assert Initial.serial.Pending() == [] && [] + Encode(sent) == Encode(sent);
    assert Encode(sent)[..|wire|] == wire;
    ChunkInvariance(Rx([], 0, 0), chunks);
    ReceivedSoFar(Rx([], 0, 0), sent, |wire|);
    if Final(Initial, events).serial.pkts == [] {
      assert left == [] && wire + [] == wire;
      RoundTrip(Rx([], 0, 0), sent);
    }
  }

  // ------------------------------------------------- from a client to the port

  // Client fd holds channel k.
  predicate Holds(s: State, fd: int, k: int) {
    FindFd(s.clients, fd) >= 0 && s.clients[FindFd(s.clients, fd)].channel == k
  }

  predicate Registered(s: State, fd: int, k: int) {
    Holds(s, fd, k) && s.clients[FindFd(s.clients, fd)].registered
  }

  // The channel is not shared: 0 is the control channel, and 255 is also what a header
  // says for the channel -1, on which a control message with a malformed id can
  // register a client.
  predicate Exclusive(s: State, k: int) {
    && 0 < k < CHANNELS
    && (k == 255 ==> forall i :: 0 <= i < |s.clients| && s.clients[i].registered ==> s.clients[i].channel >= 0)
  }

  // The payloads a reader of channel k sees.
  function PayloadsOn(frames: seq<Frame>, k: int): seq<Byte> {
    if frames == [] then []
    else (if frames[0].channel % 256 == k then frames[0].payload else []) + PayloadsOn(frames[1..], k)
  }

  lemma {:induction false} PayloadsAppend(a: seq<Frame>, b: seq<Frame>, k: int)
    ensures PayloadsOn(a + b, k) == PayloadsOn(a, k) + PayloadsOn(b, k)
  {
    if a == [] {
      assert a + b == b;
    } else {
      PayloadsAppend(a[1..], b, k);
      assert (a + b)[1..] == a[1..] + b && (a + b)[0] == a[0];
    }
  }

  lemma {:induction false} PayloadsOnWire(frames: seq<Frame>, k: int)
    ensures PayloadsOn(AllOnWire(frames), k) == PayloadsOn(frames, k)
  {
    if frames != [] {
      AllOnWireCons(frames);
      PayloadsOnWire(frames[1..], k);
    }
  }

  lemma OneClientPerChannel(s: State, fd: int, k: int, i: nat)
    requires Inv(s) && Holds(s, fd, k) && k >= 0
    requires i < |s.clients| && (s.clients[i].channel == k || s.clients[i].fd == fd)
    ensures i == FindFd(s.clients, fd)
  {
  }

  // The client a ClientRead is about is known; only a registered one sends outside the
  // control channel.
  predicate SentShape(s: State, e: Event, sent: seq<Frame>) {
    var i := if e.ClientRead? then FindFd(s.clients, e.fd) else -1;
    && (e.ClientRead? ==> i >= 0)
    && if i >= 0 && s.clients[i].registered then sent == [Frame(s.clients[i].channel, e.data)]
       else sent == [] || (|sent| == 1 && sent[0].channel == 0)
  }

  lemma WhatIsSent(s: State, e: Event)
    requires Enabled(s, e)
    ensures SentShape(s, e, Step(s, e).sent)
  {
  }

  lemma PayloadsOfOne(f: Frame, k: int)
    ensures PayloadsOn([f], k) == if f.channel % 256 == k then f.payload else []
  {
    assert [f][1..] == [];
  }

  lemma ReadFromOne(e: Event, fd: int)
    ensures ReadFrom([e], fd) == if e.ClientRead? && e.fd == fd then e.data else []
  {
    assert [e][1..] == [];
  }

  // A registered client sends on channel k exactly if it is the one that holds k.
  lemma SenderOnChannel(s: State, fd: int, k: int, i: nat)
    requires Inv(s) && Registered(s, fd, k) && Exclusive(s, k)
    requires i < |s.clients| && s.clients[i].registered
    ensures s.clients[i].channel % 256 == k <==> s.clients[i].fd == fd
  {
    var c := s.clients[i].channel;
    assert -1 <= c < CHANNELS;
    if c == k || s.clients[i].fd == fd {
      OneClientPerChannel(s, fd, k, i);
    }
  }

  lemma StreamOfSent(s: State, e: Event, sent: seq<Frame>, fd: int, k: int)
    requires Inv(s) && SentShape(s, e, sent) && Registered(s, fd, k) && Exclusive(s, k)
    ensures PayloadsOn(sent, k) == ReadFrom([e], fd)
  {
    ReadFromOne(e, fd);
    var i := if e.ClientRead? then FindFd(s.clients, e.fd) else -1;
    if i >= 0 && s.clients[i].registered {
      SenderOnChannel(s, fd, k, i);
      PayloadsOfOne(Frame(s.clients[i].channel, e.data), k);
    } else {
      assert i >= 0 ==> e.fd != fd;
      if sent != [] {
        assert sent == [sent[0]];
        PayloadsOfOne(sent[0], k);
      }
    }
  }

  // One step sends on k exactly what it reads from the registered client holding k.
  lemma StepStream(s: State, e: Event, fd: int, k: int)
    requires Inv(s) && Enabled(s, e) && Registered(s, fd, k) && Exclusive(s, k)
    ensures PayloadsOn(Step(s, e).sent, k) == ReadFrom([e], fd)
  {
    WhatIsSent(s, e);
    StreamOfSent(s, e, Step(s, e).sent, fd, k);
  }

  // The client keeps its registration and the channel stays unshared, state by state.
  predicate Stays(s: State, events: seq<Event>, fd: int, k: int)
    requires Runs(s, events)
    decreases |events|
  {
    && Registered(s, fd, k) && Exclusive(s, k)
    && (events == [] || Stays(Step(s, events[0]).next, events[1..], fd, k))
  }

  lemma {:induction false} RunStream(s: State, events: seq<Event>, fd: int, k: int)
    requires Inv(s) && Runs(s, events) && Stays(s, events, fd, k)
    ensures PayloadsOn(Sent(s, events), k) == ReadFrom(events, fd)
    decreases |events|
  {
    if events != [] {
      var o := Step(s, events[0]);
      StepInv(s, events[0]);
      StepStream(s, events[0], fd, k);
      RunStream(o.next, events[1..], fd, k);
      PayloadsAppend(o.sent, Sent(o.next, events[1..]), k);
      ReadFromFirst(events, fd);
    }
  }

  lemma ReadFromFirst(events: seq<Event>, fd: int)
    requires events != []
    ensures ReadFrom(events, fd) == ReadFrom([events[0]], fd) + ReadFrom(events[1..], fd)
  {
    assert |[events[0]][1..]| == 0;
  }

  // ------------------------------------------------- from the port to a client

  // The bytes a frame puts in the queue of the client that holds channel k > 0.
  function DeliveredOne(f: Frame, k: int): seq<Byte> {
    if f.channel == k then f.payload
    else if f.channel == 0 && ParseControl(f.payload) == OkConnect(k) then OkText()
    else []
  }

  function Delivered(frames: seq<Frame>, k: int): seq<Byte> {
    if frames == [] then [] else DeliveredOne(frames[0], k) + Delivered(frames[1..], k)
  }

  lemma {:induction false} DeliveredAppend(a: seq<Frame>, b: seq<Frame>, k: int)
    ensures Delivered(a + b, k) == Delivered(a, k) + Delivered(b, k)
  {
    if a == [] {
      assert a + b == b;
    } else {
      DeliveredAppend(a[1..], b, k);
      assert (a + b)[1..] == a[1..] + b && (a + b)[0] == a[0];
    }
  }

  // The bytes queued for client fd.
  function QueuedFor(s: State, fd: int): seq<Byte>
    requires FindFd(s.clients, fd) >= 0 && s.clients[FindFd(s.clients, fd)].out.Valid()
  {
    s.clients[FindFd(s.clients, fd)].out.Pending()
  }

  // Removing another client changes nothing for fd; removing it leaves nothing of it.
  lemma FindAfterWithout(clients: seq<Client>, i: nat, fd: int)
    requires i < |clients| && forall a, b :: 0 <= a < b < |clients| ==> clients[a].fd != clients[b].fd
    ensures var r, r' := FindFd(clients, fd), FindFd(Without(clients, i), fd);
            if r >= 0 && r != i then r' >= 0 && Without(clients, i)[r'] == clients[r] else r' < 0
  {
    var t := Without(clients, i);
    assert forall j :: 0 <= j < |t| ==> t[j] == clients[if j < i then j else j + 1];
    var r := FindFd(clients, fd);
    if r >= 0 && r != i {
      assert t[if r < i then r else r - 1] == clients[r];
    }
  }

  lemma FindAfterSet(clients: seq<Client>, i: nat, c: Client, fd: int)
    requires i < |clients| && c.fd == clients[i].fd
    requires forall a, b :: 0 <= a < b < |clients| ==> clients[a].fd != clients[b].fd
    ensures FindFd(clients[i := c], fd) == FindFd(clients, fd)
  {
    var r := FindFd(clients, fd);
    var t := clients[i := c];
    if r >= 0 {
      assert t[r].fd == fd;
    } else {
      assert forall j :: 0 <= j < |t| ==> t[j].fd == clients[j].fd;
    }
  }

  // Client c is the one behind its descriptor.
  lemma FindIs(clients: seq<Client>, i: nat)
    requires i < |clients| && forall a, b :: 0 <= a < b < |clients| ==> clients[a].fd != clients[b].fd
    ensures FindFd(clients, clients[i].fd) == i
  {
  }

  // client_free of another client leaves fd as it was, of fd itself removes it.
  lemma FreeClientLeaves(s: State, i: nat, fd: int)
    requires Inv(s) && i < |s.clients|
    ensures var r, t := FindFd(s.clients, fd), FreeClient(s, i);
            var r' := FindFd(t.clients, fd);
            if r >= 0 && r != i then r' >= 0 && t.clients[r'] == s.clients[r] else r' < 0
  {
    FindAfterWithout(s.clients, i, fd);
  }

  lemma RegistrationDelivers(s: State, i: nat, ok: bool, fd: int, k: int)
    requires Inv(s) && i < |s.clients| && k > 0 && Inv(Registration(s, i, ok))
    ensures FindFd(Registration(s, i, ok).clients, fd) == FindFd(s.clients, fd)
    ensures Holds(Registration(s, i, ok), fd, k) ==> Holds(s, fd, k)
    ensures Holds(Registration(s, i, ok), fd, k) ==>
              QueuedFor(Registration(s, i, ok), fd) ==
                QueuedFor(s, fd) + if i == FindFd(s.clients, fd) then OkText() else []
  {
    var c := s.clients[i];
    FindAfterSet(s.clients, i, Registration(s, i, ok).clients[i], fd);
    PushAdds(c.out, Pkt(s.pool.Top(), if ok then OkText() else KoText()));
  }

  // From s to t, client fd, if it still holds k, got exactly these bytes.
  predicate Gets(s: State, t: State, fd: int, k: int, bytes: seq<Byte>)
    requires Inv(s) && Inv(t)
  {
    Holds(t, fd, k) ==> Holds(s, fd, k) && QueuedFor(t, fd) == QueuedFor(s, fd) + bytes
  }

  lemma GetsNothing(s: State, t: State, fd: int, k: int)
    requires Inv(s) && Inv(t)
    requires Holds(t, fd, k) ==> Holds(s, fd, k) && QueuedFor(t, fd) == QueuedFor(s, fd)
    ensures Gets(s, t, fd, k, [])
  {
    if Holds(t, fd, k) {
      assert QueuedFor(s, fd) + [] == QueuedFor(s, fd);
    }
  }

  lemma GetsBoth(s: State, t: State, u: State, fd: int, k: int, a: seq<Byte>, b: seq<Byte>)
    requires Inv(s) && Inv(t) && Inv(u) && Gets(s, t, fd, k, a) && Gets(t, u, fd, k, b)
    ensures Gets(s, u, fd, k, a + b)
  {
    if Holds(u, fd, k) {
      Associative(QueuedFor(s, fd), a, b);
    }
  }

  lemma ControlDelivers(s: State, control: Control, fd: int, k: int)
    requires Inv(s) && k > 0
    ensures Inv(HandleControl(s, control))
    ensures Gets(s, HandleControl(s, control), fd, k, if control == OkConnect(k) then OkText() else [])
  {
    ControlInv(s, control);
    var t := HandleControl(s, control);
    if !control.OtherControl? && FindChannel(s.clients, control.channel) >= 0 {
      var i := FindChannel(s.clients, control.channel);
      if control.Disconnect? {
        FreeClientLeaves(s, i, fd);
        GetsNothing(s, t, fd, k);
      } else {
        RegistrationDelivers(s, i, control.OkConnect?, fd, k);
        if Holds(t, fd, k) {
          assert QueuedFor(s, fd) + [] == QueuedFor(s, fd);
          assert i == FindFd(s.clients, fd) <==> control.channel == k;
          assert i == FindFd(s.clients, fd) ==> control.OkConnect?;
        }
      }
    } else {
      GetsNothing(s, t, fd, k);
    }
  }

  lemma PayloadDelivers(s: State, f: Frame, id: nat, fd: int, k: int)
    requires Inv(s) && k > 0 && f.channel != 0
    ensures Inv(Serve(s, f, id))
    ensures Gets(s, Serve(s, f, id), fd, k, if f.channel == k then f.payload else [])
  {
    ServeInv(s, f, id);
    var i, t := FindChannel(s.clients, f.channel), Serve(s, f, id);
    if i >= 0 {
      var c, p := s.clients[i], Pkt(id, f.payload);
      FindAfterSet(s.clients, i, c.(out := c.out.Push(p)), fd);
      PushAdds(c.out, p);
      if Holds(t, fd, k) {
        assert i == FindFd(s.clients, fd) <==> f.channel == k;
        assert QueuedFor(s, fd) + [] == QueuedFor(s, fd);
      }
    } else {
      GetsNothing(s, t, fd, k);
    }
  }

  // Served frame by frame, the client holding k > 0 gets what is addressed to it.
  lemma ServeDelivers(s: State, f: Frame, id: nat, fd: int, k: int)
    requires Inv(s) && k > 0
    ensures Inv(Serve(s, f, id)) && Gets(s, Serve(s, f, id), fd, k, DeliveredOne(f, k))
  {
    if f.channel == 0 {
      ControlDelivers(s, ParseControl(f.payload), fd, k);
    } else {
      PayloadDelivers(s, f, id, fd, k);
    }
  }

  lemma {:induction false} ServeAllDelivers(s: State, frames: seq<Frame>, fd: int, k: int)
    requires Inv(s) && k > 0
    ensures Inv(ServeAll(s, frames)) && Gets(s, ServeAll(s, frames), fd, k, Delivered(frames, k))
    decreases |frames|
  {
    if frames == [] {
      GetsNothing(s, s, fd, k);
    } else {
      var s1 := Serve(s, frames[0], s.inId);
      var s2 := AllocInto(s1).(inId := s1.pool.Top());
      ServeDelivers(s, frames[0], s.inId, fd, k);
      ServeAllDelivers(s2, frames[1..], fd, k);
      GetsBoth(s, s2, ServeAll(s2, frames[1..]), fd, k, DeliveredOne(frames[0], k), Delivered(frames[1..], k));
    }
  }

  // The payload of a frame for k > 0 goes to the one client that holds k, and every
  // other client, and every client when nobody holds k, is left alone.
  lemma DeliveredToHolderOnly(s: State, f: Frame, id: nat)
    requires Inv(s) && f.channel > 0
    ensures var t := Serve(s, f, id);
            |t.clients| == |s.clients| && t.closing == s.closing && t.serial == s.serial &&
            forall i :: 0 <= i < |s.clients| ==>
              if s.clients[i].channel == f.channel
              then s.clients[i].out.Valid() && t.clients[i].out.Valid()
                   && t.clients[i].out.Pending() == s.clients[i].out.Pending() + f.payload
                   && t.clients[i] == s.clients[i].(out := t.clients[i].out)
              else t.clients[i] == s.clients[i]
  {
    var i := FindChannel(s.clients, f.channel);
    if i >= 0 {
      PushAdds(s.clients[i].out, Pkt(id, f.payload));
    }
  }

  // The frames a step takes from the serial port.
  function Received(s: State, e: Event): seq<Frame>
    requires s.rx.Valid()
  {
    if e.SerialRead? then Feed(s.rx, e.data).1 else []
  }

  // While client fd is there, nothing is added to or taken from its queue.
  predicate Untouched(s: State, t: State, fd: int)
    requires Inv(s) && Inv(t)
  {
    FindFd(s.clients, fd) >= 0 && FindFd(t.clients, fd) >= 0 ==> QueuedFor(t, fd) == QueuedFor(s, fd)
  }

  lemma ReceiveUntouched(s: State, i: nat, data: seq<Byte>, id: nat, fd: int)
    requires Inv(s) && i < |s.clients|
    requires !s.clients[i].registered && s.clients[i].channel <= 0 ==> SomeFree(ChannelsOf(s.clients))
    ensures Inv(ClientReceive(s, i, data, id).next) && Untouched(s, ClientReceive(s, i, data, id).next, fd)
  {
    ReceiveInv(s, i, data, id);
    var c, t := s.clients[i], ClientReceive(s, i, data, id).next;
    if !c.registered {
      if |t.clients| < |s.clients| {
        assert t.clients == FreeClient(s, i).clients;
        FreeClientLeaves(s, i, fd);
      } else {
        assert t.clients == s.clients[i := t.clients[i]];
        FindAfterSet(s.clients, i, t.clients[i], fd);
      }
    }
  }

  lemma HangUpUntouched(s: State, i: nat, fd: int)
    requires Inv(s) && i < |s.clients|
    ensures Inv(HangUp(s, i).next) && Untouched(s, HangUp(s, i).next, fd)
  {
    HangUpInv(s, i);
    assert HangUp(s, i).next.clients == Without(s.clients, i);
    FindAfterWithout(s.clients, i, fd);
  }

  lemma AcceptUntouched(s: State, t: State, c: Client, fd: int)
    requires Inv(s) && Inv(t) && t.clients == [c] + s.clients
    ensures Untouched(s, t, fd)
  {
    var r := FindFd(s.clients, fd);
    if r >= 0 {
      assert t.clients[r + 1] == s.clients[r];
      FindIs(t.clients, r + 1);
    }
  }

  lemma WriteQueues(s: State, fd': int, n: int, fd: int)
    requires Inv(s) && Enabled(s, ClientWrite(fd', n)) && FindFd(s.clients, fd) >= 0
    ensures var o := Step(s, ClientWrite(fd', n));
            Inv(o.next) && FindFd(o.next.clients, fd) >= 0 &&
            QueuedFor(s, fd) == (if fd' == fd then o.toClient else []) + QueuedFor(o.next, fd)
  {
    StepInv(s, ClientWrite(fd', n));
    var i := FindFd(s.clients, fd');
    if i >= 0 {
      var c := s.clients[i];
      FindAfterSet(s.clients, i, c.(out := c.out.AfterWrite(n)), fd);
      WriteMoves(c.out, n);
    }
    assert [] + QueuedFor(s, fd) == QueuedFor(s, fd);
  }

  lemma AcceptStep(s: State, fd': int, fd: int)
    requires Inv(s) && Enabled(s, Accept(fd'))
    ensures Inv(Step(s, Accept(fd')).next) && Untouched(s, Step(s, Accept(fd')).next, fd)
  {
    StepInv(s, Accept(fd'));
    AcceptUntouched(s, Step(s, Accept(fd')).next, Client(fd', -1, false, EmptyQueue), fd);
  }

  lemma ReadStep(s: State, fd': int, data: seq<Byte>, fd: int)
    requires Inv(s) && Enabled(s, ClientRead(fd', data))
    ensures Inv(Step(s, ClientRead(fd', data)).next) && Untouched(s, Step(s, ClientRead(fd', data)).next, fd)
  {
    ReceiveUntouched(AllocInto(s), FindFd(s.clients, fd'), data, s.pool.Top(), fd);
  }

  lemma HangUpStep(s: State, fd': int, fd: int)
    requires Inv(s) && Enabled(s, ClientHangUp(fd'))
    ensures Inv(Step(s, ClientHangUp(fd')).next) && Untouched(s, Step(s, ClientHangUp(fd')).next, fd)
  {
    StepInv(s, ClientHangUp(fd'));
    if FindFd(s.clients, fd') >= 0 { HangUpUntouched(s, FindFd(s.clients, fd'), fd); }
  }

  lemma SerialReadStep(s: State, data: seq<Byte>, fd: int, k: int)
    requires Inv(s) && Enabled(s, SerialRead(data)) && k > 0 && Holds(s, fd, k)
    requires Holds(Step(s, SerialRead(data)).next, fd, k)
    ensures var t := Step(s, SerialRead(data)).next;
            Inv(t) && QueuedFor(s, fd) + Delivered(Feed(s.rx, data).1, k) == QueuedFor(t, fd)
  {
    StepInv(s, SerialRead(data));
    ServeAllDelivers(AllocInto(s), Feed(s.rx, data).1, fd, k);
  }

  lemma Neutral<T>(s: seq<T>)
    ensures s + [] == s == [] + s
  {
  }

  // The queue of a client gains what a step receives for it and loses what it writes.
  lemma StepDelivers(s: State, e: Event, fd: int, k: int)
    requires Inv(s) && Enabled(s, e) && k > 0 && Holds(s, fd, k) && Holds(Step(s, e).next, fd, k)
    ensures Inv(Step(s, e).next)
    ensures QueuedFor(s, fd) + Delivered(Received(s, e), k)
         == (if e.ClientWrite? && e.fd == fd then Step(s, e).toClient else []) + QueuedFor(Step(s, e).next, fd)
  {
    StepInv(s, e);
    Neutral(QueuedFor(s, fd));
    Neutral(QueuedFor(Step(s, e).next, fd));
    match e
    case Accept(fd') => AcceptStep(s, fd', fd);
    case ClientRead(fd', data) => ReadStep(s, fd', data, fd);
    case ClientHangUp(fd') => HangUpStep(s, fd', fd);
    case ClientWrite(fd', n) => WriteQueues(s, fd', n, fd);
    case SerialRead(data) => SerialReadStep(s, data, fd, k);
    case _ =>
  }

  // The client holds its channel, state by state.
  predicate Keeps(s: State, events: seq<Event>, fd: int, k: int)
    requires Runs(s, events)
    decreases |events|
  {
    Holds(s, fd, k) && (events == [] || Keeps(Step(s, events[0]).next, events[1..], fd, k))
  }

  lemma ReceiverAfter(s: State, e: Event)
    requires Enabled(s, e)
    ensures Step(s, e).next.rx == if e.SerialRead? then Feed(s.rx, e.data).0 else s.rx
  {
  }

  lemma {:induction false} KeepsToTheEnd(s: State, events: seq<Event>, fd: int, k: int)
    requires Inv(s) && Runs(s, events) && Keeps(s, events, fd, k)
    ensures Inv(Final(s, events)) && Holds(Final(s, events), fd, k)
    decreases |events|
  {
    if events != [] {
      StepInv(s, events[0]);
      KeepsToTheEnd(Step(s, events[0]).next, events[1..], fd, k);
    }
  }

  // Over every run during which a client holds k > 0: what was queued for it plus what
  // the serial port carried for it is what its descriptor took plus what is queued.
  lemma {:induction false} RunDelivers(s: State, events: seq<Event>, fd: int, k: int)
    requires Inv(s) && Runs(s, events) && k > 0 && Keeps(s, events, fd, k)
    ensures Inv(Final(s, events)) && Holds(Final(s, events), fd, k)
    ensures QueuedFor(s, fd) + Delivered(Feed(s.rx, Incoming(events)).1, k)
         == WrittenTo(s, events, fd) + QueuedFor(Final(s, events), fd)
    decreases |events|
  {
    KeepsToTheEnd(s, events, fd, k);
    if events == [] {
      assert QueuedFor(s, fd) + [] == QueuedFor(s, fd) == [] + QueuedFor(s, fd);
    } else {
      var e, o := events[0], Step(s, events[0]);
      StepDelivers(s, e, fd, k);
      RunDelivers(o.next, events[1..], fd, k);
      ReceiverAfter(s, e);
      IncomingSplits(s.rx, events, k);
      Regroup(QueuedFor(s, fd), Delivered(Received(s, e), k), if e.ClientWrite? && e.fd == fd then o.toClient else [],
              QueuedFor(o.next, fd), Delivered(Feed(o.next.rx, Incoming(events[1..])).1, k),
              WrittenTo(o.next, events[1..], fd), QueuedFor(Final(s, events), fd));
    }
  }

  lemma IncomingSplits(rx: Rx, events: seq<Event>, k: int)
    requires rx.Valid() && events != []
    ensures var now := if events[0].SerialRead? then events[0].data else [];
            var (rx', frames) := Feed(rx, now);
            Delivered(Feed(rx, Incoming(events)).1, k) ==
              Delivered(frames, k) + Delivered(Feed(rx', Incoming(events[1..])).1, k)
  {
    var now := if events[0].SerialRead? then events[0].data else [];
    FeedAppend(rx, now, Incoming(events[1..]));
    DeliveredAppend(Feed(rx, now).1, Feed(Feed(rx, now).0, Incoming(events[1..])).1, k);
  }

  // ------------------------------------------------------------- end to end

  // The elements from n on, m of them if there are so many.
  function Cut<T>(s: seq<T>, n: nat, m: nat): seq<T> {
    if |s| <= n then [] else if |s| <= n + m then s[n..] else s[n..n + m]
  }

  lemma CutOfPrefix(first: seq<Frame>, second: seq<Frame>, third: seq<Frame>, c: nat) returns (j: nat)
    requires c <= |first + second + third|
    ensures j <= |second| && (c >= |first + second| ==> j == |second|)
    ensures Cut(AllOnWire((first + second + third)[..c]), |first|, |second|) == AllOnWire(second[..j])
  {
    j := if c <= |first| then 0 else if c <= |first + second| then c - |first| else |second|;
    var got := AllOnWire((first + second + third)[..c]);
    assert |Cut(got, |first|, |second|)| == j;
    forall i | 0 <= i < j
      ensures Cut(got, |first|, |second|)[i] == OnWire(second[i])
    {
      assert (first + second + third)[..c][|first| + i] == second[i];
    }
  }

  lemma PayloadsOfPrefix(frames: seq<Frame>, j: nat, k: int)
    requires j <= |frames|
    ensures PayloadsOn(frames[..j], k) <= PayloadsOn(frames, k)
  {
    PayloadsAppend(frames[..j], frames[j..], k);
    assert frames[..j] + frames[j..] == frames;
  }

  // What a run sends, in its three parts.
  lemma ThreeParts(before: seq<Event>, during: seq<Event>, after: seq<Event>)
    requires Runs(Initial, before + during + after)
    ensures Runs(Initial, before) && Runs(Final(Initial, before), during)
    ensures Inv(Final(Initial, before))
    ensures Runs(Final(Final(Initial, before), during), after)
    ensures Sent(Initial, before + during + after) ==
              Sent(Initial, before) + Sent(Final(Initial, before), during) +
              Sent(Final(Final(Initial, before), during), after)
  {
    InitialInv();
    SplitRun(Initial, before + during, after);
    SplitRun(Initial, before, during);
    RunInv(Initial, before);
  }

  // Client to far end. A client registers on channel k during `before` and stays
  // registered through `during`; `after` is anything, and the far end cuts what the port
  // carried as it likes. Of the frames sent in `during`, those the far end has so far carry
  // on k a prefix of the bytes read from that client, and all of them once the far end has
  // these frames, which it does at the latest when the port has caught up.
  lemma ClientToFarEnd(before: seq<Event>, during: seq<Event>, after: seq<Event>, fd: int, k: int,
                       chunks: seq<seq<Byte>>)
    requires Runs(Initial, before + during + after) && Runs(Initial, before)
    requires Runs(Final(Initial, before), during) && Stays(Final(Initial, before), during, fd, k)
    requires Flatten(chunks) == Wire(Initial, before + during + after)
    ensures var got := FeedChunks(Rx([], 0, 0), chunks).1;
            var n, m := |Sent(Initial, before)|, |Sent(Final(Initial, before), during)|;
            && PayloadsOn(Cut(got, n, m), k) <= ReadFrom(during, fd)
            && (n + m <= |got| ==> PayloadsOn(Cut(got, n, m), k) == ReadFrom(during, fd))
            && (Final(Initial, before + during + after).serial.pkts == [] ==> n + m <= |got|)
  {
    var s := Final(Initial, before);
    ThreeParts(before, during, after);
    FarEndReceives(before + during + after, chunks);
    RunStream(s, during, fd, k);
    var first, second, third := Sent(Initial, before), Sent(s, during), Sent(Final(s, during), after);
    var c := Complete(first + second + third, |Wire(Initial, before + during + after)|);
    var j := CutOfPrefix(first, second, third, c);
    PayloadsOnWire(second[..j], k);
    PayloadsOfPrefix(second, j, k);
    assert j == |second| ==> second[..j] == second;
  }

  // In particular at any moment while the client is registered: nothing but a prefix of
  // its bytes has come, and all of them if the port has caught up.
  lemma ClientToFarEndSoFar(before: seq<Event>, during: seq<Event>, fd: int, k: int, chunks: seq<seq<Byte>>)
    requires Runs(Initial, before + during) && Runs(Initial, before)
    requires Runs(Final(Initial, before), during) && Stays(Final(Initial, before), during, fd, k)
    requires Flatten(chunks) == Wire(Initial, before + during)
    ensures var got, n := FeedChunks(Rx([], 0, 0), chunks).1, |Sent(Initial, before)|;
            && PayloadsOn(if n <= |got| then got[n..] else [], k) <= ReadFrom(during, fd)
            && (Final(Initial, before + during).serial.pkts == [] ==>
                  n <= |got| && PayloadsOn(got[n..], k) == ReadFrom(during, fd))
  {
    assert before + during + [] == before + during;
    ClientToFarEnd(before, during, [], fd, k, chunks);
    SplitRun(Initial, before, during);
    GotAtMost(before + during, chunks);
    CutToEnd(FeedChunks(Rx([], 0, 0), chunks).1, |Sent(Initial, before)|, |Sent(Final(Initial, before), during)|);
  }

  lemma GotAtMost(events: seq<Event>, chunks: seq<seq<Byte>>)
    requires Runs(Initial, events) && Flatten(chunks) == Wire(Initial, events)
    ensures |FeedChunks(Rx([], 0, 0), chunks).1| <= |Sent(Initial, events)|
  {
    FarEndReceives(events, chunks);
  }

  lemma CutToEnd<T>(s: seq<T>, n: nat, m: nat)
    requires |s| <= n + m
    ensures Cut(s, n, m) == if n <= |s| then s[n..] else []
  {
  }

  lemma {:induction false} SplitRun(s: State, a: seq<Event>, b: seq<Event>)
    requires Runs(s, a + b)
    ensures Runs(s, a) && Runs(Final(s, a), b)
    ensures Final(s, a + b) == Final(Final(s, a), b)
    ensures Sent(s, a + b) == Sent(s, a) + Sent(Final(s, a), b)
    decreases |a|
  {
    if a == [] {
      assert a + b == b;
    } else {
      assert (a + b)[0] == a[0] && (a + b)[1..] == a[1..] + b;
      var o := Step(s, a[0]);
      SplitRun(o.next, a[1..], b);
      Associative(o.sent, Sent(o.next, a[1..]), Sent(Final(s, a), b));
    }
  }

  // Far end to client. The far end sends these frames, in any reads and with any other
  // events in between, to a client with an empty queue that holds k throughout. Once
  // its queue is drained, its descriptor has taken exactly what was addressed to it.
  lemma FarEndToClient(s: State, events: seq<Event>, frames: seq<Frame>, fd: int, k: int)
    requires Inv(s) && Runs(s, events) && k > 0 && Keeps(s, events, fd, k)
    requires forall i :: 0 <= i < |frames| ==> 0 <= frames[i].channel < 256 && Sendable(frames[i])
    requires s.rx.Idle() && Incoming(events) == Encode(frames)
    requires QueuedFor(s, fd) == []
    ensures Inv(Final(s, events)) && Holds(Final(s, events), fd, k)
    ensures QueuedFor(Final(s, events), fd) == [] ==> WrittenTo(s, events, fd) == Delivered(frames, k)
  {
    RunDelivers(s, events, fd, k);
    ReceivedAsSent(s.rx, frames);
    AllWritten(Delivered(frames, k), WrittenTo(s, events, fd), QueuedFor(Final(s, events), fd));
  }

  lemma ReceivedAsSent(rx: Rx, frames: seq<Frame>)
    requires rx.Idle()
    requires forall i :: 0 <= i < |frames| ==> 0 <= frames[i].channel < 256 && Sendable(frames[i])
    ensures Feed(rx, Encode(frames)).1 == frames
  {
    RoundTrip(rx, frames);
    OnWireIsIdentity(frames);
  }

  lemma AllWritten<T>(due: seq<T>, written: seq<T>, queued: seq<T>)
    requires [] + due == written + queued
    ensures queued == [] ==> written == due
  {
    assert [] + due == due;
    if queued == [] { assert written + [] == written; }
  }
}
