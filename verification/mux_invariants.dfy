// What every step of the multiplexer keeps: descriptors and held channels stay
// pairwise distinct, and every queue and the frame receiver stay well formed.
module MuxInvariants {
  import opened Bytes
  import opened Seqs
  import opened Framing
  import opened Channels
  import opened Multiplexer

  predicate FdsDistinct(clients: seq<Client>, closing: seq<Closing>) {
    && (forall i, j :: 0 <= i < j < |clients| ==> clients[i].fd != clients[j].fd)
    && (forall i, j :: 0 <= i < j < |closing| ==> closing[i].fd != closing[j].fd)
    && (forall i, j :: 0 <= i < |clients| && 0 <= j < |closing| ==> clients[i].fd != closing[j].fd)
  }

  // No channel value is held twice; -1 stands for no channel.
  predicate ChannelsDistinct(clients: seq<Client>) {
    && (forall i :: 0 <= i < |clients| ==> -1 <= clients[i].channel < CHANNELS)
    && (forall i, j :: 0 <= i < j < |clients| && clients[i].channel >= 0 ==> clients[i].channel != clients[j].channel)
  }

  predicate Good(clients: seq<Client>, closing: seq<Closing>, serial: OutQueue, rx: Rx) {
    && FdsDistinct(clients, closing) && ChannelsDistinct(clients)
    && (forall i :: 0 <= i < |clients| ==> clients[i].out.Valid())
    && (forall i :: 0 <= i < |closing| ==> closing[i].out.Valid())
    && serial.Valid() && rx.Valid() && rx.datalen <= MAX_PAYLOAD
  }

  predicate Inv(s: State) {
    Good(s.clients, s.closing, s.serial, s.rx)
  }

  lemma InitialInv()
    ensures Inv(Initial)
  {
  }

  // ------------------------------------------------------------ queue lemmas

  lemma {:induction false} JoinAppend(pkts: seq<Pkt>, p: Pkt)
    ensures Join(pkts + [p]) == Join(pkts) + p.bytes
  {
    if pkts == [] {
      assert pkts + [p] == [p] && [p][1..] == [];
    } else {
      assert (pkts + [p])[1..] == pkts[1..] + [p];
      JoinAppend(pkts[1..], p);
      Associative(pkts[0].bytes, Join(pkts[1..]), p.bytes);
    }
  }

  lemma PushAdds(q: OutQueue, p: Pkt)
    requires q.Valid()
    ensures q.Push(p).Valid() && q.Push(p).Pending() == q.Pending() + p.bytes
  {
    JoinAppend(q.pkts, p);
    assert q.pkts != [] ==> (q.pkts + [p])[0] == q.pkts[0];
  }

  // A write moves bytes from the front of the queue to the descriptor.
  lemma WriteMoves(q: OutQueue, n: int)
    requires q.Valid() && q.CanWrite(n)
    ensures q.AfterWrite(n).Valid()
    ensures q.Pending() == q.BytesWritten(n) + q.AfterWrite(n).Pending()
  {
    assert Join(q.pkts) == q.pkts[0].bytes + Join(q.pkts[1..]);
  }

  // ------------------------------------------------------- operations keep Inv

  lemma DropClientInv(s: State, i: nat)
    requires Inv(s) && i < |s.clients|
    ensures Inv(s.(clients := Without(s.clients, i)))
    ensures forall j :: 0 <= j < |s.clients| - 1 ==> Without(s.clients, i)[j].fd != s.clients[i].fd
  {
    FdsDistinctWithout(s.clients, s.closing, i);
    ChannelsDistinctWithout(s.clients, i);
    forall j | 0 <= j < |s.clients| - 1
      ensures Without(s.clients, i)[j] in s.clients
    {
      WithoutAt(s.clients, i, j);
    }
  }

  lemma FdsDistinctWithout(clients: seq<Client>, closing: seq<Closing>, i: nat)
    requires FdsDistinct(clients, closing) && i < |clients|
    ensures FdsDistinct(Without(clients, i), closing)
    ensures forall j :: 0 <= j < |clients| - 1 ==> Without(clients, i)[j].fd != clients[i].fd
  {
    var t := Without(clients, i);
    forall j, k | 0 <= j < k < |t|
      ensures t[j].fd != t[k].fd
    {
      WithoutAt(clients, i, j);
      WithoutAt(clients, i, k);
    }
    forall j | 0 <= j < |t|
      ensures t[j].fd != clients[i].fd && forall k :: 0 <= k < |closing| ==> t[j].fd != closing[k].fd
    {
      WithoutAt(clients, i, j);
    }
  }

  lemma ChannelsDistinctWithout(clients: seq<Client>, i: nat)
    requires ChannelsDistinct(clients) && i < |clients|
    ensures ChannelsDistinct(Without(clients, i))
  {
    var t := Without(clients, i);
    forall j, k | 0 <= j < k < |t| && t[j].channel >= 0
      ensures t[j].channel != t[k].channel
    {
      WithoutAt(clients, i, j);
      WithoutAt(clients, i, k);
    }
    forall j | 0 <= j < |t|
      ensures -1 <= t[j].channel < CHANNELS
    {
      WithoutAt(clients, i, j);
    }
  }

  lemma AddClosingInv(s: State, c: Closing)
    requires Inv(s) && c.out.Valid() && !Watched(s, c.fd)
    ensures Inv(s.(closing := [c] + s.closing))
  {
  }

  lemma FreeClientInv(s: State, i: nat)
    requires Inv(s) && i < |s.clients|
    ensures Inv(FreeClient(s, i))
  {
    DropClientInv(s, i);
    var t, c := s.(clients := Without(s.clients, i)), s.clients[i];
    if c.out.pkts != [] {
      AddClosingInv(t, Closing(c.fd, c.out));
    }
  }

  lemma SetClientInv(s: State, i: nat, c: Client)
    requires Inv(s) && i < |s.clients| && c.fd == s.clients[i].fd && c.out.Valid()
    requires -1 <= c.channel < CHANNELS
    requires c.channel >= 0 ==> forall j :: 0 <= j < |s.clients| && j != i ==> s.clients[j].channel != c.channel
    ensures Inv(SetClient(s, i, c))
  {
  }

  lemma RegistrationInv(s: State, i: nat, ok: bool)
    requires Inv(s) && i < |s.clients|
    ensures Inv(Registration(s, i, ok))
  {
    var c := s.clients[i];
    PushAdds(c.out, Pkt(s.pool.Top(), if ok then OkText() else KoText()));
    SetClientInv(AllocInto(s), i, Registration(s, i, ok).clients[i]);
  }

  lemma ControlInv(s: State, control: Control)
    requires Inv(s)
    ensures Inv(HandleControl(s, control))
  {
    if !control.OtherControl? {
      var i := FindChannel(s.clients, control.channel);
      if i >= 0 {
        match control
        case OkConnect(channel) => RegistrationInv(s, i, true);
        case KoConnect(channel) => RegistrationInv(s, i, false);
        case Disconnect(channel) => FreeClientInv(s, i);
        case OtherControl =>
      }
    }
  }

  lemma ServeInv(s: State, f: Frame, id: nat)
    requires Inv(s)
    ensures Inv(Serve(s, f, id))
  {
    if f.channel == 0 {
      ControlInv(s, ParseControl(f.payload));
    } else {
      var i := FindChannel(s.clients, f.channel);
      if i >= 0 {
        var c, p := s.clients[i], Pkt(id, f.payload);
        PushAdds(c.out, p);
        SetClientInv(s, i, c.(out := c.out.Push(p)));
      }
    }
  }

  lemma {:induction false} ServeAllInv(s: State, frames: seq<Frame>)
    requires Inv(s)
    ensures Inv(ServeAll(s, frames))
    decreases |frames|
  {
    if frames != [] {
      var s1 := Serve(s, frames[0], s.inId);
      ServeInv(s, frames[0], s.inId);
      ServeAllInv(AllocInto(s1).(inId := s1.pool.Top()), frames[1..]);
    }
  }

  lemma SerialSendInv(s: State, channel: int, id: nat, data: seq<Byte>)
    requires Inv(s)
    ensures Inv(SerialSend(s, channel, id, data))
    ensures SerialSend(s, channel, id, data).serial.Pending() == s.serial.Pending() + EncodeFrame(Frame(channel, data))
  {
    var h, p := Pkt(s.pool.Top(), Header(channel, |data|)), Pkt(id, data);
    PushAdds(s.serial, h);
    PushAdds(s.serial.Push(h), p);
    Associative(s.serial.Pending(), h.bytes, p.bytes);
  }

  lemma OpenChannelInv(s: State, i: nat, service: seq<Byte>, id: nat)
    requires Inv(s) && i < |s.clients| && SomeFree(ChannelsOf(s.clients))
    ensures Inv(OpenChannel(s, i, service, id).next)
  {
    var last := Next(ChannelsOf(s.clients), s.last);
    var channel := last % CHANNELS;
    var text := ConnectText(service, channel);
    var s1 := AllocInto(s).(last := last);
    if |text| >= MAX_PAYLOAD {
      FreeClientInv(FreeId(FreeId(s1, s.pool.Top()), id), i);
    } else {
      SerialSendInv(s1, 0, s.pool.Top(), text);
      var s2 := SerialSend(s1, 0, s.pool.Top(), text);
      assert forall j :: 0 <= j < |s.clients| ==> s.clients[j].channel in ChannelsOf(s.clients) by {
        forall j | 0 <= j < |s.clients|
          ensures s.clients[j].channel in ChannelsOf(s.clients)
        {
          assert ChannelsOf(s.clients)[j] == s.clients[j].channel;
        }
      }
      SetClientInv(s2, i, s2.clients[i].(channel := channel));
    }
  }

  lemma ReceiveInv(s: State, i: nat, data: seq<Byte>, id: nat)
    requires Inv(s) && i < |s.clients|
    requires !s.clients[i].registered && s.clients[i].channel <= 0 ==> SomeFree(ChannelsOf(s.clients))
    ensures Inv(ClientReceive(s, i, data, id).next)
  {
    var c := s.clients[i];
    if c.registered {
      SerialSendInv(s, c.channel, id, data);
    } else if c.channel > 0 {
      FreeClientInv(FreeId(s, id), i);
    } else {
      OpenChannelInv(s, i, data, id);
    }
  }

  lemma HangUpInv(s: State, i: nat)
    requires Inv(s) && i < |s.clients|
    ensures Inv(HangUp(s, i).next)
  {
    var c := s.clients[i];
    if c.channel > 0 {
      SerialSendInv(AllocInto(s), 0, s.pool.Top(), DisconnectText(c.channel));
      DropClientInv(SerialSend(AllocInto(s), 0, s.pool.Top(), DisconnectText(c.channel)), i);
    } else {
      DropClientInv(s, i);
    }
  }

  lemma AcceptInv(s: State, fd: int)
    requires Inv(s) && !Watched(s, fd)
    ensures Inv(s.(clients := [Client(fd, -1, false, EmptyQueue)] + s.clients))
  {
    var c := Client(fd, -1, false, EmptyQueue);
    assert forall j :: 1 <= j <= |s.clients| ==> ([c] + s.clients)[j] == s.clients[j - 1];
    assert ([c] + s.clients)[0] == c;
  }

  lemma ClosingWriteInv(s: State, j: nat, out: OutQueue)
    requires Inv(s) && j < |s.closing| && out.Valid()
    ensures Inv(s.(closing := s.closing[j := Closing(s.closing[j].fd, out)]))
  {
  }

  lemma SerialReadInv(s: State, data: seq<Byte>)
    requires Inv(s) && Fits(s.rx, data)
    ensures Inv(ServeAll(AllocInto(s), Feed(s.rx, data).1).(rx := Feed(s.rx, data).0))
  {
    ServeAllInv(AllocInto(s), Feed(s.rx, data).1);
    FitsAppend(s.rx, data, []);
    assert data + [] == data;
  }

  lemma StepInv(s: State, e: Event)
    requires Inv(s) && Enabled(s, e)
    ensures Inv(Step(s, e).next)
  {
    match e
    case Accept(fd) => AcceptInv(s, fd);
    case AcceptError =>
    case ClientRead(fd, data) => ReceiveInv(AllocInto(s), FindFd(s.clients, fd), data, s.pool.Top());
    case ClientReadError(fd) =>
    case ClientReadZero(fd) =>
    case ClientHangUp(fd) =>
      var i := FindFd(s.clients, fd);
      if i >= 0 {
        HangUpInv(s, i);
      } else {
        CloseInv(s, FindClosing(s.closing, fd));
      }
    case ClientWrite(fd, n) =>
      var i := FindFd(s.clients, fd);
      if i >= 0 {
        WriteMoves(s.clients[i].out, n);
        SetClientInv(s, i, s.clients[i].(out := s.clients[i].out.AfterWrite(n)));
      } else {
        var j := FindClosing(s.closing, fd);
        WriteMoves(s.closing[j].out, n);
        ClosingWriteInv(s, j, s.closing[j].out.AfterWrite(n));
      }
    case SerialRead(data) => SerialReadInv(s, data);
    case SerialReadError =>
    case SerialReadZero =>
    case SerialWrite(n) => WriteMoves(s.serial, n);
  }

  lemma CloseInv(s: State, j: nat)
    requires Inv(s) && j < |s.closing|
    ensures Inv(s.(closing := Without(s.closing, j)))
  {
    var t := s.(closing := Without(s.closing, j));
    assert forall k :: 0 <= k < |t.closing| ==> t.closing[k] == s.closing[if k < j then k else k + 1];
  }

  // Over every run the invariant holds, so held channels stay pairwise distinct.
  lemma {:induction false} RunInv(s: State, events: seq<Event>)
    requires Inv(s) && Runs(s, events)
    ensures Inv(Final(s, events))
    decreases |events|
  {
    if events != [] {
      StepInv(s, events[0]);
      RunInv(Step(s, events[0]).next, events[1..]);
    }
  }

  // Hence multiplexer_find_client is unambiguous: in any run it finds the one client
  // that holds a channel, wherever that client is in the list.
  lemma FindIsUnambiguous(events: seq<Event>, i: nat)
    requires Runs(Initial, events)
    requires i < |Final(Initial, events).clients|
    requires Final(Initial, events).clients[i].channel >= 0
    ensures var s := Final(Initial, events); FindChannel(s.clients, s.clients[i].channel) == i
  {
    InitialInv();
    RunInv(Initial, events);
  }
}
