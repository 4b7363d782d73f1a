// When a client of the qemud multiplexer (android/qemud/qemud.c) comes to hold channel 0,
// against the promise of channel numbers above 0.
module MuxZero {
  import opened Bytes
  import opened Seqs
  import opened Framing
  import opened Channels
  import opened Multiplexer
  import opened MuxInvariants

  predicate NoZero(clients: seq<Client>) {
    forall i :: 0 <= i < |clients| ==> clients[i].channel != 0
  }

  lemma NoZeroWithout(clients: seq<Client>, i: nat)
    requires NoZero(clients) && i < |clients|
    ensures NoZero(Without(clients, i))
  {
    forall j | 0 <= j < |clients| - 1
      ensures Without(clients, i)[j].channel != 0
    {
      WithoutAt(clients, i, j);
    }
  }

  lemma ControlNoZero(s: State, control: Control)
    requires NoZero(s.clients)
    ensures NoZero(HandleControl(s, control).clients) && HandleControl(s, control).last == s.last
  {
    match control
    case Disconnect(channel) =>
      var i := FindChannel(s.clients, channel);
      if i >= 0 { NoZeroWithout(s.clients, i); }
    case _ =>
  }

  lemma ServeNoZero(s: State, f: Frame, id: nat)
    requires NoZero(s.clients)
    ensures NoZero(Serve(s, f, id).clients) && Serve(s, f, id).last == s.last
  {
    if f.channel == 0 {
      ControlNoZero(s, ParseControl(f.payload));
    }
  }

  lemma {:induction false} ServeAllNoZero(s: State, frames: seq<Frame>)
    requires NoZero(s.clients)
    ensures NoZero(ServeAll(s, frames).clients) && ServeAll(s, frames).last == s.last
    decreases |frames|
  {
    if frames != [] {
      ServeNoZero(s, frames[0], s.inId);
      var s1 := Serve(s, frames[0], s.inId);
      ServeAllNoZero(AllocInto(s1).(inId := s1.pool.Top()), frames[1..]);
    }
  }

  // A client without a channel names a service that fits a packet.
  predicate Asks(s: State, e: Event)
    requires Enabled(s, e)
  {
    e.ClientRead? &&
    var c := s.clients[FindFd(s.clients, e.fd)];
    !c.registered && c.channel <= 0 && |ConnectText(e.data, 0)| < MAX_PAYLOAD
  }

  // Every channel after the last one handed out is held.
  predicate RestHeld(s: State) {
    forall c :: s.last % CHANNELS < c < CHANNELS ==> c in ChannelsOf(s.clients)
  }

  lemma OpenNoZero(s: State, i: nat, service: seq<Byte>, id: nat)
    requires NoZero(s.clients) && i < |s.clients| && SomeFree(ChannelsOf(s.clients))
    ensures var t := OpenChannel(s, i, service, id).next;
            && t.last == Next(ChannelsOf(s.clients), s.last)
            && (NoZero(t.clients) <==> |ConnectText(service, 0)| >= MAX_PAYLOAD || !RestHeld(s))
            && (RestHeld(s) && 0 <= s.last ==> t.last >= CHANNELS)
  {
    var channels := ChannelsOf(s.clients);
    var channel := Next(channels, s.last) % CHANNELS;
    NextIsZeroIff(channels, s.last);
    assert 0 !in channels;
    SameLength(service, channel);
    NoZeroWithout(s.clients, i);
    NoZeroSet(s.clients, i, s.clients[i].(channel := channel));
  }

  lemma SameLength(service: seq<Byte>, channel: int)
    ensures |ConnectText(service, channel)| == |ConnectText(service, 0)|
  {
  }

  lemma NoZeroSet(clients: seq<Client>, i: nat, c: Client)
    requires NoZero(clients) && i < |clients|
    ensures NoZero(clients[i := c]) <==> c.channel != 0
  {
    assert clients[i := c][i] == c;
  }

  lemma ReadNoZero(s: State, i: nat, data: seq<Byte>, id: nat)
    requires NoZero(s.clients) && i < |s.clients| && (s.clients[i].registered || s.clients[i].channel > 0)
    requires !s.clients[i].registered && s.clients[i].channel <= 0 ==> SomeFree(ChannelsOf(s.clients))
    ensures var t := ClientReceive(s, i, data, id).next; NoZero(t.clients) && t.last == s.last
  {
    if !s.clients[i].registered {
      NoZeroWithout(s.clients, i);
    }
  }

  lemma HangUpNoZero(s: State, i: nat)
    requires NoZero(s.clients) && i < |s.clients|
    ensures var t := HangUp(s, i).next; NoZero(t.clients) && t.last == s.last
  {
    NoZeroWithout(s.clients, i);
  }

  // Exactly when a client comes to hold channel 0.
  lemma ZeroGivenIff(s: State, e: Event)
    requires Inv(s) && Enabled(s, e) && NoZero(s.clients)
    ensures NoZero(Step(s, e).next.clients) <==> !(Asks(s, e) && RestHeld(s))
    ensures s.last <= Step(s, e).next.last
    ensures Asks(s, e) && RestHeld(s) && 0 <= s.last ==> Step(s, e).next.last >= CHANNELS
  {
    var id := s.pool.Top();
    match e
    case ClientRead(fd, data) =>
      var i := FindFd(s.clients, fd);
      if s.clients[i].registered || s.clients[i].channel > 0 {
        ReadNoZero(AllocInto(s), i, data, id);
      } else {
        OpenNoZero(AllocInto(s), i, data, id);
      }
    case ClientHangUp(fd) =>
      var i := FindFd(s.clients, fd);
      if i >= 0 { HangUpNoZero(s, i); }
    case SerialRead(data) => ServeAllNoZero(AllocInto(s), Feed(s.rx, data).1);
    case _ =>
  }

  // last_channel never decreases.
  lemma LastGrows(s: State, e: Event)
    requires Enabled(s, e)
    ensures s.last <= Step(s, e).next.last
  {
    if e.SerialRead? {
      ServeAllLast(AllocInto(s), Feed(s.rx, e.data).1);
    }
  }

  lemma {:induction false} ServeAllLast(s: State, frames: seq<Frame>)
    ensures ServeAll(s, frames).last == s.last
    decreases |frames|
  {
    if frames != [] {
      var s1 := Serve(s, frames[0], s.inId);
      ServeAllLast(AllocInto(s1).(inId := s1.pool.Top()), frames[1..]);
    }
  }

  lemma {:induction false} RunGrows(s: State, events: seq<Event>)
    requires Runs(s, events)
    ensures s.last <= Final(s, events).last
    decreases |events|
  {
    if events != [] {
      LastGrows(s, events[0]);
      RunGrows(Step(s, events[0]).next, events[1..]);
    }
  }

  lemma {:induction false} RunNoZero(s: State, events: seq<Event>)
    requires Inv(s) && Runs(s, events) && NoZero(s.clients) && 0 <= s.last && Final(s, events).last < CHANNELS
    ensures NoZero(Final(s, events).clients)
    decreases |events|
  {
    if events != [] {
      var t := Step(s, events[0]).next;
      RunGrows(t, events[1..]);
      StepInv(s, events[0]);
      ZeroGivenIff(s, events[0]);
      RunNoZero(t, events[1..]);
    }
  }

  // From start-up, no client holds channel 0 before the 256th channel is tried.
  lemma PositiveBefore256(events: seq<Event>)
    requires Runs(Initial, events) && Final(Initial, events).last < CHANNELS
    ensures NoZero(Final(Initial, events).clients)
  {
    InitialInv();
    RunNoZero(Initial, events);
  }
}
