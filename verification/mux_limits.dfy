// Where the stream guarantees of the qemud multiplexer (android/qemud/qemud.c) stop: a
// client can come to hold channel 0, which it then shares with the control messages,
// and a control message with a malformed id registers a client that holds no channel.
module MuxLimits {
  import opened Bytes
  import opened Seqs
  import opened Framing
  import opened Channels
  import opened Multiplexer
  import opened MuxInvariants
  import opened MuxStreams
  import Hex

  lemma {:induction false} FitsInside(r: Rx, block: seq<Byte>)
    requires r.Valid() && r.(buf := r.buf + block).Valid() && r.datalen <= MAX_PAYLOAD
    ensures Fits(r, block)
    decreases |block|
  {
    if block != [] {
      var r1 := r.(buf := r.buf + [block[0]]);
      assert r1.buf + block[1..] == r.buf + block;
      FitsInside(r1, block[1..]);
      assert StepByte(r, block[0]).0 == r1;
    }
  }

  // Up to the last byte the block is inside; the last byte completes it.
  lemma FitsUpTo(r: Rx, block: seq<Byte>)
    requires r.Valid() && r.datalen <= MAX_PAYLOAD && block != []
    requires r.(buf := r.buf + block[..|block| - 1]).Valid()
    requires Feed(r, block).0.datalen <= MAX_PAYLOAD
    ensures Fits(r, block)
  {
    var n := |block| - 1;
    assert block == block[..n] + [block[n]];
    FitsInside(r, block[..n]);
    FitsAppend(r, block[..n], [block[n]]);
    FeedAppend(r, block[..n], [block[n]]);
    var r1 := Feed(r, block[..n]).0;
    FeedInside(r, block[..n]);
    FeedOne(r1, block[n]);
    assert [block[n]][1..] == [];
    assert Fits(StepByte(r1, block[n]).0, []);
  }

  lemma FitsFrame(r: Rx, f: Frame)
    requires r.Idle() && 1 <= |f.payload| <= MAX_PAYLOAD
    ensures Fits(r, EncodeFrame(f))
  {
    var header := Header(f.channel, |f.payload|);
    HeaderOfFrame(f.channel, |f.payload|);
    assert r.buf + header == header && r.buf + header[..5] == header[..5];
    FeedHeader(r, header);
    FitsUpTo(r, header);
    var r1 := HeaderDone(header);
    var n := |f.payload| - 1;
    assert r1.buf + f.payload[..n] == f.payload[..n] && r1.buf + f.payload == f.payload;
    FeedPayload(r1, f.payload);
    FitsUpTo(r1, f.payload);
    FitsAppend(r, header, f.payload);
  }

  // A control message read whole by an idle receiver is obeyed.
  lemma ControlRead(s: State, text: seq<Byte>)
    requires Inv(s) && s.rx.Idle() && 1 <= |text| <= MAX_PAYLOAD - HEADER_SIZE
    ensures var e := SerialRead(EncodeFrame(Frame(0, text)));
            Enabled(s, e) && Inv(Step(s, e).next) && Step(s, e).next.rx.Idle() &&
            Step(s, e).next.clients == HandleControl(AllocInto(s), ParseControl(text)).clients &&
            Step(s, e).next.closing == HandleControl(AllocInto(s), ParseControl(text)).closing &&
            Step(s, e).next.last == s.last
  {
    var f := Frame(0, text);
    FitsFrame(s.rx, f);
    StepInv(s, SerialRead(EncodeFrame(f)));
    FeedFrame(s.rx, f);
    OneServed(AllocInto(s), f);
  }

  lemma OneServed(s: State, f: Frame)
    requires f.channel == 0
    ensures ServeAll(s, [OnWire(f)]).clients == HandleControl(s, ParseControl(f.payload)).clients
    ensures ServeAll(s, [OnWire(f)]).closing == HandleControl(s, ParseControl(f.payload)).closing
    ensures ServeAll(s, [OnWire(f)]).last == s.last
  {
    assert OnWire(f) == f && [f][1..] == [];
    var s1 := Serve(s, f, s.inId);
    assert ServeAll(AllocInto(s1).(inId := s1.pool.Top()), []) == AllocInto(s1).(inId := s1.pool.Top());
  }

  // The three commands, with their two characters of channel.
  lemma ParseCommands(id: seq<Byte>)
    requires |id| == 2
    ensures ParseControl(Ascii("ok:connect:") + id) == OkConnect(Hex.Value(id))
    ensures ParseControl(Ascii("ko:connect:") + id) == KoConnect(Hex.Value(id))
    ensures ParseControl(Ascii("disconnect:") + id) == Disconnect(Hex.Value(id))
  {
    var ok, ko, disc := Ascii("ok:connect:"), Ascii("ko:connect:"), Ascii("disconnect:");
    assert ok[0] == 111 && ko[0] == 107 && disc[0] == 100;
    assert (ok + id)[..11] == ok && (ok + id)[11..] == id;
    assert (ko + id)[..11] == ko && (ko + id)[11..] == id;
    assert (disc + id)[..11] == disc && (disc + id)[11..] == id;
  }

  // A refusal that carries a reason is no command: whatever the reason is, unless it is two
  // bytes long, no client changes. The refused client keeps its channel and waits on.
  lemma RefusalWithReason(s: State, reason: seq<Byte>)
    requires Inv(s) && s.rx.Idle() && |reason| != 2 && |Ascii("ko:connect:") + reason| <= MAX_PAYLOAD - HEADER_SIZE
    ensures var e := SerialRead(EncodeFrame(Frame(0, Ascii("ko:connect:") + reason)));
            && Enabled(s, e) && Step(s, e).sent == []
            && Step(s, e).next.clients == s.clients && Step(s, e).next.closing == s.closing
  {
    ControlRead(s, Ascii("ko:connect:") + reason);
  }

  // The name comes before the channel in a request. It would read as documented, channel
  // first, only for a name that begins with the digits of the channel.
  lemma NameComesFirst(service: seq<Byte>, channel: int)
    requires |UntilNul(service)| >= 2
    ensures var id, name := Hex.Text(channel, 2), UntilNul(service);
            && ConnectText(service, channel) == Ascii("connect:") + name + Ascii(":") + id
            && (ConnectText(service, channel) == Ascii("connect:") + id + Ascii(":") + name ==> name[..2] == id)
  {
    var id, name := Hex.Text(channel, 2), UntilNul(service);
    var documented := Ascii("connect:") + id + Ascii(":") + name;
    assert documented[8..10] == id && ConnectText(service, channel)[8..10] == name[..2];
  }

  // ------------------------------------------------------------ exact condition

  // The client keeps its registration on channel k, state by state.
  predicate StaysRegistered(s: State, events: seq<Event>, fd: int, k: int)
    requires Runs(s, events)
    decreases |events|
  {
    Registered(s, fd, k) && (events == [] || StaysRegistered(Step(s, events[0]).next, events[1..], fd, k))
  }

  lemma {:induction false} UnsharedStays(s: State, events: seq<Event>, fd: int, k: int)
    requires Runs(s, events) && StaysRegistered(s, events, fd, k) && 0 < k < 255
    ensures Stays(s, events, fd, k)
    decreases |events|
  {
    if events != [] {
      UnsharedStays(Step(s, events[0]).next, events[1..], fd, k);
    }
  }

  // In every run from s that keeps the client registered on k, the payloads sent on k
  // are exactly the bytes read from it.
  ghost predicate StreamIntact(s: State, fd: int, k: int) {
    forall events :: Runs(s, events) && StaysRegistered(s, events, fd, k) ==>
      PayloadsOn(Sent(s, events), k) == ReadFrom(events, fd)
  }

  // A run that shows the stream is not intact.
  predicate Breaks(s: State, events: seq<Event>, fd: int, k: int) {
    Runs(s, events) && StaysRegistered(s, events, fd, k) && PayloadsOn(Sent(s, events), k) != ReadFrom(events, fd)
  }

  lemma AddStep(s: State, e: Event, events: seq<Event>, fd: int, k: int)
    requires Enabled(s, e) && Registered(s, fd, k)
    requires Breaks(Step(s, e).next, events, fd, k)
    requires Step(s, e).sent == [] && !(e.ClientRead? && e.fd == fd)
    ensures Breaks(s, [e] + events, fd, k)
  {
    assert ([e] + events)[1..] == events && ([e] + events)[0] == e;
    var t := Step(s, e).next;
    assert Sent(s, [e] + events) == [] + Sent(t, events) == Sent(t, events);
    assert ReadFrom([e] + events, fd) == [] + ReadFrom(events, fd) == ReadFrom(events, fd);
  }

  lemma OneStepBreaks(s: State, e: Event, f: Frame, fd: int, k: int)
    requires Enabled(s, e) && Registered(s, fd, k) && Registered(Step(s, e).next, fd, k)
    requires Step(s, e).sent == [f]
    requires PayloadsOn([f], k) != ReadFrom([e], fd)
    ensures Breaks(s, [e], fd, k)
  {
    assert [e][1..] == [];
    var t := Step(s, e).next;
    assert Runs(t, []) && StaysRegistered(t, [], fd, k);
    assert Sent(s, [e]) == [f] + [] == [f];
  }

  // A descriptor that is not open.
  function FreshFd(s: State): (fd: int)
    ensures !Watched(s, fd)
  {
    var clients := seq(|s.clients|, i requires 0 <= i < |s.clients| => s.clients[i].fd);
    var closing := seq(|s.closing|, i requires 0 <= i < |s.closing| => s.closing[i].fd);
    var fd := Above(clients + closing);
    assert forall i :: 0 <= i < |s.clients| ==> s.clients[i].fd < fd by {
      forall i | 0 <= i < |s.clients|
        ensures s.clients[i].fd < fd
      {
        assert (clients + closing)[i] == s.clients[i].fd;
      }
    }
    assert forall i :: 0 <= i < |s.closing| ==> s.closing[i].fd < fd by {
      forall i | 0 <= i < |s.closing|
        ensures s.closing[i].fd < fd
      {
        assert (clients + closing)[|s.clients| + i] == s.closing[i].fd;
      }
    }
    fd
  }

  function Above(s: seq<int>): (m: int)
    ensures forall i :: 0 <= i < |s| ==> s[i] < m
  {
    if s == [] then 0
    else
      var m := Above(s[1..]);
      assert forall i :: 1 <= i < |s| ==> s[i] == s[1..][i - 1];
      if s[0] < m then m else s[0] + 1
  }

  lemma Accepts(s: State, f: int)
    requires Inv(s) && !Watched(s, f)
    ensures Enabled(s, Accept(f)) && Step(s, Accept(f)).sent == []
    ensures var t := Step(s, Accept(f)).next;
            Inv(t) && t.clients == [Client(f, -1, false, EmptyQueue)] + s.clients && t.rx == s.rx
  {
    StepInv(s, Accept(f));
  }

  // The state after a new client connects.
  lemma Connected(s: State, fd: int, k: int)
    requires Inv(s) && Registered(s, fd, k)
    ensures var f := FreshFd(s);
            f != fd && Enabled(s, Accept(f)) && Step(s, Accept(f)).sent == [] &&
            var t := Step(s, Accept(f)).next;
            Inv(t) && Registered(t, fd, k) && FindFd(t.clients, f) == 0 &&
            t.clients == [Client(f, -1, false, EmptyQueue)] + s.clients && t.rx == s.rx
  {
    var f := FreshFd(s);
    Accepts(s, f);
    var t, r := Step(s, Accept(f)).next, FindFd(s.clients, fd);
    assert t.clients[r + 1] == s.clients[r];
    FindIs(t.clients, r + 1);
    FindIs(t.clients, 0);
  }

  // A client asking for a service puts a control frame on channel 0.
  lemma AskingSends(s: State, i: nat, id: nat)
    requires Inv(s) && i < |s.clients| && SomeFree(ChannelsOf(s.clients))
    ensures var o := OpenChannel(s, i, [97], id);
            |o.sent| == 1 && o.sent[0].channel == 0 && o.sent[0].payload != [] &&
            |o.next.clients| == |s.clients| && o.next.clients[i].out == s.clients[i].out &&
            o.next.closing == s.closing &&
            (forall j :: 0 <= j < |s.clients| ==> o.next.clients[j].fd == s.clients[j].fd) &&
            (forall j :: 0 <= j < |s.clients| && j != i ==> o.next.clients[j] == s.clients[j])
  {
    assert |UntilNul([97])| <= 1 by { assert UntilNul([97][1..]) == []; }
  }

  // With a newly connected client at the head of the list, its request for a service
  // breaks the stream of a client on channel 0.
  lemma AskingBreaks(t: State, f: int, fd: int)
    requires Inv(t) && Registered(t, fd, 0) && f != fd && FindFd(t.clients, f) == 0
    requires t.clients[0].channel < 0 && !t.clients[0].registered && SomeFree(ChannelsOf(t.clients))
    ensures Breaks(t, [ClientRead(f, [97])], fd, 0)
  {
    var o := AskingKeeps(t, f, fd);
    OthersFrameBreaks(t, ClientRead(f, [97]), o, fd);
  }

  // An event of another client that sends a control frame.
  lemma OthersFrameBreaks(s: State, e: Event, o: Outcome, fd: int)
    requires Enabled(s, e) && o == Step(s, e) && !(e.ClientRead? && e.fd == fd)
    requires |o.sent| == 1 && o.sent[0].channel == 0 && o.sent[0].payload != []
    requires Registered(s, fd, 0) && Registered(o.next, fd, 0)
    ensures Breaks(s, [e], fd, 0)
  {
    PayloadsOfOne(o.sent[0], 0);
    ReadFromOne(e, fd);
    assert o.sent == [o.sent[0]];
    OneStepBreaks(s, e, o.sent[0], fd, 0);
  }

  lemma AskingKeeps(t: State, f: int, fd: int) returns (o: Outcome)
    requires Inv(t) && Registered(t, fd, 0) && f != fd && FindFd(t.clients, f) == 0
    requires t.clients[0].channel < 0 && !t.clients[0].registered && SomeFree(ChannelsOf(t.clients))
    ensures Enabled(t, ClientRead(f, [97])) && o == Step(t, ClientRead(f, [97]))
    ensures |o.sent| == 1 && o.sent[0].channel == 0 && o.sent[0].payload != [] && Registered(o.next, fd, 0)
  {
    AskingSends(AllocInto(t), 0, t.pool.Top());
    o := Step(t, ClientRead(f, [97]));
    assert o == OpenChannel(AllocInto(t), 0, [97], t.pool.Top());
    StepInv(t, ClientRead(f, [97]));
    var r := FindFd(t.clients, fd);
    assert o.next.clients[r] == t.clients[r];
    FindIs(o.next.clients, r);
  }

  lemma StillFree(clients: seq<Client>, c: Client)
    requires SomeFree(ChannelsOf(clients)) && c.channel == -1
    ensures SomeFree(ChannelsOf([c] + clients))
  {
    var x :| 0 <= x < CHANNELS && x !in ChannelsOf(clients);
    var all := ChannelsOf([c] + clients);
    forall j | 0 <= j < |all|
      ensures all[j] != x
    {
      if j > 0 { assert ChannelsOf(clients)[j - 1] == all[j]; }
    }
    assert x !in all;
  }

  // Hanging up another client that holds a channel does so too.
  lemma HangUpBreaks(s: State, i: nat, fd: int)
    requires Inv(s) && Registered(s, fd, 0) && i < |s.clients| && s.clients[i].channel > 0
    ensures Breaks(s, [ClientHangUp(s.clients[i].fd)], fd, 0)
  {
    var e := ClientHangUp(s.clients[i].fd);
    FindIs(s.clients, i);
    StepInv(s, e);
    var o := Step(s, e);
    assert o == HangUp(s, i) && o.next.clients == Without(s.clients, i);
    FindAfterWithout(s.clients, i, fd);
    assert |DisconnectText(s.clients[i].channel)| == 13;
    OthersFrameBreaks(s, e, o, fd);
  }

  lemma ZeroBreaks(s: State, fd: int) returns (events: seq<Event>)
    requires Inv(s) && Registered(s, fd, 0)
    ensures Breaks(s, events, fd, 0)
  {
    if SomeFree(ChannelsOf(s.clients)) {
      Connected(s, fd, 0);
      var f := FreshFd(s);
      StillFree(s.clients, Client(f, -1, false, EmptyQueue));
      AskingBreaks(Step(s, Accept(f)).next, f, fd);
      events := [ClientRead(f, [97])];
      AddStep(s, Accept(f), events, fd, 0);
      events := [Accept(f)] + events;
    } else {
      assert 1 in ChannelsOf(s.clients);
      var i :| 0 <= i < |s.clients| && ChannelsOf(s.clients)[i] == 1;
      HangUpBreaks(s, i, fd);
      events := [ClientHangUp(s.clients[i].fd)];
    }
  }

  // A malformed id registers the newest client although it holds no channel, and what
  // it sends is framed for channel 255.
  function MalformedOk(): seq<Byte> {
    EncodeFrame(Frame(0, Ascii("ok:connect:zz")))
  }

  lemma MalformedText()
    ensures |Ascii("ok:connect:zz")| == 13 && ParseControl(Ascii("ok:connect:zz")) == OkConnect(-1)
  {
    assert Ascii("ok:connect:zz") == Ascii("ok:connect:") + [122, 122];
    ParseCommands([122, 122]);
    assert Hex.DigitValue(122) == -1;
    assert Hex.Value([122, 122]) == -1;
  }

  // A control message with a malformed id registers the newest client, which has no
  // channel.
  lemma MalformedRegisters(t: State, f: int, fd: int, k: int)
    requires Inv(t) && t.rx.Idle() && Registered(t, fd, k) && f != fd
    requires FindFd(t.clients, f) == 0 && t.clients[0].channel == -1
    ensures Enabled(t, SerialRead(MalformedOk())) && Step(t, SerialRead(MalformedOk())).sent == []
    ensures var u := Step(t, SerialRead(MalformedOk())).next;
            Inv(u) && Registered(u, fd, k) && FindFd(u.clients, f) == 0 &&
            u.clients[0].channel == -1 && u.clients[0].registered
  {
    MalformedText();
    ControlRead(t, Ascii("ok:connect:zz"));
    assert FindChannel(t.clients, -1) == 0;
    var u := Step(t, SerialRead(MalformedOk())).next;
    var c := Registration(AllocInto(t), 0, true).clients[0];
    assert u.clients == t.clients[0 := c];
    FindAfterSet(t.clients, 0, c, fd);
    FindAfterSet(t.clients, 0, c, f);
  }

  lemma StraySends(u: State, f: int)
    requires Inv(u) && FindFd(u.clients, f) == 0 && u.clients[0].channel == -1 && u.clients[0].registered
    ensures var e := ClientRead(f, [97]);
            Enabled(u, e) && Step(u, e).sent == [Frame(-1, [97])] && Step(u, e).next.clients == u.clients
  {
    StepInv(u, ClientRead(f, [97]));
  }

  lemma StrayBreaks(u: State, f: int, fd: int)
    requires Inv(u) && Registered(u, fd, 255) && f != fd
    requires FindFd(u.clients, f) == 0 && u.clients[0].channel == -1 && u.clients[0].registered
    ensures Breaks(u, [ClientRead(f, [97])], fd, 255)
  {
    var e := ClientRead(f, [97]);
    StraySends(u, f);
    PayloadsOfOne(Frame(-1, [97]), 255);
    ReadFromOne(e, fd);
    OneStepBreaks(u, e, Frame(-1, [97]), fd, 255);
  }

  lemma LastChannelBreaks(s: State, fd: int) returns (events: seq<Event>)
    requires Inv(s) && s.rx.Idle() && Registered(s, fd, 255)
    ensures Breaks(s, events, fd, 255)
  {
    Connected(s, fd, 255);
    var f := FreshFd(s);
    var t := Step(s, Accept(f)).next;
    MalformedRegisters(t, f, fd, 255);
    var u := Step(t, SerialRead(MalformedOk())).next;
    StrayBreaks(u, f, fd);
    events := [ClientRead(f, [97])];
    AddStep(t, SerialRead(MalformedOk()), events, fd, 255);
    events := [SerialRead(MalformedOk())] + events;
    AddStep(s, Accept(f), events, fd, 255);
    events := [Accept(f)] + events;
  }

  lemma NoChannelBreaks(s: State, fd: int)
    requires Inv(s) && Registered(s, fd, -1)
    ensures Breaks(s, [ClientRead(fd, [97])], fd, -1)
  {
    var e := ClientRead(fd, [97]);
    StepInv(s, e);
    assert Step(s, e).next.clients == s.clients;
    PayloadsOfOne(Frame(-1, [97]), -1);
    ReadFromOne(e, fd);
    OneStepBreaks(s, e, Frame(-1, [97]), fd, -1);
  }

  // Exactly which channels keep the promise of an unmixed stream in every run: all but
  // 0, which carries the control messages, and 255, which a client registered by a
  // malformed id also sends on.
  lemma StreamIntactIff(s: State, fd: int, k: int)
    requires Inv(s) && s.rx.Idle() && Registered(s, fd, k)
    ensures StreamIntact(s, fd, k) <==> 0 < k < 255
  {
    if 0 < k < 255 {
      forall events | Runs(s, events) && StaysRegistered(s, events, fd, k)
        ensures PayloadsOn(Sent(s, events), k) == ReadFrom(events, fd)
      {
        UnsharedStays(s, events, fd, k);
        RunStream(s, events, fd, k);
      }
    } else {
      assert -1 <= k < CHANNELS;
      var events := [ClientRead(fd, [97])];
      if k == 0 {
        events := ZeroBreaks(s, fd);
      } else if k == 255 {
        events := LastChannelBreaks(s, fd);
      } else {
        NoChannelBreaks(s, fd);
      }
      assert Breaks(s, events, fd, k);
    }
  }

  // --------------------------------------------------- channel 0 can be reached

  // Client fd is alone; it holds this channel and is not registered.
  predicate Alone(s: State, fd: int, last: nat, channel: int) {
    && Inv(s) && s.rx.Idle() && s.last == last
    && |s.clients| == 1 && s.clients[0].fd == fd && s.clients[0].channel == channel && !s.clients[0].registered
  }

  function Ask(fd: int): Event {
    ClientRead(fd, [97])
  }

  lemma Asks(s: State, fd: int, last: nat)
    requires Alone(s, fd, last, -1)
    ensures Enabled(s, Ask(fd)) && Alone(Step(s, Ask(fd)).next, fd, last + 1, (last + 1) % CHANNELS)
    ensures var t := Step(s, Ask(fd)).next; t.clients[0].out == s.clients[0].out && t.closing == s.closing
  {
    var channels := ChannelsOf(s.clients);
    FindIs(s.clients, 0);
    assert channels == [-1];
    assert (last + 1) % CHANNELS !in channels;
    assert SomeFree(channels);
    NextIsUnique(channels, last, Next(channels, last), last + 1);
    StepInv(s, Ask(fd));
    AskingSends(AllocInto(s), 0, s.pool.Top());
    assert Step(s, Ask(fd)) == OpenChannel(AllocInto(s), 0, [97], s.pool.Top());
  }

  // The emulator's answer for a channel.
  function AnswerText(ok: bool, channel: nat): seq<Byte> {
    Ascii(if ok then "ok:connect:" else "ko:connect:") + Hex.Text(channel, 2)
  }

  function Answer(ok: bool, channel: nat): Event {
    SerialRead(EncodeFrame(Frame(0, AnswerText(ok, channel))))
  }

  lemma AnswerIs(ok: bool, channel: nat)
    requires channel < CHANNELS
    ensures |AnswerText(ok, channel)| == 13
    ensures ParseControl(AnswerText(ok, channel)) == if ok then OkConnect(channel) else KoConnect(channel)
  {
    Hex.ValueOfText(channel, 2);
    assert Hex.Pow16(2) == 256;
    ParseCommands(Hex.Text(channel, 2));
  }

  lemma Answered(s: State, fd: int, last: nat, channel: nat, ok: bool)
    requires channel < CHANNELS && Alone(s, fd, last, channel)
    ensures Enabled(s, Answer(ok, channel))
    ensures var t := Step(s, Answer(ok, channel)).next;
            (if ok then Registered(t, fd, channel) else Alone(t, fd, last, -1)) &&
            Inv(t) && t.rx.Idle() && t.closing == s.closing && |t.clients| == 1 && t.clients[0].fd == fd &&
            t.clients[0] == Client(fd, if ok then channel else -1, ok,
              s.clients[0].out.Push(Pkt(AllocInto(s).pool.Top(), if ok then OkText() else KoText())))
  {
    AnswerIs(ok, channel);
    ControlRead(s, AnswerText(ok, channel));
    SoleClient(s, channel);
    var t := Step(s, Answer(ok, channel)).next;
    var c := s.clients[0];
    assert |t.clients| == 1 && t.clients[0].fd == fd;
    FindIs(t.clients, 0);
  }

  lemma SoleClient(s: State, channel: nat)
    requires |s.clients| == 1 && s.clients[0].channel == channel
    ensures FindChannel(s.clients, channel) == 0
  {
  }

  predicate Leads(s: State, events: seq<Event>, t: State) {
    Runs(s, events) && Final(s, events) == t
  }

  lemma OneMore(s: State, e: Event, rest: seq<Event>, t: State)
    requires Enabled(s, e) && Leads(Step(s, e).next, rest, t)
    ensures Leads(s, [e] + rest, t)
  {
    assert ([e] + rest)[1..] == rest;
  }

  lemma FirstStep(s: State, events: seq<Event>, t: State) returns (s1: State)
    requires Leads(s, events, t) && events != []
    ensures Enabled(s, events[0]) && s1 == Step(s, events[0]).next && Leads(s1, events[1..], t)
  {
    s1 := Step(s, events[0]).next;
  }

  lemma {:induction false} Then(s: State, a: seq<Event>, t: State, b: seq<Event>, u: State)
    requires Leads(s, a, t) && Leads(t, b, u)
    ensures Leads(s, a + b, u)
    decreases |a|
  {
    if a == [] {
      assert a + b == b;
    } else {
      var s1 := FirstStep(s, a, t);
      Then(s1, a[1..], t, b, u);
      assert a + b == [a[0]] + (a[1..] + b);
      OneMore(s, a[0], a[1..] + b, u);
    }
  }

  // The client asks and is answered.
  lemma Round(s: State, fd: int, last: nat, ok: bool) returns (events: seq<Event>, t: State)
    requires Alone(s, fd, last, -1)
    ensures Leads(s, events, t)
    ensures if ok then Registered(t, fd, (last + 1) % CHANNELS) else Alone(t, fd, last + 1, -1)
  {
    var channel := (last + 1) % CHANNELS;
    Asks(s, fd, last);
    var s1 := Step(s, Ask(fd)).next;
    Answered(s1, fd, last + 1, channel, ok);
    t := Step(s1, Answer(ok, channel)).next;
    OneMore(s1, Answer(ok, channel), [], t);
    assert [Answer(ok, channel)] + [] == [Answer(ok, channel)];
    OneMore(s, Ask(fd), [Answer(ok, channel)], t);
    events := [Ask(fd)] + [Answer(ok, channel)];
  }

  // Refused each time it asks, the client counts the channels up; on 0 it is accepted.
  lemma {:induction false} CountsUp(s: State, fd: int, last: nat) returns (events: seq<Event>, t: State)
    requires Alone(s, fd, last, -1) && last < CHANNELS
    ensures Leads(s, events, t) && Registered(t, fd, 0)
    decreases CHANNELS - last
  {
    if last == 255 {
      events, t := Round(s, fd, last, true);
    } else {
      var first, u := Round(s, fd, last, false);
      var rest;
      rest, t := CountsUp(u, fd, last + 1);
      Then(s, first, u, rest, t);
      events := first + rest;
    }
  }

  // The daemon's comments promise channel numbers above 0; this run hands out 0.
  lemma ZeroIsHandedOut() returns (events: seq<Event>)
    ensures Runs(Initial, events) && Registered(Final(Initial, events), 5, 0)
  {
    InitialInv();
    var s := Step(Initial, Accept(5)).next;
    StepInv(Initial, Accept(5));
    var rest, t := CountsUp(s, 5, 0);
    OneMore(Initial, Accept(5), rest, t);
    events := [Accept(5)] + rest;
  }
}
