// Handlers of the qemud multiplexer (android/qemud/qemud.c) whose client is gone: they stay
// until their queue is written, and then until their descriptor hangs up.
module MuxClosing {
  import opened Bytes
  import opened Seqs
  import opened Framing
  import opened Channels
  import opened Multiplexer
  import opened MuxInvariants
  import opened MuxLimits
  import Hex

  // A closing handler with nothing left to write.
  predicate Drained(closing: seq<Closing>, fd: int) {
    exists j :: 0 <= j < |closing| && closing[j].fd == fd && closing[j].out.pkts == []
  }

  lemma DrainedFirst(c: Closing, closing: seq<Closing>, fd: int)
    requires Drained(closing, fd)
    ensures Drained([c] + closing, fd)
  {
    var j :| 0 <= j < |closing| && closing[j].fd == fd && closing[j].out.pkts == [];
    assert ([c] + closing)[j + 1] == closing[j];
  }

  lemma DrainedWithout(closing: seq<Closing>, i: nat, fd: int)
    requires Drained(closing, fd) && i < |closing| && closing[i].fd != fd
    ensures Drained(Without(closing, i), fd)
  {
    var j :| 0 <= j < |closing| && closing[j].fd == fd && closing[j].out.pkts == [];
    WithoutAt(closing, i, if j < i then j else j - 1);
  }

  lemma DrainedGone(closing: seq<Closing>, i: nat, fd: int)
    requires i < |closing| && closing[i].fd == fd
    requires forall j, k :: 0 <= j < k < |closing| ==> closing[j].fd != closing[k].fd
    ensures !Drained(Without(closing, i), fd)
  {
    forall j | 0 <= j < |closing| - 1
      ensures Without(closing, i)[j].fd != fd
    {
      WithoutAt(closing, i, j);
    }
  }

  lemma FreeClientDrained(s: State, i: nat, fd: int)
    requires Drained(s.closing, fd) && i < |s.clients|
    ensures Drained(FreeClient(s, i).closing, fd)
  {
    var c := s.clients[i];
    if c.out.pkts != [] { DrainedFirst(Closing(c.fd, c.out), s.closing, fd); }
  }

  lemma ControlDrained(s: State, control: Control, fd: int)
    requires Drained(s.closing, fd)
    ensures Drained(HandleControl(s, control).closing, fd)
  {
    match control
    case Disconnect(channel) =>
      var i := FindChannel(s.clients, channel);
      if i >= 0 { FreeClientDrained(s, i, fd); }
    case _ =>
  }

  lemma {:induction false} ServeAllDrained(s: State, frames: seq<Frame>, fd: int)
    requires Drained(s.closing, fd)
    ensures Drained(ServeAll(s, frames).closing, fd)
    decreases |frames|
  {
    if frames != [] {
      if frames[0].channel == 0 { ControlDrained(s, ParseControl(frames[0].payload), fd); }
      var s1 := Serve(s, frames[0], s.inId);
      ServeAllDrained(AllocInto(s1).(inId := s1.pool.Top()), frames[1..], fd);
    }
  }

  lemma ReceiveDrained(s: State, i: nat, data: seq<Byte>, id: nat, fd: int)
    requires Drained(s.closing, fd) && i < |s.clients|
    requires !s.clients[i].registered && s.clients[i].channel <= 0 ==> SomeFree(ChannelsOf(s.clients))
    ensures Drained(ClientReceive(s, i, data, id).next.closing, fd)
  {
    if !s.clients[i].registered {
      if s.clients[i].channel > 0 {
        FreeClientDrained(FreeId(s, id), i, fd);
      } else {
        var last := Next(ChannelsOf(s.clients), s.last);
        FreeClientDrained(FreeId(FreeId(AllocInto(s).(last := last), s.pool.Top()), id), i, fd);
      }
    }
  }

  lemma WriteDrained(closing: seq<Closing>, i: nat, c: Closing, fd: int)
    requires Drained(closing, fd) && i < |closing| && closing[i].out.pkts != []
    requires forall j, k :: 0 <= j < k < |closing| ==> closing[j].fd != closing[k].fd
    ensures Drained(closing[i := c], fd)
  {
    var j :| 0 <= j < |closing| && closing[j].fd == fd && closing[j].out.pkts == [];
    assert closing[i := c][j] == closing[j];
  }

  // A drained handler leaves with a hang-up on its descriptor, and with nothing else.
  lemma StepDrained(s: State, e: Event, fd: int)
    requires Inv(s) && Enabled(s, e) && Drained(s.closing, fd)
    ensures Drained(Step(s, e).next.closing, fd) <==> e != ClientHangUp(fd)
  {
    match e
    case ClientRead(fd', data) => ReceiveDrained(AllocInto(s), FindFd(s.clients, fd'), data, s.pool.Top(), fd);
    case ClientHangUp(fd') =>
      if FindFd(s.clients, fd') < 0 {
        var i := FindClosing(s.closing, fd');
        if fd' == fd { DrainedGone(s.closing, i, fd); } else { DrainedWithout(s.closing, i, fd); }
      }
    case ClientWrite(fd', n) =>
      if FindFd(s.clients, fd') < 0 {
        var i := FindClosing(s.closing, fd');
        WriteDrained(s.closing, i, Closing(fd', Write(s.closing[i].out, s.pool, n).0), fd);
      }
    case SerialRead(data) => ServeAllDrained(AllocInto(s), Feed(s.rx, data).1, fd);
    case _ =>
  }

  // The handler is there, drained, after every event.
  predicate Lingers(s: State, events: seq<Event>, fd: int)
    requires Runs(s, events)
    decreases |events|
  {
    Drained(s.closing, fd) && (events == [] || Lingers(Step(s, events[0]).next, events[1..], fd))
  }

  // In every run a drained handler stays if and only if its descriptor does not hang up.
  lemma {:induction false} LingersIff(s: State, events: seq<Event>, fd: int)
    requires Inv(s) && Runs(s, events) && Drained(s.closing, fd)
    ensures Lingers(s, events, fd) <==> ClientHangUp(fd) !in events
    decreases |events|
  {
    if events != [] {
      StepDrained(s, events[0], fd);
      StepInv(s, events[0]);
      if events[0] != ClientHangUp(fd) {
        LingersIff(Step(s, events[0]).next, events[1..], fd);
        assert events == [events[0]] + events[1..];
      }
    }
  }

  // ------------------------------------------------------ one is left behind

  function Dismiss(): Event {
    SerialRead(EncodeFrame(Frame(0, DisconnectText(1))))
  }

  lemma DismissText()
    ensures |DisconnectText(1)| == 13 && ParseControl(DisconnectText(1)) == Disconnect(1)
  {
    var id := Hex.Text(1, 2);
    DigitsOf(1, 2, 256);
    ParseCommands(id);
    assert DisconnectText(1) == Ascii("disconnect:") + id;
  }

  // The emulator dismisses a client that still has its answer to read.
  lemma Dismissed(s: State, fd: int, q: OutQueue)
    requires Inv(s) && s.rx.Idle() && s.closing == [] && s.clients == [Client(fd, 1, true, q)] && q.pkts != []
    ensures Enabled(s, Dismiss())
    ensures var t := Step(s, Dismiss()).next; Inv(t) && t.clients == [] && t.closing == [Closing(fd, q)]
  {
    DismissText();
    ControlRead(s, DisconnectText(1));
    SoleClient(s, 1);
    assert Without(s.clients, 0) == [];
  }

  lemma Reads(s: State, fd: int, id: nat)
    requires Inv(s) && s.clients == [] && s.closing == [Closing(fd, OutQueue([Pkt(id, OkText())], 0))]
    ensures Enabled(s, ClientWrite(fd, 2))
    ensures var t := Step(s, ClientWrite(fd, 2)).next; t.clients == [] && Drained(t.closing, fd)
  {
    var out := s.closing[0].out;
    assert out.CanWrite(2) && out.Completes(2);
    assert Step(s, ClientWrite(fd, 2)).next.closing[0] == Closing(fd, out.AfterWrite(2));
  }

  lemma ConnectsFirst() returns (s: State)
    ensures Enabled(Initial, Accept(5)) && s == Step(Initial, Accept(5)).next && Inv(s)
    ensures Alone(s, 5, 0, -1) && s.clients[0].out == EmptyQueue && s.closing == []
  {
    InitialInv();
    StepInv(Initial, Accept(5));
    s := Step(Initial, Accept(5)).next;
  }

  lemma OneClient(clients: seq<Client>)
    requires |clients| == 1
    ensures clients == [clients[0]]
  {
  }

  lemma FirstPacket(p: Pkt)
    ensures EmptyQueue.Push(p) == OutQueue([p], 0)
  {
  }

  lemma IsRegistered(s: State, fd: int) returns (t: State, id: nat)
    requires Alone(s, fd, 1, 1) && s.clients[0].out == EmptyQueue && s.closing == []
    ensures Enabled(s, Answer(true, 1)) && t == Step(s, Answer(true, 1)).next
    ensures Inv(t) && t.rx.Idle() && t.closing == []
    ensures t.clients == [Client(fd, 1, true, OutQueue([Pkt(id, OkText())], 0))]
  {
    Answered(s, fd, 1, 1, true);
    t, id := Step(s, Answer(true, 1)).next, AllocInto(s).pool.Top();
    OneClient(t.clients);
    FirstPacket(Pkt(id, OkText()));
  }

  lemma RegistersFirst() returns (events: seq<Event>, t: State, id: nat)
    ensures Leads(Initial, events, t) && ClientHangUp(5) !in events
    ensures Inv(t) && t.rx.Idle() && t.closing == []
    ensures t.clients == [Client(5, 1, true, OutQueue([Pkt(id, OkText())], 0))]
  {
    var s1 := ConnectsFirst();
    Asks(s1, 5, 0);
    var s2 := Step(s1, Ask(5)).next;
    t, id := IsRegistered(s2, 5);
    events := ThreeSteps(Accept(5), s1, Ask(5), s2, Answer(true, 1), t);
  }

  lemma ThreeSteps(a: Event, s1: State, b: Event, s2: State, c: Event, t: State) returns (events: seq<Event>)
    requires Enabled(Initial, a) && s1 == Step(Initial, a).next && Enabled(s1, b) && s2 == Step(s1, b).next
    requires Enabled(s2, c) && t == Step(s2, c).next
    ensures events == [a, b, c] && Leads(Initial, events, t)
  {
    OneMore(s2, c, [], t);
    OneMore(s1, b, [c] + [], t);
    OneMore(Initial, a, [b] + ([c] + []), t);
    events := [a] + ([b] + ([c] + []));
  }

  // A run that leaves a drained handler behind: its client registers, is dismissed before
  // it reads the answer, and then reads it.
  lemma LeftBehind() returns (events: seq<Event>, t: State)
    ensures Leads(Initial, events, t) && t.clients == [] && Drained(t.closing, 5) && ClientHangUp(5) !in events
  {
    var first, s, id := RegistersFirst();
    Dismissed(s, 5, s.clients[0].out);
    var s1 := Step(s, Dismiss()).next;
    Reads(s1, 5, id);
    t := Step(s1, ClientWrite(5, 2)).next;
    OneMore(s1, ClientWrite(5, 2), [], t);
    OneMore(s, Dismiss(), [ClientWrite(5, 2)] + [], t);
    var second := [Dismiss()] + ([ClientWrite(5, 2)] + []);
    Then(Initial, first, s, second, t);
    events := first + second;
  }
}
