// The whole qemud daemon (android/qemud/qemud.c) on the objects in memory: what each kernel
// event does to them is what the step relation says, in every run.
module MuxDaemon {
  import opened Bytes
  import opened Seqs
  import opened Framing
  import opened Channels
  import opened Multiplexer
  import opened MuxInvariants
  import opened MuxObject

  // multiplexer_control_accept
  method Accepted(m: Mux, fd: int)
    requires m.Valid()
    modifies m, m.nodes
    ensures m.Valid() && m.Kept()
    ensures m.Now() == FreeId(AllocInto(old(m.Now())), old(m.pool).Top()).(
      clients := [Client(fd, -1, false, EmptyQueue)] + old(m.Now()).clients)
  {
    m.pool := m.pool.Alloc().Free(m.pool.Top());
    var c := m.ClientNew(fd);
  }

  // A read that fails gives its packet back.
  method ReadFailed(m: Mux)
    requires m.Valid()
    modifies m`pool
    ensures m.Valid() && m.Now() == FreeId(AllocInto(old(m.Now())), old(m.pool).Top())
  {
    m.pool := m.pool.Alloc().Free(m.pool.Top());
  }

  // A read that returns 0 does not.
  method ReadNothing(m: Mux)
    requires m.Valid()
    modifies m`pool, m`lost
    ensures m.Valid() && m.Now() == AllocInto(old(m.Now())).(lost := [old(m.pool).Top()] + old(m.lost))
  {
    m.lost := [m.pool.Top()] + m.lost;
    m.pool := m.pool.Alloc();
  }

  method ClientReadable(m: Mux, fd: int, data: seq<Byte>)
    requires m.Valid() && FindFd(m.Now().clients, fd) >= 0
    requires var c := m.Now().clients[FindFd(m.Now().clients, fd)];
      !c.registered && c.channel <= 0 ==> SomeFree(ChannelsOf(m.Now().clients))
    modifies m, m.nodes
    ensures m.Valid() && m.Kept()
    ensures m.Now() ==
      ClientReceive(AllocInto(old(m.Now())), FindFd(old(m.Now()).clients, fd), data, old(m.pool).Top()).next
  {
    var c, i := m.FindByFd(fd);
    var id := m.pool.Top();
    m.pool := m.pool.Alloc();
    m.ClientFdReceive(c, data, id, i);
  }

  // fdhandler_close of a handler whose client is gone
  method ClosingHungUp(m: Mux, fd: int)
    requires m.Valid() && FindClosing(m.closing, fd) >= 0
    modifies m`pool, m`closing
    ensures m.Valid()
    ensures var j := FindClosing(old(m.closing), fd);
            m.Now() == old(m.Now()).(closing := Without(old(m.closing), j),
                                     pool := FreeAll(old(m.pool), old(m.closing)[j].out.pkts))
  {
    var j := FindClosing(m.closing, fd);
    m.FreePackets(m.closing[j].out.pkts);
    m.closing := Without(m.closing, j);
  }

  method HungUp(m: Mux, fd: int)
    requires m.Valid() && Watched(m.Now(), fd)
    modifies m, m.nodes
    ensures m.Valid() && m.Kept()
    ensures var s := old(m.Now()); var i := FindFd(s.clients, fd); var j := FindClosing(s.closing, fd);
            m.Now() == if i >= 0 then HangUp(s, i).next
                       else s.(closing := Without(s.closing, j), pool := FreeAll(s.pool, s.closing[j].out.pkts))
  {
    var c, i := m.FindByFd(fd);
    if c != null {
      m.ClientClosed(c, i);
    } else {
      ClosingHungUp(m, fd);
    }
  }

  // The write part of fdhandler_event, for a client
  method ClientWritable(m: Mux, c: Node, n: int, ghost i: nat)
    requires m.Valid() && i < |m.nodes| && m.nodes[i] == c && c.out.Valid() && c.out.CanWrite(n)
    modifies m`pool, c`out
    ensures m.Valid()
    ensures var s, q := old(m.Now()), old(c.out);
            m.Now() == SetClient(s, i, old(c.Value()).(out := q.AfterWrite(n))).(pool := Write(q, s.pool, n).1)
  {
    ghost var before := ValuesOf(m.nodes);
    var (q, pool) := Write(c.out, m.pool, n);
    c.out, m.pool := q, pool;
    m.OneChanged(before, i);
  }

  // ... and for a handler whose client is gone
  method ClosingWritable(m: Mux, fd: int, n: int)
    requires m.Valid() && FindClosing(m.closing, fd) >= 0
    requires var q := m.closing[FindClosing(m.closing, fd)].out; q.Valid() && q.CanWrite(n)
    modifies m`pool, m`closing
    ensures m.Valid()
    ensures var s := old(m.Now()); var j := FindClosing(s.closing, fd); var q := s.closing[j].out;
            m.Now() == s.(closing := s.closing[j := Closing(fd, q.AfterWrite(n))], pool := Write(q, s.pool, n).1)
  {
    var j := FindClosing(m.closing, fd);
    var (q, pool) := Write(m.closing[j].out, m.pool, n);
    m.closing, m.pool := m.closing[j := Closing(fd, q)], pool;
  }

  // The frames a read completes, each in in_packet, which is then replaced
  method ServeFrames(m: Mux, frames: seq<Frame>)
    requires m.Valid()
    modifies m, m.nodes
    ensures m.Valid() && m.Kept() && m.Now() == ServeAll(old(m.Now()), frames)
    decreases |frames|
  {
    if frames != [] {
      m.SerialReceive(frames[0], m.inId);
      assert m.Kept();
      m.inId, m.pool := m.pool.Top(), m.pool.Alloc();
      ServeFrames(m, frames[1..]);
    }
  }

  // serial_fd_receive
  method SerialReadable(m: Mux, data: seq<Byte>)
    requires m.Valid() && m.rx.Valid()
    modifies m, m.nodes
    ensures m.Valid() && m.Kept()
    ensures var s := old(m.Now()); var (rx, frames) := Feed(s.rx, data);
            m.Now() == FreeId(ServeAll(AllocInto(s), frames), s.pool.Top()).(rx := rx)
  {
    var id := m.pool.Top();
    m.pool := m.pool.Alloc();
    var (rx, frames) := Feed(m.rx, data);
    ServeFrames(m, frames);
    m.pool := m.pool.Free(id);
    m.rx := rx;
  }

  method SerialWritable(m: Mux, n: int)
    requires m.Valid() && m.serial.Valid() && m.serial.CanWrite(n)
    modifies m`pool, m`serial
    ensures m.Valid()
    ensures var s := old(m.Now()); var (q, pool) := Write(s.serial, s.pool, n); m.Now() == s.(serial := q, pool := pool)
  {
    m.serial, m.pool := Write(m.serial, m.pool, n).0, Write(m.serial, m.pool, n).1;
  }

  // Input events of clients, and of the socket that accepts them.
  method PerformInput(m: Mux, e: Event)
    requires m.Valid() && Enabled(m.Now(), e)
    requires e.Accept? || e.AcceptError? || e.ClientRead? || e.ClientReadError? || e.ClientReadZero?
    modifies m, m.nodes
    ensures m.Valid() && m.Kept() && m.Now() == Step(old(m.Now()), e).next
  {
    match e
    case Accept(fd) => Accepted(m, fd);
    case AcceptError => ReadFailed(m);
    case ClientRead(fd, data) => ClientReadable(m, fd, data);
    case ClientReadError(fd) => ReadFailed(m);
    case ClientReadZero(fd) => ReadNothing(m);
  }

  method PerformClient(m: Mux, e: Event)
    requires m.Valid() && Enabled(m.Now(), e) && (e.ClientHangUp? || e.ClientWrite?)
    modifies m, m.nodes
    ensures m.Valid() && m.Kept() && m.Now() == Step(old(m.Now()), e).next
  {
    match e
    case ClientHangUp(fd) => HungUp(m, fd);
    case ClientWrite(fd, n) =>
      var c, i := m.FindByFd(fd);
      if c != null {
        assert m.Now().clients[i] == c.Value();
        ClientWritable(m, c, n, i);
      } else {
        ClosingWritable(m, fd, n);
      }
  }

  method PerformSerial(m: Mux, e: Event)
    requires m.Valid() && Enabled(m.Now(), e)
    requires e.SerialRead? || e.SerialReadError? || e.SerialReadZero? || e.SerialWrite?
    modifies m, m.nodes
    ensures m.Valid() && m.Kept() && m.Now() == Step(old(m.Now()), e).next
  {
    match e
    case SerialRead(data) => SerialReadable(m, data);
    case SerialReadError => ReadFailed(m);
    case SerialReadZero => ReadNothing(m);
    case SerialWrite(n) => SerialWritable(m, n);
  }

  method Perform(m: Mux, e: Event)
    requires m.Valid() && Enabled(m.Now(), e)
    modifies m, m.nodes
    ensures m.Valid() && m.Kept() && m.Now() == Step(old(m.Now()), e).next
  {
    if e.SerialRead? || e.SerialReadError? || e.SerialReadZero? || e.SerialWrite? {
      PerformSerial(m, e);
    } else if e.ClientHangUp? || e.ClientWrite? {
      PerformClient(m, e);
    } else {
      PerformInput(m, e);
    }
  }

  method PerformAll(m: Mux, events: seq<Event>)
    requires m.Valid() && Runs(m.Now(), events)
    modifies m, m.nodes
    ensures m.Valid() && m.Kept() && m.Now() == Final(old(m.Now()), events)
    decreases |events|
  {
    if events != [] {
      Perform(m, events[0]);
      assert m.Kept();
      PerformAll(m, events[1..]);
    }
  }

  // Any run of the daemon from its start: the objects follow the step relation, so all that
  // is proved of its runs holds of them.
  method Interleave(m: Mux, events: seq<Event>)
    requires m.Valid() && m.Now() == Initial && Runs(Initial, events)
    modifies m, m.nodes
    ensures m.Valid() && m.Now() == Final(Initial, events) && Inv(m.Now())
  {
    PerformAll(m, events);
    InitialInv();
    RunInv(Initial, events);
  }
}
