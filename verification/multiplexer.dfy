// The qemud multiplexer (android/qemud/qemud.c) as a transition system: one step for
// each event callback that the event loop runs. Packets are named by number, so that
// where each one is can be followed from step to step.
module Multiplexer {
  import opened Bytes
  import opened Seqs
  import opened Framing
  import opened Channels
  import Hex

  // ------------------------------------------------------------------ packets

  datatype Pkt = Pkt(id: nat, bytes: seq<Byte>)

  // packet_alloc and packet_free over the stack of free packets; `made` packets have
  // been allocated so far, named 0 .. made - 1.
  datatype Pool = Pool(free: seq<nat>, made: nat) {
    function Top(): nat {
      if free == [] then made else free[0]
    }
    function Alloc(): Pool {
      if free == [] then Pool([], made + 1) else Pool(free[1..], made)
    }
    function Free(id: nat): Pool {
      Pool([id] + free, made)
    }
  }

  function Join(pkts: seq<Pkt>): seq<Byte> {
    if pkts == [] then [] else pkts[0].bytes + Join(pkts[1..])
  }

  // The outgoing queue of a descriptor, the head packet written up to pos.
  datatype OutQueue = OutQueue(pkts: seq<Pkt>, pos: nat) {
    predicate Valid() {
      if pkts == [] then pos == 0 else pos <= |pkts[0].bytes|
    }
    function Pending(): seq<Byte>
      requires Valid()
    {
      Join(pkts)[pos..]
    }
    function Push(p: Pkt): OutQueue {
      OutQueue(pkts + [p], pos)
    }
    // What write() may return: an error, or a number of bytes of the head packet.
    predicate CanWrite(n: int)
      requires Valid()
    {
      pkts != [] && n <= |pkts[0].bytes| - pos
    }
    predicate Completes(n: int)
      requires Valid() && CanWrite(n)
    {
      n >= 0 && pos + n == |pkts[0].bytes|
    }
    function AfterWrite(n: int): OutQueue
      requires Valid() && CanWrite(n)
    {
      if n < 0 then this else if Completes(n) then OutQueue(pkts[1..], 0) else OutQueue(pkts, pos + n)
    }
    function BytesWritten(n: int): seq<Byte>
      requires Valid() && CanWrite(n)
    {
      if n < 0 then [] else pkts[0].bytes[pos..pos + n]
    }
  }

  const EmptyQueue := OutQueue([], 0)

  // ------------------------------------------------------------------- state

  datatype Client = Client(fd: int, channel: int, registered: bool, out: OutQueue)

  // A handler whose client is gone but whose queue is still being written.
  datatype Closing = Closing(fd: int, out: OutQueue)

  datatype State = State(
    pool: Pool,
    lost: seq<nat>,             // packets dropped by reads that returned 0
    clients: seq<Client>,       // newest first
    closing: seq<Closing>,
    last: int,                  // last_channel
    serial: OutQueue,           // outgoing queue of the serial port
    rx: Rx,                     // frame receiver of the serial port
    inId: nat)                  // in_packet

  const Initial := State(Pool([], 1), [], [], [], 0, EmptyQueue, Rx([], 0, 0), 0)

  function ChannelsOf(clients: seq<Client>): (r: seq<int>)
    ensures |r| == |clients| && forall i :: 0 <= i < |clients| ==> r[i] == clients[i].channel
  {
    seq(|clients|, i requires 0 <= i < |clients| => clients[i].channel)
  }

  // multiplexer_find_client: the first client on a channel, or -1.
  function FindChannel(clients: seq<Client>, channel: int): (r: int)
    ensures -1 <= r < |clients|
    ensures r >= 0 ==> clients[r].channel == channel
    ensures r < 0 ==> forall i :: 0 <= i < |clients| ==> clients[i].channel != channel
  {
    if clients == [] then -1
    else if clients[0].channel == channel then 0
    else
      var r := FindChannel(clients[1..], channel);
      assert r < 0 ==> forall i :: 1 <= i < |clients| ==> clients[i] == clients[1..][i - 1];
      if r < 0 then -1 else r + 1
  }

  // The client behind a descriptor, or -1.
  function FindFd(clients: seq<Client>, fd: int): (r: int)
    ensures -1 <= r < |clients|
    ensures r >= 0 ==> clients[r].fd == fd
    ensures r < 0 ==> forall i :: 0 <= i < |clients| ==> clients[i].fd != fd
  {
    if clients == [] then -1
    else if clients[0].fd == fd then 0
    else
      var r := FindFd(clients[1..], fd);
      assert r < 0 ==> forall i :: 1 <= i < |clients| ==> clients[i] == clients[1..][i - 1];
      if r < 0 then -1 else r + 1
  }

  function FindClosing(closing: seq<Closing>, fd: int): (r: int)
    ensures -1 <= r < |closing|
    ensures r >= 0 ==> closing[r].fd == fd
    ensures r < 0 ==> forall i :: 0 <= i < |closing| ==> closing[i].fd != fd
  {
    if closing == [] then -1
    else if closing[0].fd == fd then 0
    else
      var r := FindClosing(closing[1..], fd);
      assert r < 0 ==> forall i :: 1 <= i < |closing| ==> closing[i] == closing[1..][i - 1];
      if r < 0 then -1 else r + 1
  }

  // -------------------------------------------------------------- operations

  function AllocInto(s: State): State {
    s.(pool := s.pool.Alloc())
  }

  function FreeId(s: State, id: nat): State {
    s.(pool := s.pool.Free(id))
  }

  // multiplexer_serial_send
  function SerialSend(s: State, channel: int, id: nat, data: seq<Byte>): State {
    AllocInto(s).(serial := s.serial.Push(Pkt(s.pool.Top(), Header(channel, |data|))).Push(Pkt(id, data)))
  }

  // client_free: the client leaves the list; its handler stays until its queue drains.
  function FreeClient(s: State, i: nat): State
    requires i < |s.clients|
  {
    var c := s.clients[i];
    s.(clients := Without(s.clients, i),
       closing := if c.out.pkts == [] then s.closing else [Closing(c.fd, c.out)] + s.closing)
  }

  function SetClient(s: State, i: nat, c: Client): State
    requires i < |s.clients|
  {
    s.(clients := s.clients[i := c])
  }

  function OkText(): seq<Byte> { Ascii("OK") }
  function KoText(): seq<Byte> { Ascii("KO") }

  // client_registration
  function Registration(s: State, i: nat, ok: bool): State
    requires i < |s.clients|
  {
    var c := s.clients[i];
    var p := Pkt(s.pool.Top(), if ok then OkText() else KoText());
    SetClient(AllocInto(s), i, Client(c.fd, if ok then c.channel else -1, ok, c.out.Push(p)))
  }

  datatype Control = OkConnect(channel: int) | KoConnect(channel: int) | Disconnect(channel: int) | OtherControl

  // The commands of multiplexer_handle_control.
  function ParseControl(payload: seq<Byte>): Control {
    if |payload| != 13 then OtherControl
    else
      var command, channel := payload[..11], Hex.Value(payload[11..]);
      if command == Ascii("ok:connect:") then OkConnect(channel)
      else if command == Ascii("ko:connect:") then KoConnect(channel)
      else if command == Ascii("disconnect:") then Disconnect(channel)
      else OtherControl
  }

  function HandleControl(s: State, control: Control): State {
    match control
    case OkConnect(channel) =>
      var i := FindChannel(s.clients, channel);
      if i >= 0 then Registration(s, i, true) else s
    case KoConnect(channel) =>
      var i := FindChannel(s.clients, channel);
      if i >= 0 then Registration(s, i, false) else s
    case Disconnect(channel) =>
      var i := FindChannel(s.clients, channel);
      if i >= 0 then FreeClient(s, i) else s
    case OtherControl => s
  }

  // multiplexer_serial_receive of the packet `id`.
  function Serve(s: State, f: Frame, id: nat): State {
    if f.channel == 0 then FreeId(HandleControl(s, ParseControl(f.payload)), id)
    else
      var i := FindChannel(s.clients, f.channel);
      if i >= 0 then
        var c := s.clients[i];
        SetClient(s, i, c.(out := c.out.Push(Pkt(id, f.payload))))
      else FreeId(s, id)
  }

  // Each completed frame is served in in_packet, which is then replaced.
  function ServeAll(s: State, frames: seq<Frame>): State
    decreases |frames|
  {
    if frames == [] then s
    else
      var s1 := Serve(s, frames[0], s.inId);
      ServeAll(AllocInto(s1).(inId := s1.pool.Top()), frames[1..])
  }

  // What "%.*s" prints of the service name: it stops at a NUL byte.
  function UntilNul(s: seq<Byte>): seq<Byte> {
    if s == [] || s[0] == 0 then [] else [s[0]] + UntilNul(s[1..])
  }

  function ConnectText(service: seq<Byte>, channel: int): seq<Byte> {
    Ascii("connect:") + UntilNul(service) + Ascii(":") + Hex.Text(channel, 2)
  }

  function DisconnectText(channel: int): seq<Byte> {
    Ascii("disconnect:") + Hex.Text(channel, 2)
  }

  // -------------------------------------------------------------------- events

  datatype Event =
    | Accept(fd: int)
    | AcceptError
    | ClientRead(fd: int, data: seq<Byte>)
    | ClientReadError(fd: int)
    | ClientReadZero(fd: int)
    | ClientHangUp(fd: int)
    | ClientWrite(fd: int, n: int)
    | SerialRead(data: seq<Byte>)
    | SerialReadError
    | SerialReadZero
    | SerialWrite(n: int)

  // The next state, the frames sent, the bytes the serial port accepted and the bytes
  // the descriptor of a ClientWrite accepted.
  datatype Outcome = Outcome(next: State, sent: seq<Frame>, wire: seq<Byte>, toClient: seq<Byte>)

  function Quiet(s: State): Outcome {
    Outcome(s, [], [], [])
  }

  // A service name arrived from client i, which waits for no answer.
  function OpenChannel(s: State, i: nat, service: seq<Byte>, id: nat): Outcome
    requires i < |s.clients| && SomeFree(ChannelsOf(s.clients))
  {
    var last := Next(ChannelsOf(s.clients), s.last);
    var channel := last % CHANNELS;
    var text := ConnectText(service, channel);
    var s1 := AllocInto(s).(last := last);
    if |text| >= MAX_PAYLOAD then
      Quiet(FreeClient(FreeId(FreeId(s1, s.pool.Top()), id), i))
    else
      var s2 := SerialSend(s1, 0, s.pool.Top(), text);
      Outcome(FreeId(SetClient(s2, i, s2.clients[i].(channel := channel)), id), [Frame(0, text)], [], [])
  }

  // client_fd_receive of the packet `id`.
  function ClientReceive(s: State, i: nat, data: seq<Byte>, id: nat): Outcome
    requires i < |s.clients|
    requires !s.clients[i].registered && s.clients[i].channel <= 0 ==> SomeFree(ChannelsOf(s.clients))
  {
    var c := s.clients[i];
    if c.registered then
      Outcome(SerialSend(s, c.channel, id, data), [Frame(c.channel, data)], [], [])
    else if c.channel > 0 then
      Quiet(FreeClient(FreeId(s, id), i))
    else
      OpenChannel(s, i, data, id)
  }

  // The packets of a discarded queue, head first, pushed on the free list one by one.
  function FreeAll(pool: Pool, pkts: seq<Pkt>): Pool
    decreases |pkts|
  {
    if pkts == [] then pool else FreeAll(pool.Free(pkts[0].id), pkts[1..])
  }

  // fdhandler_close of client i, by way of client_fd_close.
  function HangUp(s: State, i: nat): Outcome
    requires i < |s.clients|
  {
    var c := s.clients[i];
    var text := DisconnectText(c.channel);
    var s1 := if c.channel > 0 then SerialSend(AllocInto(s), 0, s.pool.Top(), text) else s;
    var s2 := s1.(clients := Without(s1.clients, i));
    Outcome(s2.(pool := FreeAll(s2.pool, c.out.pkts)), if c.channel > 0 then [Frame(0, text)] else [], [], [])
  }

  function Write(q: OutQueue, pool: Pool, n: int): (OutQueue, Pool)
    requires q.Valid() && q.CanWrite(n)
  {
    (q.AfterWrite(n), if q.Completes(n) then pool.Free(q.pkts[0].id) else pool)
  }

  predicate Watched(s: State, fd: int) {
    FindFd(s.clients, fd) >= 0 || FindClosing(s.closing, fd) >= 0
  }

  predicate QueuesValid(s: State) {
    && s.serial.Valid()
    && (forall i :: 0 <= i < |s.clients| ==> s.clients[i].out.Valid())
    && (forall i :: 0 <= i < |s.closing| ==> s.closing[i].out.Valid())
  }

  // What the kernel may report next. A read returns at most a packet, an accepted
  // descriptor is one that is not open, and declared lengths fit a packet.
  predicate Enabled(s: State, e: Event) {
    && s.rx.Valid() && QueuesValid(s)
    && match e
       case Accept(fd) => !Watched(s, fd)
       case AcceptError => true
       case ClientRead(fd, data) =>
         var i := FindFd(s.clients, fd);
         && i >= 0 && 1 <= |data| <= MAX_PAYLOAD
         && (!s.clients[i].registered && s.clients[i].channel <= 0 ==> SomeFree(ChannelsOf(s.clients)))
       case ClientReadError(fd) => Watched(s, fd)
       case ClientReadZero(fd) => Watched(s, fd)
       case ClientHangUp(fd) => Watched(s, fd)
       case ClientWrite(fd, n) =>
         var i, j := FindFd(s.clients, fd), FindClosing(s.closing, fd);
         if i >= 0 then s.clients[i].out.CanWrite(n) else j >= 0 && s.closing[j].out.CanWrite(n)
       case SerialRead(data) => 1 <= |data| <= MAX_PAYLOAD && Fits(s.rx, data)
       case SerialReadError => true
       case SerialReadZero => true
       case SerialWrite(n) => s.serial.CanWrite(n)
  }

  function Step(s: State, e: Event): Outcome
    requires Enabled(s, e)
  {
    var id := s.pool.Top();   // the packet a read allocates
    match e
    case Accept(fd) =>
      Quiet(FreeId(AllocInto(s), id).(clients := [Client(fd, -1, false, EmptyQueue)] + s.clients))
    case AcceptError => Quiet(FreeId(AllocInto(s), id))
    case ClientRead(fd, data) => ClientReceive(AllocInto(s), FindFd(s.clients, fd), data, id)
    case ClientReadError(fd) => Quiet(FreeId(AllocInto(s), id))
    case ClientReadZero(fd) => Quiet(AllocInto(s).(lost := [id] + s.lost))
    case ClientHangUp(fd) =>
      var i := FindFd(s.clients, fd);
      if i >= 0 then HangUp(s, i)
      else
        var j := FindClosing(s.closing, fd);
        Quiet(s.(closing := Without(s.closing, j), pool := FreeAll(s.pool, s.closing[j].out.pkts)))
    case ClientWrite(fd, n) =>
      var i := FindFd(s.clients, fd);
      if i >= 0 then
        var c := s.clients[i];
        var (q, pool) := Write(c.out, s.pool, n);
        Outcome(SetClient(s, i, c.(out := q)).(pool := pool), [], [], c.out.BytesWritten(n))
      else
        var j := FindClosing(s.closing, fd);
        var out := s.closing[j].out;
        var (q, pool) := Write(out, s.pool, n);
        Outcome(s.(closing := s.closing[j := Closing(fd, q)], pool := pool), [], [], out.BytesWritten(n))
    case SerialRead(data) =>
      var (rx, frames) := Feed(s.rx, data);
      Quiet(FreeId(ServeAll(AllocInto(s), frames), id).(rx := rx))
    case SerialReadError => Quiet(FreeId(AllocInto(s), id))
    case SerialReadZero => Quiet(AllocInto(s).(lost := [id] + s.lost))
    case SerialWrite(n) =>
      var (q, pool) := Write(s.serial, s.pool, n);
      Outcome(s.(serial := q, pool := pool), [], s.serial.BytesWritten(n), [])
  }

  // ---------------------------------------------------------------------- runs

  predicate Runs(s: State, events: seq<Event>)
    decreases |events|
  {
    events == [] || (Enabled(s, events[0]) && Runs(Step(s, events[0]).next, events[1..]))
  }

  function Final(s: State, events: seq<Event>): State
    requires Runs(s, events)
    decreases |events|
  {
    if events == [] then s else Final(Step(s, events[0]).next, events[1..])
  }

  // The frames handed to serial_send, in order.
  function Sent(s: State, events: seq<Event>): seq<Frame>
    requires Runs(s, events)
    decreases |events|
  {
    if events == [] then []
    else
      var o := Step(s, events[0]);
      o.sent + Sent(o.next, events[1..])
  }

  // The bytes the serial port accepted.
  function Wire(s: State, events: seq<Event>): seq<Byte>
    requires Runs(s, events)
    decreases |events|
  {
    if events == [] then []
    else
      var o := Step(s, events[0]);
      o.wire + Wire(o.next, events[1..])
  }

  // The bytes read from the serial port.
  function Incoming(events: seq<Event>): seq<Byte> {
    if events == [] then []
    else (if events[0].SerialRead? then events[0].data else []) + Incoming(events[1..])
  }

  // The bytes read from a client.
  function ReadFrom(events: seq<Event>, fd: int): seq<Byte> {
    if events == [] then []
    else (if events[0].ClientRead? && events[0].fd == fd then events[0].data else []) + ReadFrom(events[1..], fd)
  }

  // The bytes a client's descriptor accepted.
  function WrittenTo(s: State, events: seq<Event>, fd: int): seq<Byte>
    requires Runs(s, events)
    decreases |events|
  {
    if events == [] then []
    else
      var o := Step(s, events[0]);
      (if events[0].ClientWrite? && events[0].fd == fd then o.toClient else []) + WrittenTo(o.next, events[1..], fd)
  }
}
