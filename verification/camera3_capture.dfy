// Captures in flight in the camera 3 pipeline (processCaptureRequest, signalReadoutIdle and
// ReadoutThread in android/camera/EmulatedFakeCamera3.cpp): the submitting thread, the
// readout thread and the JPEG compressor, one atomic step for each critical section.
module Camera3Capture {
  import opened Seqs

  datatype Buffer = Buffer(id: int, blob: bool, depth: bool)

  // A camera3_stream_buffer with its status.
  datatype Held = Held(buffer: Buffer, ok: bool)

  datatype Request = Request(frame: int, buffers: seq<Held>)

  // Results in the order they reach the framework: a request's main result, or the JPEG
  // buffer that follows it.
  datatype Entry = Main(frame: int, buffers: seq<Held>) | Jpeg(frame: int, buffer: Held)

  const MAX_QUEUE_SIZE: nat := 2

  datatype Status = Open | Ready | Active

  // processCaptureRequest, which holds the parent's lock from start to end.
  datatype Submitter = Away | Preparing(r: Request) | WaitsForRoom(w: Request) | HasRoom(h: Request)

  // The readout thread: reading is at its i-th buffer, and the sensor's buffers still
  // belong to it until one is given to the compressor.
  datatype Readout =
    | Waiting
    | Reading(frame: int, buffers: seq<Held>, i: nat, needJpeg: bool)
    | Idling(frame: int, buffers: seq<Held>)
    | Sending(frame: int, buffers: seq<Held>)

  // mJpegWaiting is Working?; mIsBusy is !Idle?. Broken: its thread could not be started.
  datatype Compressor = Idle | Working(frame: int, buffer: Held, input: bool) | CleaningUp | Broken

  datatype State = State(
    status: Status, submitter: Submitter, queue: seq<Request>, threadActive: bool,
    readout: Readout, jpeg: Compressor, accepted: seq<Request>, results: seq<Entry>)

  datatype Event =
    | Initialize                // initializeDevice
    | Submit(r: Request)        // a valid request, the status set to active
    | Prepared                  // buffers locked, the compressor found done if one is a BLOB
    | RoomFound                 // waitForReadout returns
    | Queue                     // queueCaptureRequest
    | Fail                      // an error return after the status is set
    | TakeNext                  // the readout thread takes the oldest request
    | Scan(starts: bool)        // one buffer; starts: the compressor's thread can be started
    | CheckIdle                 // the last buffer is behind; is the queue empty?
    | SignalIdle                // signalReadoutIdle
    | Send                      // the main result
    | JpegDone(success: bool)   // onJpegDone
    | CleanUp                   // the compressor's thread ends

  predicate IsJpeg(b: Buffer) {
    b.blob && !b.depth
  }

  // All buffers come in with status OK, and there is at least one.
  predicate Valid(r: Request) {
    r.buffers != [] && forall i :: 0 <= i < |r.buffers| ==> r.buffers[i].ok
  }

  predicate HasBlob(r: Request) {
    exists i :: 0 <= i < |r.buffers| && r.buffers[i].buffer.blob
  }

  predicate NothingInFlight(s: State) {
    s.queue == [] && !s.threadActive
  }

  // ------------------------------------------------------------- the steps

  predicate Enabled(s: State, e: Event) {
    match e
    case Initialize => s.status == Open && s.submitter == Away
    case Submit(r) => s.submitter == Away && s.status != Open && Valid(r)
    case Prepared => s.submitter.Preparing? && (HasBlob(s.submitter.r) ==> s.jpeg == Idle)
    case RoomFound => s.submitter.WaitsForRoom? && |s.queue| < MAX_QUEUE_SIZE
    case Queue => s.submitter.HasRoom?
    case Fail => s.submitter != Away
    case TakeNext => s.readout == Waiting && s.queue != []
    case Scan(_) => s.readout.Reading? && s.readout.i < |s.readout.buffers|
    case CheckIdle => s.readout.Reading? && s.readout.i == |s.readout.buffers|
    case SignalIdle => s.readout.Idling? && s.submitter == Away
    case Send => s.readout.Sending?
    case JpegDone(_) => s.jpeg.Working?
    case CleanUp => s.jpeg == CleaningUp
  }

  // One buffer of the current request: a JPEG goes to the compressor and leaves the
  // request, anything else stays, in error if it is a JPEG that could not be compressed.
  function ScanOne(r: Readout, c: Compressor, starts: bool): (Readout, Compressor)
    requires r.Reading? && r.i < |r.buffers|
  {
    var b := r.buffers[r.i];
    if IsJpeg(b.buffer) && c == Idle && starts then
      (r.(buffers := Without(r.buffers, r.i), needJpeg := true), Working(r.frame, b, !r.needJpeg))
    else
      (r.(buffers := r.buffers[r.i := Held(b.buffer, !IsJpeg(b.buffer))], i := r.i + 1),
       if IsJpeg(b.buffer) && c == Idle then Broken else c)
  }

  function Next(s: State, e: Event): State
    requires Enabled(s, e)
  {
    match e
    case Initialize => s.(status := Ready)
    case Submit(r) => s.(status := Active, submitter := Preparing(r))
    case Prepared => s.(submitter := WaitsForRoom(s.submitter.r))
    case RoomFound => s.(submitter := HasRoom(s.submitter.w))
    case Queue =>
      s.(submitter := Away, queue := s.queue + [s.submitter.h], accepted := s.accepted + [s.submitter.h])
    case Fail => s.(submitter := Away)
    case TakeNext =>
      s.(readout := Reading(s.queue[0].frame, s.queue[0].buffers, 0, false), queue := s.queue[1..],
         threadActive := true)
    case Scan(starts) =>
      var (r, c) := ScanOne(s.readout, s.jpeg, starts);
      s.(readout := r, jpeg := c)
    case CheckIdle =>
      if s.queue == [] then s.(threadActive := false, readout := Idling(s.readout.frame, s.readout.buffers))
      else s.(readout := Sending(s.readout.frame, s.readout.buffers))
    case SignalIdle =>
      s.(status := if s.status == Active && NothingInFlight(s) then Ready else s.status,
         readout := Sending(s.readout.frame, s.readout.buffers))
    case Send => s.(results := s.results + [Main(s.readout.frame, s.readout.buffers)], readout := Waiting)
    case JpegDone(success) =>
      s.(results := s.results + [Jpeg(s.jpeg.frame, Held(s.jpeg.buffer.buffer, success))], jpeg := CleaningUp)
    case CleanUp => s.(jpeg := Idle)
  }

  // mThreadActive is not set before the first capture is read.
  function Start(threadActive: bool): State {
    State(Open, Away, [], threadActive, Waiting, Idle, [], [])
  }

  predicate Runs(s: State, es: seq<Event>)
    decreases |es|
  {
    es == [] || (Enabled(s, es[0]) && Runs(Next(s, es[0]), es[1..]))
  }

  function Final(s: State, es: seq<Event>): State
    requires Runs(s, es)
    decreases |es|
  {
    if es == [] then s else Final(Next(s, es[0]), es[1..])
  }

  lemma {:induction false} OneMore(s: State, es: seq<Event>, e: Event)
    requires Runs(s, es) && Enabled(Final(s, es), e)
    ensures Runs(s, es + [e]) && Final(s, es + [e]) == Next(Final(s, es), e)
    decreases |es|
  {
    if es == [] {
      assert es + [e] == [e];
    } else {
      OneMore(Next(s, es[0]), es[1..], e);
      assert (es + [e])[1..] == es[1..] + [e];
    }
  }

  // ------------------------------------------------ status and in-flight work

  predicate Reads(r: Readout) {
    r.Reading? || r.Idling?
  }

  // Something of a request is still to be done, short of sending its result.
  predicate Busy(s: State) {
    s.submitter != Away || s.queue != [] || Reads(s.readout)
  }

  // stuck: a request failed and no capture has gone idle since.
  function Stuck(stuck: bool, es: seq<Event>): bool
    decreases |es|
  {
    if es == [] then stuck else Stuck(StuckNext(stuck, es[0]), es[1..])
  }

  function StuckNext(stuck: bool, e: Event): bool {
    if e == Fail then true else if e == SignalIdle then false else stuck
  }

  predicate StatusInv(s: State, unset: bool, stuck: bool) {
    && |s.queue| <= MAX_QUEUE_SIZE && (s.submitter.HasRoom? ==> |s.queue| < MAX_QUEUE_SIZE)
    && (s.status == Active <==> Busy(s) || stuck)
    && (s.readout.Reading? ==> s.threadActive && s.readout.i <= |s.readout.buffers|)
    && (s.readout.Idling? ==> !s.threadActive)
    && (s.threadActive ==> s.readout.Reading? || s.queue != [] || (unset && s.accepted == []))
    && (s.status == Open ==> s.accepted == [])
    && (s.accepted == [] ==> s.queue == [] && s.readout == Waiting)
  }

  lemma StatusStep(s: State, unset: bool, stuck: bool, e: Event)
    requires StatusInv(s, unset, stuck) && Enabled(s, e)
    ensures StatusInv(Next(s, e), unset, StuckNext(stuck, e))
  {
  }

  lemma {:induction false} StatusRun(s: State, unset: bool, stuck: bool, es: seq<Event>)
    requires StatusInv(s, unset, stuck) && Runs(s, es)
    ensures StatusInv(Final(s, es), unset, Stuck(stuck, es))
    decreases |es|
  {
    if es != [] {
      StatusStep(s, unset, stuck, es[0]);
      StatusRun(Next(s, es[0]), unset, StuckNext(stuck, es[0]), es[1..]);
    }
  }

  // In every interleaving: the status is active exactly while a request is worked on, or
  // after a failed one until the next capture goes idle; ready means nothing is in flight
  // and, once a capture was accepted, an inactive readout thread; and the queue is bounded.
  lemma ReadyMeansIdle(unset: bool, es: seq<Event>)
    requires Runs(Start(unset), es)
    ensures var s := Final(Start(unset), es);
            && (s.status == Active <==> Busy(s) || Stuck(false, es))
            && (s.status == Ready ==> s.submitter == Away && s.queue == [] && !Reads(s.readout))
            && (s.status == Ready && (s.accepted != [] || !unset) ==> NothingInFlight(s))
            && |s.queue| <= MAX_QUEUE_SIZE
  {
    StatusRun(Start(unset), unset, false, es);
  }

  // Whether mThreadActive was initialised makes no difference to what isIdle says to
  // signalReadoutIdle.
  lemma UnsetIsNeverRead(unset: bool, es: seq<Event>)
    requires Runs(Start(unset), es) && Enabled(Final(Start(unset), es), SignalIdle)
    ensures var s := Final(Start(unset), es); NothingInFlight(s) <==> s.queue == []
  {
    StatusRun(Start(unset), unset, false, es);
  }

  // ---------------------------------------------- one result for each request

  function Frames(rs: seq<Request>): seq<int> {
    if rs == [] then [] else Frames(rs[..|rs| - 1]) + [rs[|rs| - 1].frame]
  }

  function MainFrames(rs: seq<Entry>): seq<int> {
    if rs == [] then []
    else MainFrames(rs[..|rs| - 1]) + if rs[|rs| - 1].Main? then [rs[|rs| - 1].frame] else []
  }

  function InHand(r: Readout): seq<int> {
    if r.Waiting? then [] else [r.frame]
  }

  // Main results sent, the request in hand and the queue are the accepted requests.
  predicate InOrder(accepted: seq<Request>, results: seq<Entry>, hand: seq<int>, queue: seq<Request>) {
    Frames(accepted) == MainFrames(results) + hand + Frames(queue)
  }

  predicate OrderInv(s: State) {
    InOrder(s.accepted, s.results, InHand(s.readout), s.queue)
  }

  lemma FramesLast(rs: seq<Request>, r: Request)
    ensures Frames(rs + [r]) == Frames(rs) + [r.frame]
  {
    assert (rs + [r])[..|rs|] == rs;
  }

  lemma {:induction false} FramesFirst(rs: seq<Request>)
    requires rs != []
    ensures Frames(rs) == [rs[0].frame] + Frames(rs[1..])
  {
    if |rs| > 1 {
      FramesFirst(rs[..|rs| - 1]);
      assert rs[..|rs| - 1][1..] == rs[1..][..|rs| - 2];
      assert [rs[0].frame] + Frames(rs[1..][..|rs| - 2]) + [rs[|rs| - 1].frame] == [rs[0].frame] + Frames(rs[1..]);
    }
  }

  lemma QueueInOrder(accepted: seq<Request>, results: seq<Entry>, hand: seq<int>, queue: seq<Request>, r: Request)
    requires InOrder(accepted, results, hand, queue)
    ensures InOrder(accepted + [r], results, hand, queue + [r])
  {
    FramesLast(accepted, r);
    FramesLast(queue, r);
    assert MainFrames(results) + hand + Frames(queue) + [r.frame] ==
           MainFrames(results) + hand + (Frames(queue) + [r.frame]);
  }

  lemma TakeInOrder(accepted: seq<Request>, results: seq<Entry>, queue: seq<Request>)
    requires InOrder(accepted, results, [], queue) && queue != []
    ensures InOrder(accepted, results, [queue[0].frame], queue[1..])
  {
    FramesFirst(queue);
    var f, rest := [queue[0].frame], Frames(queue[1..]);
    assert MainFrames(results) + [] + (f + rest) == MainFrames(results) + f + rest;
  }

  lemma SendInOrder(accepted: seq<Request>, results: seq<Entry>, hand: seq<int>, queue: seq<Request>, e: Entry)
    requires InOrder(accepted, results, hand, queue) && (e.Main? ==> hand == [e.frame])
    ensures InOrder(accepted, results + [e], if e.Main? then [] else hand, queue)
  {
    assert (results + [e])[..|results|] == results;
    if e.Main? {
      assert MainFrames(results) + hand + [] + Frames(queue) == MainFrames(results) + hand + Frames(queue);
    } else {
      assert MainFrames(results) + [] == MainFrames(results);
    }
  }

  lemma OrderStep(s: State, e: Event)
    requires OrderInv(s) && Enabled(s, e)
    ensures OrderInv(Next(s, e))
  {
    match e
    case Queue => QueueInOrder(s.accepted, s.results, InHand(s.readout), s.queue, s.submitter.h);
    case TakeNext => TakeInOrder(s.accepted, s.results, s.queue);
    case Send =>
      SendInOrder(s.accepted, s.results, InHand(s.readout), s.queue, Main(s.readout.frame, s.readout.buffers));
    case JpegDone(success) =>
      SendInOrder(s.accepted, s.results, InHand(s.readout), s.queue,
                  Jpeg(s.jpeg.frame, Held(s.jpeg.buffer.buffer, success)));
    case Scan(starts) => assert InHand(Next(s, e).readout) == InHand(s.readout);
    case _ =>
  }

  lemma {:induction false} OrderRun(s: State, es: seq<Event>)
    requires OrderInv(s) && Runs(s, es)
    ensures OrderInv(Final(s, es))
    decreases |es|
  {
    if es != [] {
      OrderStep(s, es[0]);
      OrderRun(Next(s, es[0]), es[1..]);
    }
  }

  // The accepted requests get one main result each, in the order they were accepted.
  lemma OneResultEach(unset: bool, es: seq<Event>)
    requires Runs(Start(unset), es)
    ensures var s := Final(Start(unset), es);
            && MainFrames(s.results) <= Frames(s.accepted)
            && (s.queue == [] && s.readout == Waiting ==> MainFrames(s.results) == Frames(s.accepted))
  {
    OrderRun(Start(unset), es);
    var s := Final(Start(unset), es);
    assert Frames(s.accepted) == MainFrames(s.results) + (InHand(s.readout) + Frames(s.queue));
    if s.queue == [] && s.readout == Waiting {
      assert MainFrames(s.results) + [] + [] == MainFrames(s.results);
    }
  }

  // Whenever the camera is ready, at most one main result is still to be sent.
  lemma ReadyOwesOne(unset: bool, es: seq<Event>)
    requires Runs(Start(unset), es) && Final(Start(unset), es).status == Ready
    ensures var s := Final(Start(unset), es);
            && MainFrames(s.results) <= Frames(s.accepted) && |Frames(s.accepted)| == |s.accepted|
            && |s.accepted| - |MainFrames(s.results)| == (if s.readout.Sending? then 1 else 0)
  {
    OneResultEach(unset, es);
    OrderRun(Start(unset), es);
    ReadyMeansIdle(unset, es);
    FramesLength(Final(Start(unset), es).accepted);
  }

  lemma {:induction false} FramesLength(rs: seq<Request>)
    ensures |Frames(rs)| == |rs|
  {
    if rs != [] { FramesLength(rs[..|rs| - 1]); }
  }

  // ------------------------------------------------ every buffer returned once

  datatype Item = Item(frame: int, buffer: Buffer)

  function One(frame: int, h: Held, x: Item): nat {
    if frame == x.frame && h.buffer == x.buffer then 1 else 0
  }

  // How often the buffer x is in a list of buffers of one frame, in requests, in results.
  function CountHeld(frame: int, hs: seq<Held>, x: Item): nat {
    if hs == [] then 0 else CountHeld(frame, hs[..|hs| - 1], x) + One(frame, hs[|hs| - 1], x)
  }

  function CountRequests(rs: seq<Request>, x: Item): nat {
    if rs == [] then 0
    else CountRequests(rs[..|rs| - 1], x) + CountHeld(rs[|rs| - 1].frame, rs[|rs| - 1].buffers, x)
  }

  function CountEntry(r: Entry, x: Item): nat {
    match r
    case Main(frame, hs) => CountHeld(frame, hs, x)
    case Jpeg(frame, h) => One(frame, h, x)
  }

  function CountResults(rs: seq<Entry>, x: Item): nat {
    if rs == [] then 0 else CountResults(rs[..|rs| - 1], x) + CountEntry(rs[|rs| - 1], x)
  }

  function CountReadout(r: Readout, x: Item): nat {
    if r.Waiting? then 0 else CountHeld(r.frame, r.buffers, x)
  }

  function CountJpeg(c: Compressor, x: Item): nat {
    if c.Working? then One(c.frame, c.buffer, x) else 0
  }

  predicate BufferInv(s: State, x: Item) {
    CountRequests(s.accepted, x) ==
      CountResults(s.results, x) + CountReadout(s.readout, x) + CountJpeg(s.jpeg, x) + CountRequests(s.queue, x)
  }

  lemma {:induction false} CountHeldAppend(frame: int, a: seq<Held>, b: seq<Held>, x: Item)
    ensures CountHeld(frame, a + b, x) == CountHeld(frame, a, x) + CountHeld(frame, b, x)
  {
    if b == [] {
      assert a + b == a;
    } else {
      CountHeldAppend(frame, a, b[..|b| - 1], x);
      assert (a + b)[..|a + b| - 1] == a + b[..|b| - 1];
    }
  }

  lemma {:induction false} CountRequestsFirst(rs: seq<Request>, x: Item)
    requires rs != []
    ensures CountRequests(rs, x) == CountHeld(rs[0].frame, rs[0].buffers, x) + CountRequests(rs[1..], x)
  {
    if |rs| > 1 {
      CountRequestsFirst(rs[..|rs| - 1], x);
      assert rs[..|rs| - 1][1..] == rs[1..][..|rs| - 2];
    }
  }

  lemma CountHeldAround(frame: int, hs: seq<Held>, i: nat, h: Held, x: Item)
    requires i < |hs|
    ensures CountHeld(frame, hs[i := h], x) == CountHeld(frame, Without(hs, i), x) + One(frame, h, x)
  {
    var a, b := hs[..i], hs[i + 1..];
    CountHeldAppend(frame, a, b, x);
    CountHeldAppend(frame, a + [h], b, x);
    assert hs[i := h] == a + [h] + b;
    assert (a + [h])[..i] == a;
  }

  // The buffers of a request are divided between the request and the compressor.
  lemma ScanKeeps(r: Readout, c: Compressor, starts: bool, x: Item)
    requires r.Reading? && r.i < |r.buffers|
    ensures var after := ScanOne(r, c, starts);
            CountReadout(after.0, x) + CountJpeg(after.1, x) == CountReadout(r, x) + CountJpeg(c, x)
  {
    var h := r.buffers[r.i];
    CountHeldAround(r.frame, r.buffers, r.i, h, x);
    CountHeldAround(r.frame, r.buffers, r.i, Held(h.buffer, !IsJpeg(h.buffer)), x);
    assert r.buffers[r.i := h] == r.buffers;
  }

  lemma CountRequestsLast(rs: seq<Request>, r: Request, x: Item)
    ensures CountRequests(rs + [r], x) == CountRequests(rs, x) + CountHeld(r.frame, r.buffers, x)
  {
    assert (rs + [r])[..|rs|] == rs;
  }

  lemma CountResultsLast(rs: seq<Entry>, e: Entry, x: Item)
    ensures CountResults(rs + [e], x) == CountResults(rs, x) + CountEntry(e, x)
  {
    assert (rs + [e])[..|rs|] == rs;
  }

  lemma BufferStep(s: State, e: Event, x: Item)
    requires BufferInv(s, x) && Enabled(s, e)
    ensures BufferInv(Next(s, e), x)
  {
    match e
    case Queue =>
      CountRequestsLast(s.queue, s.submitter.h, x);
      CountRequestsLast(s.accepted, s.submitter.h, x);
    case TakeNext => CountRequestsFirst(s.queue, x);
    case Scan(starts) => ScanKeeps(s.readout, s.jpeg, starts, x);
    case Send => CountResultsLast(s.results, Main(s.readout.frame, s.readout.buffers), x);
    case JpegDone(success) => CountResultsLast(s.results, Jpeg(s.jpeg.frame, Held(s.jpeg.buffer.buffer, success)), x);
    case _ =>
  }

  lemma {:induction false} BufferRun(s: State, es: seq<Event>, x: Item)
    requires BufferInv(s, x) && Runs(s, es)
    ensures BufferInv(Final(s, es), x)
    decreases |es|
  {
    if es != [] {
      BufferStep(s, es[0], x);
      BufferRun(Next(s, es[0]), es[1..], x);
    }
  }

  // No buffer is returned more often than it came in, and when no work is left each was
  // returned as often as it came in, under its own frame number.
  lemma BuffersReturnedOnce(unset: bool, es: seq<Event>, x: Item)
    requires Runs(Start(unset), es)
    ensures var s := Final(Start(unset), es);
            && CountResults(s.results, x) <= CountRequests(s.accepted, x)
            && (s.queue == [] && s.readout == Waiting && !s.jpeg.Working? ==>
                 CountResults(s.results, x) == CountRequests(s.accepted, x))
  {
    BufferRun(Start(unset), es, x);
  }

  // --------------------------------------------- what the main results contain

  function Judged(b: Buffer): Held {
    Held(b, !IsJpeg(b))
  }

  predicate AllJudged(hs: seq<Held>) {
    forall i :: 0 <= i < |hs| ==> hs[i].ok == !IsJpeg(hs[i].buffer)
  }

  predicate ResultInv(s: State) {
    && (forall i :: 0 <= i < |s.results| && s.results[i].Main? ==> AllJudged(s.results[i].buffers))
    && (forall i :: 0 <= i < |s.results| && s.results[i].Jpeg? ==> IsJpeg(s.results[i].buffer.buffer))
    && (s.readout.Reading? ==> s.readout.i <= |s.readout.buffers| && AllJudged(s.readout.buffers[..s.readout.i]))
    && (s.readout.Idling? || s.readout.Sending? ==> AllJudged(s.readout.buffers))
    && (s.jpeg.Working? ==> IsJpeg(s.jpeg.buffer.buffer))
  }

  lemma ResultStep(s: State, e: Event)
    requires ResultInv(s) && Enabled(s, e)
    ensures ResultInv(Next(s, e))
  {
    if e.CheckIdle? {
      assert s.readout.buffers[..s.readout.i] == s.readout.buffers;
    }
  }

  lemma {:induction false} ResultRun(s: State, es: seq<Event>)
    requires ResultInv(s) && Runs(s, es)
    ensures ResultInv(Final(s, es))
    decreases |es|
  {
    if es != [] {
      ResultStep(s, es[0]);
      ResultRun(Next(s, es[0]), es[1..]);
    }
  }

  // A main result returns its JPEG buffers in error, and only those: the ones the
  // compressor took come in results of their own.
  lemma ErrorsAreUncompressed(unset: bool, es: seq<Event>, i: nat, j: nat)
    requires Runs(Start(unset), es)
    requires var rs := Final(Start(unset), es).results; i < |rs| && rs[i].Main? && j < |rs[i].buffers|
    ensures var h := Final(Start(unset), es).results[i].buffers[j]; h.ok <==> !IsJpeg(h.buffer)
  {
    ResultRun(Start(unset), es);
  }

  // ------------------------------------------------ the compressor's input

  predicate OneJpeg(hs: seq<Held>) {
    forall i, j :: 0 <= i < j < |hs| ==> !(IsJpeg(hs[i].buffer) && IsJpeg(hs[j].buffer))
  }

  predicate NoJpegFrom(hs: seq<Held>, i: nat) {
    forall k :: i <= k < |hs| ==> !IsJpeg(hs[k].buffer)
  }

  predicate InputInv(s: State) {
    && (forall k :: 0 <= k < |s.queue| ==> OneJpeg(s.queue[k].buffers))
    && (s.submitter.Preparing? ==> OneJpeg(s.submitter.r.buffers))
    && (s.submitter.WaitsForRoom? ==> OneJpeg(s.submitter.w.buffers))
    && (s.submitter.HasRoom? ==> OneJpeg(s.submitter.h.buffers))
    && (s.readout.Reading? ==> OneJpeg(s.readout.buffers))
    && (s.readout.Reading? && s.readout.needJpeg ==> NoJpegFrom(s.readout.buffers, s.readout.i))
    && (s.jpeg.Working? ==> s.jpeg.input)
  }

  lemma InputStep(s: State, e: Event)
    requires InputInv(s) && Enabled(s, e) && (e.Submit? ==> OneJpeg(e.r.buffers))
    ensures InputInv(Next(s, e))
  {
    if e.TakeNext? {
      assert OneJpeg(s.queue[0].buffers);
    }
  }

  lemma {:induction false} InputRun(s: State, es: seq<Event>)
    requires InputInv(s) && Runs(s, es)
    requires forall k :: 0 <= k < |es| && es[k].Submit? ==> OneJpeg(es[k].r.buffers)
    ensures InputInv(Final(s, es))
    decreases |es|
  {
    if es != [] {
      InputStep(s, es[0]);
      InputRun(Next(s, es[0]), es[1..]);
    }
  }

  // If no request has two JPEG buffers, the compressor always gets the sensor's buffers.
  lemma CompressorHasInput(unset: bool, es: seq<Event>)
    requires Runs(Start(unset), es)
    requires forall k :: 0 <= k < |es| && es[k].Submit? ==> OneJpeg(es[k].r.buffers)
    ensures var s := Final(Start(unset), es); s.jpeg.Working? ==> s.jpeg.input
  {
    InputRun(Start(unset), es);
  }

  // ----------------------------------------------------------- waiting for room

  // The lock held by a request that waits for room is what the readout thread needs before
  // it can take the next request from the full queue.
  predicate Blocked(s: State) {
    s.submitter.WaitsForRoom? && |s.queue| == MAX_QUEUE_SIZE && s.readout.Idling?
  }

  // The wait of a blocked request ends in its timeout only.
  lemma {:induction false} BlockedStays(s: State, es: seq<Event>)
    requires Blocked(s) && Runs(s, es) && Fail !in es
    ensures Blocked(Final(s, es))
    decreases |es|
  {
    if es != [] {
      assert es[0] != Fail && Blocked(Next(s, es[0]));
      BlockedStays(Next(s, es[0]), es[1..]);
    }
  }

  // A step of the readout thread.
  predicate OfReadout(e: Event) {
    e.TakeNext? || e.Scan? || e.CheckIdle? || e.SignalIdle? || e.Send?
  }

  function ReadoutSteps(es: seq<Event>): nat {
    if es == [] then 0 else (if OfReadout(es[0]) then 1 else 0) + ReadoutSteps(es[1..])
  }

  // Its steps until it takes the next request, if the queue is not empty.
  function StepsToTake(r: Readout): nat {
    match r
    case Waiting => 1
    case Sending(_, _) => 2
    case Idling(_, _) => 3
    case Reading(_, buffers, i, _) => if i <= |buffers| then |buffers| - i + 3 else 0
  }

  // A request waits for room, and the readout thread can make it.
  predicate Waits(s: State) {
    && s.submitter.WaitsForRoom? && |s.queue| == MAX_QUEUE_SIZE && !s.readout.Idling?
    && (s.readout.Reading? ==> s.readout.i <= |s.readout.buffers|)
  }

  lemma WaitGoesOn(s: State, e: Event)
    requires Waits(s) && Enabled(s, e) && e != Fail
    ensures Enabled(Next(s, e), RoomFound) ||
            (Waits(Next(s, e)) &&
             StepsToTake(Next(s, e).readout) == StepsToTake(s.readout) - if OfReadout(e) then 1 else 0)
  {
  }

  // In every other wait, whatever is scheduled, enough steps of the readout thread make
  // room.
  lemma {:induction false} RoomComes(s: State, es: seq<Event>) returns (n: nat)
    requires Waits(s) && Runs(s, es) && Fail !in es && ReadoutSteps(es) >= StepsToTake(s.readout)
    ensures n <= |es| && Runs(s, es[..n]) && Enabled(Final(s, es[..n]), RoomFound)
    decreases |es|
  {
    var t := Next(s, es[0]);
    assert es == [es[0]] + es[1..];
    WaitGoesOn(s, es[0]);
    if Enabled(t, RoomFound) {
      n := 1;
      assert |es[..1][1..]| == 0;
    } else {
      var m := RoomComes(t, es[1..]);
      n := m + 1;
      assert es[..n][1..] == es[1..][..m];
    }
  }

  // -------------------------------------------------------------- three runs

  lemma Extend(s: State, es: seq<Event>, e: Event) returns (more: seq<Event>)
    requires Runs(s, es) && Enabled(Final(s, es), e)
    ensures more == es + [e] && Runs(s, more) && Final(s, more) == Next(Final(s, es), e)
  {
    OneMore(s, es, e);
    more := es + [e];
  }

  // A request goes from the framework into the queue.
  lemma Accept(s: State, es: seq<Event>, r: Request) returns (more: seq<Event>)
    requires Runs(s, es) && Valid(r)
    requires var t := Final(s, es);
             t.submitter == Away && t.status != Open && t.jpeg == Idle && |t.queue| < MAX_QUEUE_SIZE
    ensures Runs(s, more)
    ensures var t := Final(s, es);
            Final(s, more) == t.(status := Active, queue := t.queue + [r], accepted := t.accepted + [r])
  {
    more := Extend(s, es, Submit(r));
    more := Extend(s, more, Prepared);
    more := Extend(s, more, RoomFound);
    more := Extend(s, more, Queue);
  }

  const Preview: Request := Request(1, [Held(Buffer(1, false, false), true)])

  function Still(frame: int): Request {
    Request(frame, [Held(Buffer(frame, true, false), true)])
  }

  // The camera can be ready, and be configured anew, before the last result is sent.
  lemma ReadyBeforeResult() returns (es: seq<Event>)
    ensures Runs(Start(false), es)
    ensures var s := Final(Start(false), es); s.status == Ready && s.accepted == [Preview] && s.results == []
  {
    es := ToIdling();
    es := Extend(Start(false), es, SignalIdle);
  }

  lemma ToIdling() returns (es: seq<Event>)
    ensures Runs(Start(false), es)
    ensures Final(Start(false), es) ==
      State(Active, Away, [], false, Idling(1, Preview.buffers), Idle, [Preview], [])
  {
    var s := Start(false);
    es := Extend(s, [], Initialize);
    es := Accept(s, es, Preview);
    es := Extend(s, es, TakeNext);
    assert Final(s, es).queue == [] && Final(s, es).readout == Reading(1, Preview.buffers, 0, false);
    es := Extend(s, es, Scan(true));
    assert Final(s, es).readout == Reading(1, Preview.buffers, 1, false);
    es := Extend(s, es, CheckIdle);
  }

  // A request can come to wait for room that its own lock keeps from being made.
  lemma CanBlock() returns (es: seq<Event>)
    ensures Runs(Start(false), es) && Blocked(Final(Start(false), es))
  {
    es := ToIdling();
    var s := Start(false);
    es := Accept(s, es, Preview);
    es := Accept(s, es, Preview);
    es := Extend(s, es, Submit(Preview));
    es := Extend(s, es, Prepared);
  }

  // Waiting for the compressor before queueing does not keep it free until the readout:
  // two accepted requests with one JPEG each, and the second buffer comes back in error.
  lemma SecondJpegCanFail() returns (es: seq<Event>)
    ensures Runs(Start(false), es)
    ensures var s := Final(Start(false), es);
            s.accepted == [Still(1), Still(2)] && s.readout.Reading? && s.readout.frame == 2 &&
            s.readout.i == 1 && s.readout.buffers == [Held(Buffer(2, true, false), false)]
  {
    var s := Start(false);
    es := Extend(s, [], Initialize);
    es := Accept(s, es, Still(1));
    es := Accept(s, es, Still(2));
    es := Extend(s, es, TakeNext);
    es := Extend(s, es, Scan(true));
    es := Extend(s, es, CheckIdle);
    es := Extend(s, es, Send);
    es := Extend(s, es, TakeNext);
    es := Extend(s, es, Scan(true));
  }
}
