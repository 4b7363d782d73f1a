// The objects of the camera 3 pipeline that hold captures in flight (EmulatedFakeCamera3
// and its ReadoutThread in android/camera/EmulatedFakeCamera3.cpp).
module Camera3Object {
  import opened Seqs
  import opened Camera3Capture

  function FirstJpeg(hs: seq<Held>): (k: nat)
    ensures k <= |hs| && (forall i :: 0 <= i < k ==> !IsJpeg(hs[i].buffer))
    ensures k < |hs| ==> IsJpeg(hs[k].buffer)
  {
    if hs == [] || IsJpeg(hs[0].buffer) then 0 else 1 + FirstJpeg(hs[1..])
  }

  function JudgeAll(hs: seq<Held>): (r: seq<Held>)
    ensures |r| == |hs| && forall i :: 0 <= i < |hs| ==> r[i] == Judged(hs[i].buffer)
  {
    seq(|hs|, i requires 0 <= i < |hs| => Judged(hs[i].buffer))
  }

  // The loop over the buffers, begun with the buffers hs and the compressor c, is at r.
  predicate Scanned(hs: seq<Held>, c: Compressor, starts: bool, r: Readout, now: Compressor) {
    && r.Reading? && r.i <= |r.buffers|
    && var k := FirstJpeg(hs);
       var free := c == Idle && k < |hs|;
       && (r.needJpeg ==> free && starts && k <= r.i)
       && var all := if r.needJpeg then Without(hs, k) else hs;
          && |r.buffers| == |all|
          && (forall j :: 0 <= j < |all| ==> r.buffers[j] == if j < r.i then Judged(all[j].buffer) else all[j])
          && (free && starts && !r.needJpeg ==> r.i <= k)
          && now == if r.needJpeg then Working(r.frame, hs[k], true) else if free && r.i > k then Broken else c
  }

  lemma ScanStart(frame: int, hs: seq<Held>, c: Compressor, starts: bool)
    ensures Scanned(hs, c, starts, Reading(frame, hs, 0, false), c)
  {
  }

  lemma ScanTurn(hs: seq<Held>, c: Compressor, starts: bool, r: Readout, now: Compressor)
    requires Scanned(hs, c, starts, r, now) && r.i < |r.buffers|
    ensures var after := ScanOne(r, now, starts);
            && Scanned(hs, c, starts, after.0, after.1)
            && 2 * |after.0.buffers| - after.0.i < 2 * |r.buffers| - r.i
  {
    if IsJpeg(r.buffers[r.i].buffer) && now == Idle && starts {
      ScanHands(hs, c, r, now);
    } else {
      ScanJudges(hs, c, starts, r, now);
    }
  }

  // The first JPEG buffer goes to the compressor.
  lemma ScanHands(hs: seq<Held>, c: Compressor, r: Readout, now: Compressor)
    requires Scanned(hs, c, true, r, now) && r.i < |r.buffers| && IsJpeg(r.buffers[r.i].buffer) && now == Idle
    ensures var after := ScanOne(r, now, true); Scanned(hs, c, true, after.0, after.1)
  {
    var k := FirstJpeg(hs);
    assert !r.needJpeg && r.i == k;
    var after := ScanOne(r, now, true).0;
    forall j | 0 <= j < |hs| - 1
      ensures after.buffers[j] == if j < k then Judged(Without(hs, k)[j].buffer) else Without(hs, k)[j]
    {
      WithoutAt(r.buffers, r.i, j);
      WithoutAt(hs, k, j);
    }
  }

  lemma ScanJudges(hs: seq<Held>, c: Compressor, starts: bool, r: Readout, now: Compressor)
    requires Scanned(hs, c, starts, r, now) && r.i < |r.buffers|
    requires !(IsJpeg(r.buffers[r.i].buffer) && now == Idle && starts)
    ensures var after := ScanOne(r, now, starts); Scanned(hs, c, starts, after.0, after.1)
  {
  }

  lemma ScanEnd(hs: seq<Held>, c: Compressor, starts: bool, r: Readout, now: Compressor)
    requires Scanned(hs, c, starts, r, now) && r.i == |r.buffers|
    ensures var k := FirstJpeg(hs);
            var free := c == Idle && k < |hs|;
            && r.buffers == JudgeAll(if free && starts then Without(hs, k) else hs)
            && r.needJpeg == (free && starts)
            && now == if !free then c else if starts then Working(r.frame, hs[k], true) else Broken
  {
  }

  datatype Phase = AtQueue | AtBuffers | AtIdle | AtResult

  class Camera {
    var status: Status
    var submitter: Submitter
    var inFlightQueue: seq<Request>
    var threadActive: bool
    var phase: Phase                  // where the readout thread is
    var currentFrame: int
    var currentBuffers: seq<Held>
    var index: nat
    var needJpeg: bool
    var jpegWaiting: bool
    var jpegHalBuffer: Held
    var jpegFrameNumber: int
    var jpegInput: bool
    var compressorBusy: bool
    var compressorFailed: bool        // its thread did not start
    ghost var accepted: seq<Request>
    ghost var results: seq<Entry>

    ghost function ReadoutState(): Readout
      reads this
    {
      match phase
      case AtQueue => Waiting
      case AtBuffers => Reading(currentFrame, currentBuffers, index, needJpeg)
      case AtIdle => Idling(currentFrame, currentBuffers)
      case AtResult => Sending(currentFrame, currentBuffers)
    }

    ghost function JpegState(): Compressor
      reads this
    {
      if jpegWaiting then Working(jpegFrameNumber, jpegHalBuffer, jpegInput)
      else if compressorFailed then Broken
      else if compressorBusy then CleaningUp
      else Idle
    }

    ghost function Now(): State
      reads this
    {
      State(status, submitter, inFlightQueue, threadActive, ReadoutState(), JpegState(), accepted, results)
    }

    ghost predicate Sound()
      reads this
    {
      (jpegWaiting ==> compressorBusy && !compressorFailed) && (compressorFailed ==> compressorBusy)
    }

    constructor (threadActive: bool)
      ensures Sound() && Now() == Start(threadActive)
    {
      status, submitter, inFlightQueue, phase := Open, Away, [], AtQueue;
      this.threadActive := threadActive;
      currentFrame, currentBuffers, index, needJpeg := 0, [], 0, false;
      jpegWaiting, compressorBusy, compressorFailed := false, false, false;
      jpegHalBuffer, jpegFrameNumber, jpegInput := Held(Buffer(0, false, false), true), 0, false;
      accepted, results := [], [];
    }

    method QueueCaptureRequest(r: Request)
      modifies this`inFlightQueue, this`accepted, this`submitter
      ensures inFlightQueue == old(inFlightQueue) + [r] && accepted == old(accepted) + [r] && submitter == Away
    {
      inFlightQueue := inFlightQueue + [r];
      accepted := accepted + [r];
      submitter := Away;
    }

    method IsIdle() returns (idle: bool)
      ensures idle <==> NothingInFlight(Now())
    {
      idle := inFlightQueue == [] && !threadActive;
    }

    method SignalReadoutIdle()
      modifies this`status, this`phase
      ensures status == (if old(status) == Active && NothingInFlight(old(Now())) then Ready else old(status))
      ensures phase == AtResult
    {
      if status == Active {
        var idle := IsIdle();
        if idle {
          status := Ready;
        }
      }
      phase := AtResult;
    }

    method TakeRequest()
      requires inFlightQueue != []
      modifies this`currentFrame, this`currentBuffers, this`inFlightQueue, this`threadActive, this`index,
        this`needJpeg, this`phase
      ensures inFlightQueue == old(inFlightQueue)[1..] && threadActive
      ensures ReadoutState() == Reading(old(inFlightQueue)[0].frame, old(inFlightQueue)[0].buffers, 0, false)
    {
      currentFrame, currentBuffers := inFlightQueue[0].frame, inFlightQueue[0].buffers;
      inFlightQueue := inFlightQueue[1..];
      threadActive := true;
      index, needJpeg, phase := 0, false, AtBuffers;
    }

    // One turn of the loop over the buffers.
    method ScanBuffer(starts: bool)
      requires Sound() && phase == AtBuffers && index < |currentBuffers|
      modifies this`currentBuffers, this`index, this`needJpeg, this`jpegWaiting, this`jpegHalBuffer,
        this`jpegFrameNumber, this`jpegInput, this`compressorBusy, this`compressorFailed
      ensures Sound() && phase == AtBuffers
      ensures ReadoutState() == ScanOne(old(ReadoutState()), old(JpegState()), starts).0
      ensures JpegState() == ScanOne(old(ReadoutState()), old(JpegState()), starts).1
    {
      var b := currentBuffers[index];
      var good := true;
      if b.buffer.blob && !b.buffer.depth {
        good := !jpegWaiting;
        if good {
          good := !compressorBusy && starts;
          if !compressorBusy {
            compressorBusy, compressorFailed := true, !starts;
          }
        }
        if good {
          jpegHalBuffer, jpegFrameNumber, jpegInput, jpegWaiting := b, currentFrame, !needJpeg, true;
          needJpeg := true;
          currentBuffers := currentBuffers[..index] + currentBuffers[index + 1..];
          return;
        }
      }
      currentBuffers := currentBuffers[index := Held(b.buffer, good)];
      index := index + 1;
    }

    // The loop over the buffers of a request, when the compressor does not finish
    // meanwhile: the first JPEG buffer goes to the compressor if that is free and can be
    // started, and all the others stay, in their order.
    method ScanBuffers(starts: bool)
      requires Sound() && phase == AtBuffers && index == 0 && !needJpeg
      modifies this`currentBuffers, this`index, this`needJpeg, this`jpegWaiting, this`jpegHalBuffer,
        this`jpegFrameNumber, this`jpegInput, this`compressorBusy, this`compressorFailed
      ensures Sound() && phase == AtBuffers && index == |currentBuffers|
      ensures var hs, k := old(currentBuffers), FirstJpeg(old(currentBuffers));
              var free := old(JpegState()) == Idle && k < |hs|;
              && currentBuffers == JudgeAll(if free && starts then Without(hs, k) else hs)
              && needJpeg == (free && starts)
              && JpegState() == if !free then old(JpegState())
                                else if starts then Working(currentFrame, hs[k], true) else Broken
    {
      ghost var hs, c := currentBuffers, JpegState();
      ScanStart(currentFrame, hs, c, starts);
      while index < |currentBuffers|
        invariant Sound() && phase == AtBuffers && index <= |currentBuffers|
        invariant Scanned(hs, c, starts, ReadoutState(), JpegState())
        decreases 2 * |currentBuffers| - index
      {
        ScanTurn(hs, c, starts, ReadoutState(), JpegState());
        ScanBuffer(starts);
      }
      ScanEnd(hs, c, starts, ReadoutState(), JpegState());
    }

    method GoIdle()
      modifies this`phase, this`threadActive
      ensures if inFlightQueue == [] then phase == AtIdle && !threadActive
              else phase == AtResult && threadActive == old(threadActive)
    {
      phase := AtResult;
      if |inFlightQueue| == 0 {
        threadActive := false;
        phase := AtIdle;
      }
    }

    method SendResult()
      modifies this`results, this`phase
      ensures results == old(results) + [Main(currentFrame, currentBuffers)] && phase == AtQueue
    {
      results := results + [Main(currentFrame, currentBuffers)];
      phase := AtQueue;
    }

    method OnJpegDone(success: bool)
      requires Sound() && jpegWaiting
      modifies this`jpegHalBuffer, this`jpegWaiting, this`results
      ensures Sound() && JpegState() == CleaningUp
      ensures results == old(results) + [Jpeg(jpegFrameNumber, Held(old(jpegHalBuffer).buffer, success))]
    {
      jpegHalBuffer := Held(jpegHalBuffer.buffer, success);
      jpegWaiting := false;
      results := results + [Jpeg(jpegFrameNumber, jpegHalBuffer)];
    }

    // processCaptureRequest and initializeDevice, from one wait to the next.
    method Submission(e: Event)
      requires Enabled(Now(), e) && (e.Initialize? || e.Submit? || e.Prepared? || e.RoomFound? || e.Queue? || e.Fail?)
      modifies this`status, this`submitter, this`inFlightQueue, this`accepted
      ensures Now() == Next(old(Now()), e)
    {
      match e
      case Initialize => status := Ready;
      case Submit(r) => status, submitter := Active, Preparing(r);
      case Prepared => submitter := WaitsForRoom(submitter.r);
      case RoomFound => submitter := HasRoom(submitter.w);
      case Queue => QueueCaptureRequest(submitter.h);
      case Fail => submitter := Away;
    }

    // ReadoutThread::threadLoop, from one critical section to the next.
    method Readout(e: Event)
      requires Sound() && Enabled(Now(), e) && OfReadout(e) && !e.Scan?
      modifies this`status, this`currentFrame, this`currentBuffers, this`inFlightQueue, this`threadActive, this`index,
        this`needJpeg, this`phase, this`results
      ensures Sound() && Now() == Next(old(Now()), e)
    {
      match e
      case TakeNext => TakeRequest();
      case CheckIdle => GoIdle();
      case SignalIdle => SignalReadoutIdle();
      case Send => SendResult();
    }

    // The compressor's thread.
    method Compress(e: Event)
      requires Sound() && Enabled(Now(), e) && (e.JpegDone? || e.CleanUp?)
      modifies this`jpegHalBuffer, this`jpegWaiting, this`results, this`compressorBusy
      ensures Sound() && Now() == Next(old(Now()), e)
    {
      match e
      case JpegDone(success) => OnJpegDone(success);
      case CleanUp => compressorBusy := false;
    }

    method Perform(e: Event)
      requires Sound() && Enabled(Now(), e)
      modifies this
      ensures Sound() && Now() == Next(old(Now()), e)
    {
      if e.Scan? {
        ScanBuffer(e.starts);
      } else if OfReadout(e) {
        Readout(e);
      } else if e.JpegDone? || e.CleanUp? {
        Compress(e);
      } else {
        Submission(e);
      }
    }

    // The objects in any interleaving of the three threads, from the connection on: when
    // the status is ready nothing is in flight, the queue stays bounded, and the results
    // sent are those of the accepted requests, in order.
    method Interleave(es: seq<Event>)
      requires Sound() && Now() == Start(threadActive) && Runs(Now(), es)
      modifies this
      ensures Sound() && Now() == Final(old(Now()), es)
      ensures status == Ready ==> inFlightQueue == [] && submitter == Away && (phase == AtQueue || phase == AtResult)
      ensures |inFlightQueue| <= MAX_QUEUE_SIZE && MainFrames(results) <= Frames(accepted)
    {
      ghost var start := Now();
      var n := 0;
      assert es[0..] == es;
      while n < |es|
        invariant 0 <= n <= |es| && Sound() && Runs(Now(), es[n..])
        invariant Final(Now(), es[n..]) == Final(start, es)
      {
        assert es[n..][0] == es[n] && es[n..][1..] == es[n + 1..];
        Perform(es[n]);
        n := n + 1;
      }
      ReadyMeansIdle(start.threadActive, es);
      OneResultEach(start.threadActive, es);
    }
  }
}
