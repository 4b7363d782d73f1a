// When a JPEG buffer of the camera 3 pipeline comes back in error although the compressor
// works (android/camera/EmulatedFakeCamera3.cpp): waiting for the compressor before a
// request is queued does not keep it free until the request is read out.
module Camera3Jpeg {
  import opened Seqs
  import opened Camera3Capture

  predicate HasJpeg(r: Request) {
    !NoJpegFrom(r.buffers, 0)
  }

  // A JPEG buffer waits in the queue, or behind buffer i of the request being read out.
  predicate InQueue(queue: seq<Request>) {
    exists k :: 0 <= k < |queue| && HasJpeg(queue[k])
  }

  predicate InReadout(r: Readout) {
    r.Reading? && !NoJpegFrom(r.buffers, r.i)
  }

  predicate JpegWaits(s: State) {
    InQueue(s.queue) || InReadout(s.readout)
  }

  predicate AllOk(hs: seq<Held>) {
    forall i :: 0 <= i < |hs| ==> hs[i].ok
  }

  predicate EntryOk(e: Entry) {
    match e
    case Main(_, hs) => AllOk(hs)
    case Jpeg(_, h) => h.ok
  }

  // No result of this frame, of either kind, has a buffer in error.
  predicate NoneInError(results: seq<Entry>, frame: int) {
    forall k :: 0 <= k < |results| && results[k].frame == frame ==> EntryOk(results[k])
  }

  // ------------------------------------------------------- no error, in every run

  function Ones(queue: seq<Request>): nat {
    if queue == [] then 0 else Ones(queue[..|queue| - 1]) + One(HasJpeg(queue[|queue| - 1]))
  }

  function One(b: bool): nat {
    if b then 1 else 0
  }

  lemma OnesLast(queue: seq<Request>, r: Request)
    ensures Ones(queue + [r]) == Ones(queue) + One(HasJpeg(r))
  {
    assert (queue + [r])[..|queue|] == queue;
  }

  lemma {:induction false} OnesFirst(queue: seq<Request>)
    requires queue != []
    ensures Ones(queue) == One(HasJpeg(queue[0])) + Ones(queue[1..])
  {
    if |queue| > 1 {
      OnesFirst(queue[..|queue| - 1]);
      assert queue[..|queue| - 1][1..] == queue[1..][..|queue| - 2];
    }
  }

  lemma {:induction false} OnesIsInQueue(queue: seq<Request>)
    ensures Ones(queue) > 0 <==> InQueue(queue)
  {
    if queue != [] {
      var n := |queue| - 1;
      OnesIsInQueue(queue[..n]);
      if k :| 0 <= k < |queue| && HasJpeg(queue[k]) {
        if k < n { assert queue[..n][k] == queue[k]; }
      }
      if k :| 0 <= k < n && HasJpeg(queue[..n][k]) {
        assert HasJpeg(queue[k]);
      }
    }
  }

  function Submitting(b: Submitter): nat {
    match b
    case Away => 0
    case Preparing(r) => One(HasJpeg(r))
    case WaitsForRoom(r) => One(HasJpeg(r))
    case HasRoom(r) => One(HasJpeg(r))
  }

  // The JPEG buffers of a submission are not prepared yet, or the compressor is idle and
  // there is no other JPEG buffer on the way to it.
  predicate Spaced(b: Submitter, queue: seq<Request>, r: Readout, c: Compressor) {
    && c != Broken
    && Submitting(b) + Ones(queue) + One(InReadout(r)) <= 1
    && (Ones(queue) + One(InReadout(r)) > 0 || (Submitting(b) > 0 && !b.Preparing?) ==> c == Idle)
    && (r.Reading? ==> r.i <= |r.buffers|)
  }

  predicate OneEach(b: Submitter, queue: seq<Request>, r: Readout) {
    && (b.Preparing? ==> OneJpeg(b.r.buffers)) && (b.WaitsForRoom? ==> OneJpeg(b.w.buffers))
    && (b.HasRoom? ==> OneJpeg(b.h.buffers))
    && (forall k :: 0 <= k < |queue| && HasJpeg(queue[k]) ==> OneJpeg(queue[k].buffers))
    && (InReadout(r) ==> OneJpeg(r.buffers))
  }

  // Of the request with this frame, no buffer is in error so far.
  predicate HandOk(r: Readout, frame: int) {
    && (r.Reading? && r.frame == frame ==> r.i <= |r.buffers| && AllOk(r.buffers[..r.i]))
    && (r.Idling? && r.frame == frame ==> AllOk(r.buffers))
    && (r.Sending? && r.frame == frame ==> AllOk(r.buffers))
  }

  predicate CleanInv(s: State, frame: int) {
    && Spaced(s.submitter, s.queue, s.readout, s.jpeg) && OneEach(s.submitter, s.queue, s.readout)
    && HandOk(s.readout, frame) && NoneInError(s.results, frame)
  }

  // What the theorem asks of an event: a compressor that starts and succeeds, no request
  // with two JPEG buffers, and no JPEG buffer submitted while another waits for its readout.
  predicate Careful(s: State, e: Event) {
    && (e.Scan? ==> e.starts) && (e.JpegDone? ==> e.success)
    && (e.Submit? ==> OneJpeg(e.r.buffers) && (HasJpeg(e.r) ==> !JpegWaits(s)))
  }

  lemma BlobIfJpeg(r: Request)
    requires HasJpeg(r)
    ensures HasBlob(r)
  {
    var k :| 0 <= k < |r.buffers| && IsJpeg(r.buffers[k].buffer);
    assert r.buffers[k].buffer.blob;
  }

  lemma ScanClean(s: State, frame: int)
    requires CleanInv(s, frame) && Enabled(s, Scan(true))
    ensures CleanInv(Next(s, Scan(true)), frame)
  {
    var r := s.readout;
    var after := ScanOne(r, s.jpeg, true).0;
    var h := r.buffers[r.i];
    if IsJpeg(h.buffer) {
      assert InReadout(r) && s.jpeg == Idle;
      forall k | r.i <= k < |after.buffers|
        ensures !IsJpeg(after.buffers[k].buffer)
      {
        WithoutAt(r.buffers, r.i, k);
      }
      assert after.buffers[..r.i] == r.buffers[..r.i];
    } else {
      assert after.buffers[..r.i + 1] == r.buffers[..r.i] + [Held(h.buffer, true)];
      assert NoJpegFrom(after.buffers, after.i) <==> NoJpegFrom(r.buffers, r.i) by {
        assert forall k :: r.i < k < |r.buffers| ==> after.buffers[k] == r.buffers[k];
      }
      if InReadout(after) {
        forall j, k | 0 <= j < k < |after.buffers|
          ensures !(IsJpeg(after.buffers[j].buffer) && IsJpeg(after.buffers[k].buffer))
        {
          assert after.buffers[j].buffer == r.buffers[j].buffer && after.buffers[k].buffer == r.buffers[k].buffer;
        }
      }
    }
  }

  lemma TakeClean(s: State, frame: int)
    requires CleanInv(s, frame) && Enabled(s, TakeNext)
    ensures CleanInv(Next(s, TakeNext), frame)
  {
    OnesFirst(s.queue);
    assert forall k :: 0 <= k < |s.queue[1..]| ==> s.queue[1..][k] == s.queue[k + 1];
  }

  lemma QueueClean(s: State, frame: int)
    requires CleanInv(s, frame) && Enabled(s, Queue)
    ensures CleanInv(Next(s, Queue), frame)
  {
    OnesLast(s.queue, s.submitter.h);
  }

  lemma SubmitClean(s: State, frame: int, r: Request)
    requires CleanInv(s, frame) && Enabled(s, Submit(r)) && Careful(s, Submit(r))
    ensures CleanInv(Next(s, Submit(r)), frame)
  {
    OnesIsInQueue(s.queue);
  }

  lemma CleanStep(s: State, frame: int, e: Event)
    requires CleanInv(s, frame) && Enabled(s, e) && Careful(s, e)
    ensures CleanInv(Next(s, e), frame)
  {
    match e
    case Submit(r) => SubmitClean(s, frame, r);
    case Prepared => if HasJpeg(s.submitter.r) { BlobIfJpeg(s.submitter.r); }
    case Queue => QueueClean(s, frame);
    case TakeNext => TakeClean(s, frame);
    case Scan(_) => ScanClean(s, frame);
    case CheckIdle => assert s.readout.buffers[..s.readout.i] == s.readout.buffers;
    case Send => MoreResults(s.results, Main(s.readout.frame, s.readout.buffers), frame);
    case JpegDone(success) =>
      MoreResults(s.results, Jpeg(s.jpeg.frame, Held(s.jpeg.buffer.buffer, success)), frame);
    case _ =>
  }

  predicate AllCareful(s: State, es: seq<Event>)
    requires Runs(s, es)
    decreases |es|
  {
    es == [] || (Careful(s, es[0]) && AllCareful(Next(s, es[0]), es[1..]))
  }

  lemma {:induction false} CleanRun(s: State, frame: int, es: seq<Event>)
    requires CleanInv(s, frame) && Runs(s, es) && AllCareful(s, es)
    ensures CleanInv(Final(s, es), frame)
    decreases |es|
  {
    if es != [] {
      CleanStep(s, frame, es[0]);
      CleanRun(Next(s, es[0]), frame, es[1..]);
    }
  }

  // In every run in which the compressor starts and succeeds, no request has two JPEG
  // buffers, and a request with one is submitted only when no earlier one waits for its
  // readout, no buffer comes back in error.
  lemma NoErrors(unset: bool, es: seq<Event>, frame: int)
    requires Runs(Start(unset), es) && AllCareful(Start(unset), es)
    ensures NoneInError(Final(Start(unset), es).results, frame)
  {
    CleanRun(Start(unset), frame, es);
  }

  // ----------------------------------------------------- exactly which submissions

  // No request with this frame number was seen before.
  predicate Unused(s: State, frame: int) {
    && (forall k :: 0 <= k < |s.results| ==> s.results[k].frame != frame)
    && Elsewhere(s.queue, s.readout, frame)
  }

  // No request with this frame number is in the queue or in hand.
  predicate Elsewhere(queue: seq<Request>, r: Readout, frame: int) {
    && (forall k :: 0 <= k < |queue| ==> queue[k].frame != frame)
    && (!r.Waiting? ==> r.frame != frame)
  }

  // The camera takes requests, and its compressor works.
  predicate Settled(s: State) {
    && s.submitter == Away && s.status != Open && s.jpeg != Broken && |s.queue| <= MAX_QUEUE_SIZE
    && (s.readout.Reading? ==> s.readout.i <= |s.readout.buffers|)
  }

  // In every run, that is whenever no request is being submitted and the compressor works.
  lemma SettledInRuns(unset: bool, es: seq<Event>)
    requires Runs(Start(unset), es)
    ensures var s := Final(Start(unset), es);
            Settled(s) <==> s.submitter == Away && s.status != Open && s.jpeg != Broken
  {
    StatusRun(Start(unset), unset, false, es);
  }

  // The readout thread waits for the camera's lock with the queue full, so that a request
  // submitted now is given up when its wait for room times out.
  predicate CannotQueue(s: State) {
    s.readout.Idling? && |s.queue| == MAX_QUEUE_SIZE
  }

  // The compressor starts and succeeds, and other requests have other frame numbers.
  predicate Fine(e: Event, frame: int) {
    && (e.Scan? ==> e.starts) && (e.JpegDone? ==> e.success)
    && (e.Submit? ==> e.r.frame != frame)
  }

  predicate AllFine(es: seq<Event>, frame: int) {
    forall k :: 0 <= k < |es| ==> Fine(es[k], frame)
  }

  // In every run in which the request is submitted now, whatever else is submitted later,
  // with a compressor that starts and succeeds, none of its buffers comes back in error.
  ghost predicate Intact(s: State, r: Request) {
    forall es :: Runs(s, [Submit(r)] + es) && AllFine(es, r.frame) ==>
      NoneInError(Final(s, [Submit(r)] + es).results, r.frame)
  }

  // ------------------------------------------------------------- the safe runs

  function Submission(b: Submitter): seq<Request> {
    match b
    case Away => []
    case Preparing(r) => [r]
    case WaitsForRoom(r) => [r]
    case HasRoom(r) => [r]
  }

  predicate NoneBefore(queue: seq<Request>, p: nat) {
    forall k :: 0 <= k < p && k < |queue| ==> !HasJpeg(queue[k])
  }

  predicate NotSubmitted(b: Submitter, frame: int) {
    Submission(b) != [] ==> Submission(b)[0].frame != frame
  }

  // The request is with the submitter, and no JPEG buffer comes before it.
  predicate WithSubmitter(s: State, r: Request) {
    && Submission(s.submitter) == [r] && Elsewhere(s.queue, s.readout, r.frame)
    && NoneBefore(s.queue, |s.queue|) && !InReadout(s.readout)
    && (!s.submitter.Preparing? ==> s.jpeg == Idle)
  }

  // It is in the queue at p, no JPEG buffer comes before it, and the compressor is idle.
  predicate Queued(s: State, r: Request, p: nat) {
    && NotSubmitted(s.submitter, r.frame)
    && p < |s.queue| && s.queue[p] == r && NoneBefore(s.queue, p) && !InReadout(s.readout) && s.jpeg == Idle
    && (forall k :: 0 <= k < |s.queue| && k != p ==> s.queue[k].frame != r.frame)
    && (!s.readout.Waiting? ==> s.readout.frame != r.frame)
  }

  predicate NotQueued(s: State, frame: int) {
    NotSubmitted(s.submitter, frame) && forall k :: 0 <= k < |s.queue| ==> s.queue[k].frame != frame
  }

  // It is read out, its JPEG buffer may be still to come, and the compressor is idle.
  predicate Ahead(s: State, frame: int) {
    && NotQueued(s, frame) && s.readout.Reading? && s.readout.frame == frame && s.jpeg == Idle
    && OneJpeg(s.readout.buffers) && HandOk(s.readout, frame)
  }

  // Its JPEG buffer is handed over, or the request is done with.
  predicate HandedOver(s: State, frame: int) {
    && NotQueued(s, frame) && HandOk(s.readout, frame)
    && (s.readout.Reading? && s.readout.frame == frame ==> !InReadout(s.readout))
  }

  predicate Safe(s: State, r: Request) {
    && s.jpeg != Broken && NoneInError(s.results, r.frame)
    && (WithSubmitter(s, r) || (exists p :: 0 <= p < |s.queue| && Queued(s, r, p)) ||
        Ahead(s, r.frame) || HandedOver(s, r.frame))
  }

  // A buffer that is not for the compressor.
  lemma PlainScan(r: Readout, c: Compressor, starts: bool)
    requires r.Reading? && r.i < |r.buffers| && !IsJpeg(r.buffers[r.i].buffer)
    ensures var t := ScanOne(r, c, starts).0;
            && ScanOne(r, c, starts).1 == c && t.Reading? && t.i == r.i + 1 && t.frame == r.frame
            && |t.buffers| == |r.buffers| && (InReadout(t) <==> InReadout(r))
            && (AllOk(r.buffers[..r.i]) ==> AllOk(t.buffers[..t.i])) && (OneJpeg(r.buffers) ==> OneJpeg(t.buffers))
  {
    var t := ScanOne(r, c, starts).0;
    assert forall k :: 0 <= k < |r.buffers| ==> t.buffers[k].buffer == r.buffers[k].buffer;
    assert forall k :: r.i < k < |r.buffers| ==> t.buffers[k] == r.buffers[k];
    assert t.buffers[..t.i] == r.buffers[..r.i] + [Held(r.buffers[r.i].buffer, true)];
    if InReadout(r) {
      var k :| r.i <= k < |r.buffers| && IsJpeg(r.buffers[k].buffer);
      assert IsJpeg(t.buffers[k].buffer);
    }
    if InReadout(t) {
      var k :| t.i <= k < |t.buffers| && IsJpeg(t.buffers[k].buffer);
      assert IsJpeg(r.buffers[k].buffer);
    }
  }

  // The JPEG buffer, with the compressor idle: it is handed over.
  lemma HandOver(r: Readout)
    requires r.Reading? && r.i < |r.buffers| && IsJpeg(r.buffers[r.i].buffer) && OneJpeg(r.buffers)
    ensures var t := ScanOne(r, Idle, true).0;
            && t.Reading? && t.frame == r.frame && t.i == r.i && t.i <= |t.buffers|
            && !InReadout(t) && t.buffers[..t.i] == r.buffers[..r.i]
  {
    var t := ScanOne(r, Idle, true).0;
    forall k | r.i <= k < |t.buffers|
      ensures !IsJpeg(t.buffers[k].buffer)
    {
      WithoutAt(r.buffers, r.i, k);
    }
  }

  lemma MoreResults(results: seq<Entry>, e: Entry, frame: int)
    requires NoneInError(results, frame) && (e.frame == frame ==> EntryOk(e))
    ensures NoneInError(results + [e], frame)
  {
  }

  lemma WithSubmitterStep(s: State, e: Event, r: Request)
    requires WithSubmitter(s, r) && HasJpeg(r) && Enabled(s, e) && Fine(e, r.frame)
    ensures var t := Next(s, e);
            WithSubmitter(t, r) || (e.Queue? && Queued(t, r, |s.queue|)) || (e.Fail? && HandedOver(t, r.frame))
  {
    match e
    case Prepared => BlobIfJpeg(r);
    case TakeNext =>
      assert !HasJpeg(s.queue[0]);
      QueueRest(s.queue);
    case Scan(starts) => PlainScan(s.readout, s.jpeg, starts);
    case _ =>
  }

  lemma QueueRest(queue: seq<Request>)
    requires queue != []
    ensures forall k :: 0 <= k < |queue[1..]| ==> queue[1..][k] == queue[k + 1]
  {
  }

  lemma QueuedStep(s: State, e: Event, r: Request, p: nat)
    requires Queued(s, r, p) && HasJpeg(r) && OneJpeg(r.buffers) && Enabled(s, e) && Fine(e, r.frame)
    ensures var t := Next(s, e);
            if e.TakeNext? then (if p == 0 then Ahead(t, r.frame) else Queued(t, r, p - 1)) else Queued(t, r, p)
  {
    match e
    case TakeNext =>
      assert p > 0 ==> !HasJpeg(s.queue[0]);
      QueueRest(s.queue);
    case Scan(starts) => PlainScan(s.readout, s.jpeg, starts);
    case _ =>
  }

  lemma AheadStep(s: State, e: Event, frame: int)
    requires Ahead(s, frame) && Enabled(s, e) && Fine(e, frame)
    ensures Ahead(Next(s, e), frame) || HandedOver(Next(s, e), frame)
  {
    match e
    case Scan(starts) =>
      if IsJpeg(s.readout.buffers[s.readout.i].buffer) {
        HandOver(s.readout);
      } else {
        PlainScan(s.readout, s.jpeg, starts);
      }
    case CheckIdle => assert s.readout.buffers[..s.readout.i] == s.readout.buffers;
    case _ =>
  }

  lemma HandedOverStep(s: State, e: Event, frame: int)
    requires HandedOver(s, frame) && Enabled(s, e) && Fine(e, frame)
    ensures HandedOver(Next(s, e), frame)
  {
    match e
    case TakeNext => QueueRest(s.queue);
    case Scan(starts) =>
      if s.readout.frame == frame { PlainScan(s.readout, s.jpeg, starts); }
    case CheckIdle => assert s.readout.buffers[..s.readout.i] == s.readout.buffers;
    case _ =>
  }

  // What a step adds to the results is no error of the request.
  lemma ResultFine(s: State, e: Event, r: Request)
    requires Safe(s, r) && Enabled(s, e) && Fine(e, r.frame)
    ensures NoneInError(Next(s, e).results, r.frame) && Next(s, e).jpeg != Broken
  {
    match e
    case Send => MoreResults(s.results, Main(s.readout.frame, s.readout.buffers), r.frame);
    case JpegDone(success) =>
      MoreResults(s.results, Jpeg(s.jpeg.frame, Held(s.jpeg.buffer.buffer, success)), r.frame);
    case _ =>
  }

  lemma SafeStep(s: State, e: Event, r: Request)
    requires Safe(s, r) && HasJpeg(r) && OneJpeg(r.buffers) && Enabled(s, e) && Fine(e, r.frame)
    ensures Safe(Next(s, e), r)
  {
    ResultFine(s, e, r);
    if WithSubmitter(s, r) {
      WithSubmitterStep(s, e, r);
    } else if Ahead(s, r.frame) {
      AheadStep(s, e, r.frame);
    } else if HandedOver(s, r.frame) {
      HandedOverStep(s, e, r.frame);
    } else {
      var p :| 0 <= p < |s.queue| && Queued(s, r, p);
      QueuedStep(s, e, r, p);
    }
  }

  lemma {:induction false} SafeRun(s: State, es: seq<Event>, r: Request)
    requires Safe(s, r) && HasJpeg(r) && OneJpeg(r.buffers) && Runs(s, es) && AllFine(es, r.frame)
    ensures Safe(Final(s, es), r)
    decreases |es|
  {
    if es != [] {
      SafeStep(s, es[0], r);
      SafeRun(Next(s, es[0]), es[1..], r);
    }
  }

  // A request that cannot be queued is given up, so nothing of it comes back at all.
  predicate GivenUp(s: State, frame: int) {
    && NoneInError(s.results, frame) && Elsewhere(s.queue, s.readout, frame)
    && (s.submitter.Preparing? || s.submitter.WaitsForRoom? ==> NotSubmitted(s.submitter, frame) || CannotQueue(s))
    && (s.submitter.HasRoom? ==> NotSubmitted(s.submitter, frame))
  }

  lemma GivenUpStep(s: State, e: Event, frame: int)
    requires GivenUp(s, frame) && Enabled(s, e) && Fine(e, frame)
    ensures GivenUp(Next(s, e), frame)
  {
    match e
    case TakeNext => QueueRest(s.queue);
    case Send => MoreResults(s.results, Main(s.readout.frame, s.readout.buffers), frame);
    case JpegDone(success) =>
      MoreResults(s.results, Jpeg(s.jpeg.frame, Held(s.jpeg.buffer.buffer, success)), frame);
    case _ =>
  }

  lemma {:induction false} GivenUpRun(s: State, es: seq<Event>, frame: int)
    requires GivenUp(s, frame) && Runs(s, es) && AllFine(es, frame)
    ensures GivenUp(Final(s, es), frame)
    decreases |es|
  {
    if es != [] {
      GivenUpStep(s, es[0], frame);
      GivenUpRun(Next(s, es[0]), es[1..], frame);
    }
  }

  lemma AfterSubmit(s: State, r: Request, es: seq<Event>)
    requires Runs(s, [Submit(r)] + es)
    ensures Enabled(s, Submit(r)) && Runs(Next(s, Submit(r)), es)
    ensures Final(s, [Submit(r)] + es) == Final(Next(s, Submit(r)), es)
  {
    assert ([Submit(r)] + es)[1..] == es;
  }

  lemma IntactIfNoneWaits(s: State, r: Request)
    requires Settled(s) && OneJpeg(r.buffers) && HasJpeg(r) && Unused(s, r.frame) && !JpegWaits(s)
    ensures Intact(s, r)
  {
    forall es | Runs(s, [Submit(r)] + es) && AllFine(es, r.frame)
      ensures NoneInError(Final(s, [Submit(r)] + es).results, r.frame)
    {
      AfterSubmit(s, r, es);
      SafeRun(Next(s, Submit(r)), es, r);
    }
  }

  lemma IntactIfCannotQueue(s: State, r: Request)
    requires Unused(s, r.frame) && CannotQueue(s)
    ensures Intact(s, r)
  {
    forall es | Runs(s, [Submit(r)] + es) && AllFine(es, r.frame)
      ensures NoneInError(Final(s, [Submit(r)] + es).results, r.frame)
    {
      AfterSubmit(s, r, es);
      GivenUpRun(Next(s, Submit(r)), es, r.frame);
    }
  }

  // ---------------------------------------------------------- the run that fails

  // Events that submit nothing, with a compressor that starts and succeeds.
  predicate Plain(es: seq<Event>) {
    forall k :: 0 <= k < |es| ==>
      !es[k].Submit? && (es[k].Scan? ==> es[k].starts) && (es[k].JpegDone? ==> es[k].success)
  }

  lemma {:induction false} RunsAppend(s: State, a: seq<Event>, b: seq<Event>)
    requires Runs(s, a) && Runs(Final(s, a), b)
    ensures Runs(s, a + b) && Final(s, a + b) == Final(Final(s, a), b)
    decreases |a|
  {
    if a == [] {
      assert a + b == b;
    } else {
      RunsAppend(Next(s, a[0]), a[1..], b);
      assert (a + b)[1..] == a[1..] + b;
    }
  }

  // Nothing but the next JPEG buffer changes the compressor's state.
  predicate Warm(s: State) {
    s.jpeg == Idle || s.jpeg.Working?
  }

  // The compressor is at work, or a JPEG buffer comes to it before the k-th request of
  // the queue is taken.
  predicate Hot(s: State, k: nat) {
    && Warm(s)
    && (s.jpeg.Working? || InReadout(s.readout) || exists j :: 0 <= j < k && j < |s.queue| && HasJpeg(s.queue[j]))
  }

  // What the readout thread does next, the compressor starting.
  function ReadoutEvent(s: State): Event {
    match s.readout
    case Waiting => TakeNext
    case Reading(_, hs, i, _) => if i < |hs| then Scan(true) else CheckIdle
    case Idling(_, _) => SignalIdle
    case Sending(_, _) => Send
  }

  function Less(k: nat): nat {
    if k == 0 then 0 else k - 1
  }

  // One step of the readout thread keeps the heat, and takes at most one request.
  lemma HotStep(s: State, k: nat)
    requires Hot(s, k) && k <= |s.queue| && Enabled(s, ReadoutEvent(s))
    ensures var t := Next(s, ReadoutEvent(s)); Hot(t, if s.readout.Waiting? then Less(k) else k)
    ensures s.readout.Waiting? && k == 0 ==> s.jpeg.Working?
  {
    var t := Next(s, ReadoutEvent(s));
    if s.readout.Waiting? {
      if j :| 0 <= j < k && j < |s.queue| && HasJpeg(s.queue[j]) {
        if j > 0 { assert t.queue[j - 1] == s.queue[j]; }
      }
    } else if ReadoutEvent(s).Scan? && !s.jpeg.Working? && !IsJpeg(s.readout.buffers[s.readout.i].buffer) {
      if InReadout(s.readout) {
        var m :| s.readout.i <= m < |s.readout.buffers| && IsJpeg(s.readout.buffers[m].buffer);
        assert t.readout.buffers[m] == s.readout.buffers[m];
      }
    }
  }

  // The readout thread on its way to taking its next request.
  lemma {:induction false} DriveToTake(s: State, k: nat) returns (es: seq<Event>)
    requires Warm(s) && k <= |s.queue| && s.queue != []
    requires s.readout.Idling? ==> s.submitter == Away
    requires s.readout.Reading? ==> s.readout.i <= |s.readout.buffers|
    ensures Runs(s, es) && Plain(es)
    ensures var t := Final(s, es);
            && t.submitter == s.submitter && t.queue == s.queue[1..] && Warm(t)
            && (Hot(s, k) ==> Hot(t, Less(k)) && (k == 0 ==> t.jpeg.Working?))
            && t.readout == Reading(s.queue[0].frame, s.queue[0].buffers, 0, false)
    decreases StepsToTake(s.readout)
  {
    var e := ReadoutEvent(s);
    if Hot(s, k) { HotStep(s, k); }
    var t := Next(s, e);
    if s.readout.Waiting? {
      es := [e];
      assert |es[1..]| == 0;
    } else {
      var rest := DriveToTake(t, k);
      es := [e] + rest;
      assert es[1..] == rest;
    }
  }

  predicate HasError(results: seq<Entry>, frame: int) {
    exists k :: 0 <= k < |results| && results[k].Main? && results[k].frame == frame && !AllOk(results[k].buffers)
  }

  predicate TwoFrom(hs: seq<Held>, i: nat) {
    exists j, k :: i <= j < k < |hs| && IsJpeg(hs[j].buffer) && IsJpeg(hs[k].buffer)
  }

  // The request in hand has a JPEG buffer in error, or one to come while the compressor is
  // busy, or two while it is not.
  predicate Doomed(s: State) {
    match s.readout
    case Waiting => false
    case Reading(_, hs, i, _) =>
      && i <= |hs|
      && ((s.jpeg.Working? && (!AllOk(hs[..i]) || InReadout(s.readout))) || (s.jpeg == Idle && TwoFrom(hs, i)))
    case Idling(_, hs) => !AllOk(hs)
    case Sending(_, hs) => !AllOk(hs)
  }

  lemma StillDoomed(s: State)
    requires s.submitter == Away && Doomed(s) && !s.readout.Sending?
    ensures Enabled(s, ReadoutEvent(s)) && Doomed(Next(s, ReadoutEvent(s)))
  {
    var r := s.readout;
    if r.Reading? && r.i == |r.buffers| {
      assert r.buffers[..r.i] == r.buffers;
    } else if r.Reading? && s.jpeg.Working? {
      DoomedWhileBusy(r, s.jpeg);
    } else if r.Reading? {
      DoomedByTwo(r);
    }
  }

  lemma DoomedWhileBusy(r: Readout, c: Compressor)
    requires r.Reading? && r.i < |r.buffers| && c.Working? && (!AllOk(r.buffers[..r.i]) || InReadout(r))
    ensures var t := ScanOne(r, c, true).0;
            ScanOne(r, c, true).1 == c && t.i <= |t.buffers| && (!AllOk(t.buffers[..t.i]) || InReadout(t))
  {
    var t := ScanOne(r, c, true).0;
    if !AllOk(r.buffers[..r.i]) {
      var m :| 0 <= m < r.i && !r.buffers[..r.i][m].ok;
      assert !t.buffers[..t.i][m].ok;
    } else if IsJpeg(r.buffers[r.i].buffer) {
      assert !t.buffers[..t.i][r.i].ok;
    } else {
      PlainScan(r, c, true);
    }
  }

  lemma DoomedByTwo(r: Readout)
    requires r.Reading? && r.i < |r.buffers| && TwoFrom(r.buffers, r.i)
    ensures var t := ScanOne(r, Idle, true).0;
            t.i <= |t.buffers| && (if ScanOne(r, Idle, true).1.Working? then InReadout(t)
                                   else ScanOne(r, Idle, true).1 == Idle && TwoFrom(t.buffers, t.i))
  {
    var j, k :| r.i <= j < k < |r.buffers| && IsJpeg(r.buffers[j].buffer) && IsJpeg(r.buffers[k].buffer);
    var t := ScanOne(r, Idle, true).0;
    if IsJpeg(r.buffers[r.i].buffer) {
      WithoutAt(r.buffers, r.i, k - 1);
      assert IsJpeg(t.buffers[k - 1].buffer);
    } else {
      assert t.buffers[j] == r.buffers[j] && t.buffers[k] == r.buffers[k];
    }
  }

  // Steps of the readout thread until the main result of the request in hand is sent.
  function StepsToSend(r: Readout): nat {
    match r
    case Waiting => 0
    case Sending(_, _) => 1
    case Idling(_, _) => 2
    case Reading(_, hs, i, _) => if i <= |hs| then |hs| - i + 3 else 0
  }

  lemma {:induction false} DriveToError(s: State) returns (es: seq<Event>)
    requires s.submitter == Away && Doomed(s)
    ensures Runs(s, es) && Plain(es) && HasError(Final(s, es).results, s.readout.frame)
    decreases StepsToSend(s.readout)
  {
    var e := ReadoutEvent(s);
    var t := Next(s, e);
    if s.readout.Sending? {
      es := [e];
      assert |es[1..]| == 0;
      assert t.results[|s.results|] == Main(s.readout.frame, s.readout.buffers);
      assert Final(s, es) == Final(t, es[1..]) == t;
      assert HasError(t.results, s.readout.frame);
    } else {
      StillDoomed(s);
      var rest := DriveToError(t);
      es := [e] + rest;
      assert es[1..] == rest;
    }
  }

  // The k-th request of the queue ends in error if it has a JPEG buffer and one comes
  // before it, or if it has two.
  lemma {:induction false} DriveQueue(s: State, k: nat) returns (es: seq<Event>)
    requires s.submitter == Away && Warm(s) && k < |s.queue| && HasJpeg(s.queue[k])
    requires Hot(s, k) || !OneJpeg(s.queue[k].buffers)
    requires s.readout.Reading? ==> s.readout.i <= |s.readout.buffers|
    ensures Runs(s, es) && Plain(es) && HasError(Final(s, es).results, s.queue[k].frame)
    decreases k
  {
    var first := DriveToTake(s, k);
    var t := Final(s, first);
    var rest;
    if k == 0 {
      rest := DriveToError(t);
    } else {
      assert t.queue[k - 1] == s.queue[k];
      rest := DriveQueue(t, k - 1);
    }
    RunsAppend(s, first, rest);
    es := first + rest;
  }

  // The compressor is made idle, which the submission waits for.
  lemma Prepare(s: State, r: Request) returns (es: seq<Event>)
    requires s.submitter == Preparing(r) && s.jpeg != Broken
    ensures Runs(s, es) && Plain(es) && Final(s, es).submitter == WaitsForRoom(r) && Final(s, es).jpeg == Idle
    ensures Final(s, es).queue == s.queue && Final(s, es).readout == s.readout
  {
    es := [];
    if s.jpeg.Working? {
      es := Extend(s, es, JpegDone(true));
    }
    if Final(s, es).jpeg == CleaningUp {
      es := Extend(s, es, CleanUp);
    }
    es := Extend(s, es, Prepared);
  }

  lemma WaitingIsHot(s: State)
    requires JpegWaits(s) && s.jpeg == Idle
    ensures Hot(s, |s.queue|)
  {
  }

  // The request comes into the queue behind what made it hot.
  lemma ComeIn(s: State, r: Request) returns (es: seq<Event>)
    requires Warm(s) && s.submitter == WaitsForRoom(r) && |s.queue| <= MAX_QUEUE_SIZE && !CannotQueue(s)
    requires s.readout.Reading? ==> s.readout.i <= |s.readout.buffers|
    ensures Runs(s, es) && Plain(es)
    ensures var t := Final(s, es);
            && t.submitter == Away && Warm(t) && |t.queue| > 0 && t.queue[|t.queue| - 1] == r
            && (Hot(s, |s.queue|) ==> Hot(t, |t.queue| - 1))
            && (t.readout.Reading? ==> t.readout.i <= |t.readout.buffers|)
  {
    es := [];
    if |s.queue| == MAX_QUEUE_SIZE {
      es := DriveToTake(s, |s.queue|);
    }
    var t := Final(s, es);
    es := Extend(s, es, RoomFound);
    es := Extend(s, es, Queue);
    if Hot(t, |t.queue|) {
      StillHot(t, r, Final(s, es));
    }
  }

  lemma StillHot(s: State, r: Request, t: State)
    requires Hot(s, |s.queue|) && t.jpeg == s.jpeg && t.readout == s.readout && t.queue == s.queue + [r]
    ensures Hot(t, |t.queue| - 1)
  {
    if j :| 0 <= j < |s.queue| && HasJpeg(s.queue[j]) {
      assert t.queue[j] == s.queue[j];
    }
  }

  // A JPEG buffer that is submitted while another waits for its readout, or together with
  // another, has a run in which it comes back in error.
  lemma ErrorIfOneWaits(s: State, r: Request) returns (es: seq<Event>)
    requires Settled(s) && Valid(r) && HasJpeg(r) && !CannotQueue(s) && (JpegWaits(s) || !OneJpeg(r.buffers))
    ensures Runs(s, [Submit(r)] + es) && Plain(es)
    ensures HasError(Final(s, [Submit(r)] + es).results, r.frame)
  {
    es := ErrorAfterSubmit(Next(s, Submit(r)), r);
    assert ([Submit(r)] + es)[1..] == es;
  }

  lemma ErrorAfterSubmit(s: State, r: Request) returns (es: seq<Event>)
    requires s.submitter == Preparing(r) && s.jpeg != Broken && |s.queue| <= MAX_QUEUE_SIZE && !CannotQueue(s)
    requires HasJpeg(r) && (JpegWaits(s) || !OneJpeg(r.buffers))
    requires s.readout.Reading? ==> s.readout.i <= |s.readout.buffers|
    ensures Runs(s, es) && Plain(es) && HasError(Final(s, es).results, r.frame)
  {
    var a := Prepare(s, r);
    var s1 := Final(s, a);
    if JpegWaits(s) { WaitingIsHot(s1); }
    var b := ComeIn(s1, r);
    var s2 := Final(s1, b);
    var c := DriveQueue(s2, |s2.queue| - 1);
    RunsAppend(s1, b, c);
    RunsAppend(s, a, b + c);
    es := a + (b + c);
  }

  // Exactly which JPEG submissions are safe. In every run from here, whatever is submitted
  // later, with a compressor that starts and succeeds, no buffer of the request comes back
  // in error if and only if it has one JPEG buffer and no other JPEG buffer waits in the
  // queue or in the request being read out. (One in the compressor does no harm, since the
  // submission waits for it.) The other case is a request that cannot be queued, of which
  // nothing comes back.
  lemma JpegIntactIff(s: State, r: Request)
    requires Settled(s) && Valid(r) && HasJpeg(r) && Unused(s, r.frame)
    ensures Intact(s, r) <==> (OneJpeg(r.buffers) && !JpegWaits(s)) || CannotQueue(s)
  {
    if CannotQueue(s) {
      IntactIfCannotQueue(s, r);
    } else if OneJpeg(r.buffers) && !JpegWaits(s) {
      IntactIfNoneWaits(s, r);
    } else {
      var es := ErrorIfOneWaits(s, r);
      assert AllFine(es, r.frame);
      var results := Final(s, [Submit(r)] + es).results;
      var k :| 0 <= k < |results| && results[k].Main? && results[k].frame == r.frame && !AllOk(results[k].buffers);
      assert !EntryOk(results[k]);
    }
  }

  // --------------------------------------------------- what the caller can see

  function Sent(s: State): nat {
    |MainFrames(s.results)|
  }

  // The queue is the end of what was accepted, and the request in hand comes before it.
  predicate Trace(accepted: seq<Request>, sent: nat, r: Readout, queue: seq<Request>) {
    && |accepted| == sent + |InHand(r)| + |queue|
    && queue == accepted[|accepted| - |queue|..]
    && (InReadout(r) ==> HasJpeg(accepted[sent]))
  }

  predicate TraceInv(s: State) {
    Trace(s.accepted, Sent(s), s.readout, s.queue)
  }

  lemma SentMore(results: seq<Entry>, e: Entry)
    ensures |MainFrames(results + [e])| == |MainFrames(results)| + One(e.Main?)
  {
    assert (results + [e])[..|results|] == results;
  }

  lemma ScanTrace(r: Readout, c: Compressor, starts: bool)
    requires r.Reading? && r.i < |r.buffers|
    ensures InReadout(ScanOne(r, c, starts).0) ==> InReadout(r)
  {
    var t := ScanOne(r, c, starts).0;
    if InReadout(t) {
      var k :| t.i <= k < |t.buffers| && IsJpeg(t.buffers[k].buffer);
      if |t.buffers| < |r.buffers| {
        WithoutAt(r.buffers, r.i, k);
      } else {
        assert t.buffers[k] == r.buffers[k];
      }
    }
  }

  lemma TakeTrace(accepted: seq<Request>, sent: nat, queue: seq<Request>)
    requires Trace(accepted, sent, Waiting, queue) && queue != []
    ensures Trace(accepted, sent, Reading(queue[0].frame, queue[0].buffers, 0, false), queue[1..])
  {
    assert queue[0] == accepted[sent];
  }

  lemma QueueTrace(accepted: seq<Request>, sent: nat, r: Readout, queue: seq<Request>, x: Request)
    requires Trace(accepted, sent, r, queue)
    ensures Trace(accepted + [x], sent, r, queue + [x])
  {
    var n := |accepted| - |queue|;
    assert (accepted + [x])[n..] == accepted[n..] + [x];
    assert InReadout(r) ==> (accepted + [x])[sent] == accepted[sent];
  }

  lemma MoveTrace(accepted: seq<Request>, sent: nat, r: Readout, queue: seq<Request>, sent': nat, r': Readout)
    requires Trace(accepted, sent, r, queue) && sent + |InHand(r)| == sent' + |InHand(r')|
    requires InReadout(r') ==> InReadout(r) && sent == sent'
    ensures Trace(accepted, sent', r', queue)
  {
  }

  lemma TraceStep(s: State, e: Event)
    requires TraceInv(s) && Enabled(s, e)
    ensures TraceInv(Next(s, e))
  {
    match e
    case TakeNext => TakeTrace(s.accepted, Sent(s), s.queue);
    case Queue => QueueTrace(s.accepted, Sent(s), s.readout, s.queue, s.submitter.h);
    case _ =>
      TraceMoves(s, e);
      var t := Next(s, e);
      MoveTrace(s.accepted, Sent(s), s.readout, s.queue, Sent(t), t.readout);
  }

  lemma TraceMoves(s: State, e: Event)
    requires Enabled(s, e) && !e.TakeNext? && !e.Queue?
    ensures var t := Next(s, e);
            && t.accepted == s.accepted && t.queue == s.queue
            && Sent(s) + |InHand(s.readout)| == Sent(t) + |InHand(t.readout)|
            && (InReadout(t.readout) ==> InReadout(s.readout) && Sent(s) == Sent(t))
  {
    match e
    case Send => SentMore(s.results, Main(s.readout.frame, s.readout.buffers));
    case JpegDone(success) => SentMore(s.results, Jpeg(s.jpeg.frame, Held(s.jpeg.buffer.buffer, success)));
    case Scan(starts) => ScanTrace(s.readout, s.jpeg, starts);
    case _ =>
  }

  lemma {:induction false} TraceRun(s: State, es: seq<Event>)
    requires TraceInv(s) && Runs(s, es)
    ensures TraceInv(Final(s, es))
    decreases |es|
  {
    if es != [] {
      TraceStep(s, es[0]);
      TraceRun(Next(s, es[0]), es[1..]);
    }
  }

  // The main results still owed are of requests without JPEG buffers.
  predicate OwesNoJpeg(s: State) {
    forall k :: Sent(s) <= k < |s.accepted| ==> NoJpegFrom(s.accepted[k].buffers, 0)
  }

  lemma NoneWaits(accepted: seq<Request>, sent: nat, r: Readout, queue: seq<Request>)
    requires Trace(accepted, sent, r, queue)
    requires forall k :: sent <= k < |accepted| ==> NoJpegFrom(accepted[k].buffers, 0)
    ensures !InQueue(queue) && !InReadout(r)
  {
    forall k | 0 <= k < |queue|
      ensures !HasJpeg(queue[k])
    {
      var n := |accepted| - |queue| + k;
      assert sent <= n < |accepted| && queue[k] == accepted[n];
      assert NoJpegFrom(accepted[n].buffers, 0);
    }
    if r.Reading? {
      assert NoJpegFrom(accepted[sent].buffers, 0);
    }
  }

  // Once the main result of every accepted request with a JPEG buffer has come back, none
  // waits for its readout.
  lemma NoneWaitsAfterResults(unset: bool, es: seq<Event>)
    requires Runs(Start(unset), es)
    requires OwesNoJpeg(Final(Start(unset), es))
    ensures !JpegWaits(Final(Start(unset), es))
  {
    TraceRun(Start(unset), es);
    var s := Final(Start(unset), es);
    NoneWaits(s.accepted, Sent(s), s.readout, s.queue);
  }
}
