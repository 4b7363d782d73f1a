// The hand-off from the configure thread to the readout thread of the camera 2 pipeline
// (ConfigureThread and ReadoutThread in android/camera/EmulatedFakeCamera2.cpp): a ring
// of in-flight requests with one producer and one consumer.
module Camera2Readout {

  // Of its four slots the ring uses at most three, to tell full from empty.
  const IN_FLIGHT_QUEUE_SIZE: nat := 4
  const CAPACITY: nat := IN_FLIGHT_QUEUE_SIZE - 1

  // An in-flight request: its kind, its request and the stream ids of its buffers.
  datatype Entry = Entry(isCapture: bool, request: int, streams: seq<int>)

  datatype Option<T> = None | Some(value: T)

  // The entries from head up to tail, going round.
  function Cyclic<T>(slots: seq<T>, head: nat, tail: nat): (r: seq<T>)
    requires |slots| == IN_FLIGHT_QUEUE_SIZE && head < |slots| && tail < |slots|
    ensures |r| == (tail - head) % IN_FLIGHT_QUEUE_SIZE
  {
    if head <= tail then slots[head..tail] else slots[head..] + slots[..tail]
  }

  lemma CyclicPush<T>(slots: seq<T>, head: nat, tail: nat, x: T)
    requires |slots| == IN_FLIGHT_QUEUE_SIZE && head < |slots| && tail < |slots|
    requires (tail + 1) % IN_FLIGHT_QUEUE_SIZE != head
    ensures Cyclic(slots[tail := x], head, (tail + 1) % IN_FLIGHT_QUEUE_SIZE) == Cyclic(slots, head, tail) + [x]
  {
  }

  lemma CyclicPop<T>(slots: seq<T>, head: nat, tail: nat, x: T)
    requires |slots| == IN_FLIGHT_QUEUE_SIZE && head < |slots| && tail < |slots| && head != tail
    ensures var all := Cyclic(slots, head, tail);
            all != [] && all[0] == slots[head] &&
            Cyclic(slots[head := x], (head + 1) % IN_FLIGHT_QUEUE_SIZE, tail) == all[1..]
  {
    if head < tail {
      PopStraight(slots, head, tail, x);
    } else {
      PopAround(slots, head, tail, x);
    }
  }

  lemma PopStraight<T>(slots: seq<T>, head: nat, tail: nat, x: T)
    requires head < tail < |slots|
    ensures slots[head..tail][1..] == slots[head + 1..tail] == slots[head := x][head + 1..tail]
  {
  }

  lemma PopAround<T>(slots: seq<T>, head: nat, tail: nat, x: T)
    requires tail < head < |slots|
    ensures (slots[head..] + slots[..tail])[1..] == slots[head + 1..] + slots[..tail]
    ensures slots[head := x][head + 1..] == slots[head + 1..] && slots[head := x][..tail] == slots[..tail]
    ensures head + 1 == |slots| ==> slots[head + 1..] + slots[..tail] == slots[head := x][0..tail]
  {
  }

  // A scan from head meets the entries in order and stops after the last.
  lemma CyclicAt<T>(slots: seq<T>, head: nat, tail: nat, k: nat)
    requires |slots| == IN_FLIGHT_QUEUE_SIZE && head < |slots| && tail < |slots| && k <= |Cyclic(slots, head, tail)|
    ensures (head + k) % IN_FLIGHT_QUEUE_SIZE == tail <==> k == |Cyclic(slots, head, tail)|
    ensures k < |Cyclic(slots, head, tail)| ==> Cyclic(slots, head, tail)[k] == slots[(head + k) % IN_FLIGHT_QUEUE_SIZE]
  {
  }

  // The scan at i, after k entries.
  lemma ScanAt<T>(slots: seq<T>, head: nat, tail: nat, k: nat, i: nat)
    requires |slots| == IN_FLIGHT_QUEUE_SIZE && head < |slots| && tail < |slots| && k <= |Cyclic(slots, head, tail)|
    requires i == (head + k) % IN_FLIGHT_QUEUE_SIZE
    ensures i == tail <==> k == |Cyclic(slots, head, tail)|
    ensures i != tail ==> Cyclic(slots, head, tail)[k] == slots[i]
    ensures (i + 1) % IN_FLIGHT_QUEUE_SIZE == (head + k + 1) % IN_FLIGHT_QUEUE_SIZE
  {
    CyclicAt(slots, head, tail, k);
  }

  predicate Uses(e: Entry, id: int) {
    id in e.streams
  }

  class ReadoutThread {
    const slots: array<Entry>
    var head: nat
    var tail: nat
    var active: bool
    var requestCount: int
    var current: Option<Entry>     // mRequest and mBuffers

    ghost predicate Valid()
      reads this, slots
    {
      slots.Length == IN_FLIGHT_QUEUE_SIZE && head < slots.Length && tail < slots.Length
    }

    ghost function Queue(): seq<Entry>
      requires Valid()
      reads this, slots
    {
      Cyclic(slots[..], head, tail)
    }

    constructor ()
      ensures Valid() && fresh(slots) && Queue() == [] && !active && requestCount == 0 && current == None
    {
      slots := new Entry[IN_FLIGHT_QUEUE_SIZE](_ => Entry(false, 0, []));
      head, tail, active, requestCount, current := 0, 0, false, 0, None;
    }

    // readyForNextCapture: there is room.
    method ReadyForNextCapture() returns (ready: bool)
      requires Valid()
      ensures ready <==> |Queue()| < CAPACITY
    {
      ready := (tail + 1) % IN_FLIGHT_QUEUE_SIZE != head;
    }

    // setNextOperation: append, or drop the entry when the ring is full.
    method SetNextOperation(e: Entry) returns (dropped: bool)
      requires Valid()
      modifies this`tail, this`requestCount, this`active, slots
      ensures Valid() && dropped == (old(|Queue()|) == CAPACITY)
      ensures Queue() == if dropped then old(Queue()) else old(Queue()) + [e]
      ensures requestCount == old(requestCount) + (if dropped then 0 else 1)
      ensures active == (old(active) || !dropped)
    {
      var ready := ReadyForNextCapture();
      if !ready {
        return true;
      }
      CyclicPush(slots[..], head, tail, e);
      slots[tail] := e;
      tail := (tail + 1) % IN_FLIGHT_QUEUE_SIZE;
      requestCount := requestCount + 1;
      if !active {
        active := true;
      }
      dropped := false;
    }

    // The first critical section of threadLoop: go inactive, or take the next request.
    method TakeNext()
      requires Valid()
      modifies this`head, this`active, this`current, slots
      ensures Valid()
      ensures if active && old(current) == None && old(Queue()) != []
              then current == Some(old(Queue())[0]) && Queue() == old(Queue())[1..]
              else current == old(current) && Queue() == old(Queue())
      ensures active == (old(active) && !(old(current) == None && old(Queue()) == []))
    {
      if !active {
        return;
      }
      if current == None {
        if head == tail {
          active := false;
          return;
        }
        CyclicPop(slots[..], head, tail, Entry(slots[head].isCapture, 0, []));
        current := Some(slots[head]);
        slots[head] := Entry(slots[head].isCapture, 0, []);
        head := (head + 1) % IN_FLIGHT_QUEUE_SIZE;
      }
    }

    // The end of threadLoop: the request and its buffers are passed on, and then, under
    // the other lock, the count goes down.
    method PassOn() returns (e: Entry)
      requires current.Some?
      modifies this`current
      ensures current == None && Some(e) == old(current)
    {
      e := current.value;
      current := None;
    }

    method CountDown()
      modifies this`requestCount
      ensures requestCount == old(requestCount) - 1
    {
      requestCount := requestCount - 1;
    }

    // isStreamInUse: scan the ring, then the request being read out.
    method IsStreamInUse(id: int) returns (used: bool)
      requires Valid()
      ensures used <==> (exists k :: 0 <= k < |Queue()| && Uses(Queue()[k], id)) ||
                        (current.Some? && Uses(current.value, id))
    {
      ghost var k := 0;
      ghost var queue := Queue();
      var i := head;
      while i != tail
        invariant Valid() && 0 <= k <= |queue| && i == (head + k) % IN_FLIGHT_QUEUE_SIZE
        invariant queue == Queue()
        invariant forall j :: 0 <= j < k ==> !Uses(queue[j], id)
        decreases |queue| - k
      {
        ScanAt(slots[..], head, tail, k, i);
        if id in slots[i].streams {
          assert Uses(queue[k], id);
          return true;
        }
        i := (i + 1) % IN_FLIGHT_QUEUE_SIZE;
        k := k + 1;
      }
      ScanAt(slots[..], head, tail, k, i);
      if current.Some? && id in current.value.streams {
        return true;
      }
      used := false;
    }
  }
}

// The configure thread and the readout thread together, one atomic step for each
// critical section.
module Camera2Pipeline {
  import opened Camera2Readout

  // mRequest == NULL, a request being read out, or one passed on and not yet counted.
  datatype Readout = Waiting | Reading(e: Entry) | Finishing

  // No request yet, waiting in waitForReady, or on the way to setNextOperation.
  datatype Configure = NeedsRequest | WaitsForRoom(e: Entry) | MayHandOff(e: Entry)

  datatype System = System(
    queue: seq<Entry>, active: bool, count: int, readout: Readout, configure: Configure,
    accepted: seq<Entry>, dropped: seq<Entry>, done: seq<Entry>)

  const Start := System([], false, 0, Waiting, NeedsRequest, [], [], [])

  datatype Act = NewRequest(e: Entry) | WaitForReady | HandOff | TakeNext | Deliver | CountDown

  // Captures wait for the readout thread before they are handed off, reprocess requests
  // do not.
  function Next(s: System, a: Act): System {
    match a
    case NewRequest(e) =>
      if s.configure != NeedsRequest then s
      else s.(configure := if e.isCapture then WaitsForRoom(e) else MayHandOff(e))
    case WaitForReady =>
      if s.configure.WaitsForRoom? && |s.queue| < CAPACITY then s.(configure := MayHandOff(s.configure.e)) else s
    case HandOff =>
      if !s.configure.MayHandOff? then s
      else
        var e := s.configure.e;
        if |s.queue| == CAPACITY then s.(configure := NeedsRequest, dropped := s.dropped + [e])
        else s.(configure := NeedsRequest, queue := s.queue + [e], accepted := s.accepted + [e],
                count := s.count + 1, active := true)
    case TakeNext =>
      if !s.active || s.readout != Waiting then s
      else if s.queue == [] then s.(active := false)
      else s.(readout := Reading(s.queue[0]), queue := s.queue[1..])
    case Deliver =>
      if s.readout.Reading? then s.(readout := Finishing, done := s.done + [s.readout.e]) else s
    case CountDown =>
      if s.readout == Finishing then s.(readout := Waiting, count := s.count - 1) else s
  }

  function Run(s: System, acts: seq<Act>): System
    decreases |acts|
  {
    if acts == [] then s else Run(Next(s, acts[0]), acts[1..])
  }

  function InHand(r: Readout): seq<Entry> {
    if r.Reading? then [r.e] else []
  }

  predicate Inv(s: System) {
    && |s.queue| <= CAPACITY
    // the request count is the length of the ring, plus one while a request is read out
    && s.count == |s.queue| + (if s.readout == Waiting then 0 else 1)
    // no lost wakeup
    && (s.queue != [] || s.readout != Waiting ==> s.active)
    // room found for a capture stays
    && (s.configure.MayHandOff? && s.configure.e.isCapture ==> |s.queue| < CAPACITY)
    // first in, first out, nothing lost or doubled
    && s.accepted == s.done + InHand(s.readout) + s.queue
    && (forall i :: 0 <= i < |s.dropped| ==> !s.dropped[i].isCapture)
  }

  lemma HandOffInv(s: System)
    requires Inv(s) && s.configure.MayHandOff? && |s.queue| < CAPACITY
    ensures Inv(Next(s, HandOff))
  {
    var e := s.configure.e;
    assert s.done + InHand(s.readout) + s.queue + [e] == s.done + InHand(s.readout) + (s.queue + [e]);
  }

  lemma TakeNextInv(s: System)
    requires Inv(s)
    ensures Inv(Next(s, TakeNext))
  {
    if s.active && s.readout == Waiting && s.queue != [] {
      assert s.done + [] + s.queue == s.done + [s.queue[0]] + s.queue[1..];
    }
  }

  lemma NextInv(s: System, a: Act)
    requires Inv(s)
    ensures Inv(Next(s, a))
  {
    match a
    case HandOff =>
      if s.configure.MayHandOff? && |s.queue| < CAPACITY { HandOffInv(s); }
    case TakeNext => TakeNextInv(s);
    case Deliver =>
      if s.readout.Reading? {
        assert s.done + [s.readout.e] + s.queue == s.done + [s.readout.e] + [] + s.queue;
      }
    case _ =>
  }

  // In every interleaving of the two threads.
  lemma {:induction false} RunInv(s: System, acts: seq<Act>)
    requires Inv(s)
    ensures Inv(Run(s, acts))
    decreases |acts|
  {
    if acts != [] {
      NextInv(s, acts[0]);
      RunInv(Next(s, acts[0]), acts[1..]);
    }
  }

  // A hand-off drops its request exactly when the ring is full and the request is a
  // reprocess request; a capture is never dropped.
  lemma DropsOnlyReprocess(acts: seq<Act>)
    requires Run(Start, acts).configure.MayHandOff?
    ensures var s := Run(Start, acts);
            Next(s, HandOff).dropped != s.dropped <==> |s.queue| == CAPACITY && !s.configure.e.isCapture
  {
    RunInv(Start, acts);
  }

  // What the readout thread delivers is what was handed off and not dropped, in order.
  lemma DeliversInOrder(acts: seq<Act>)
    ensures var s := Run(Start, acts);
            |s.done| <= |s.accepted| && s.accepted[..|s.done|] == s.done &&
            (s.queue == [] && !s.readout.Reading? ==> s.done == s.accepted)
  {
    RunInv(Start, acts);
    var s := Run(Start, acts);
    assert s.accepted == s.done + (InHand(s.readout) + s.queue);
  }

  // What the readout thread does next.
  function ReadoutAct(s: System): Act {
    match s.readout
    case Waiting => TakeNext
    case Reading(_) => Deliver
    case Finishing => CountDown
  }

  // How often the readout thread gets its turn in a run.
  function Turns(s: System, acts: seq<Act>): nat
    decreases |acts|
  {
    if acts == [] then 0 else (if acts[0] == ReadoutAct(s) then 1 else 0) + Turns(Next(s, acts[0]), acts[1..])
  }

  // The turns it takes until the first n entries are delivered.
  function TurnsLeft(s: System, n: nat): nat {
    if |s.done| >= n then 0
    else 3 * (n - |s.done|) - (match s.readout case Waiting => 1 case Reading(_) => 2 case Finishing => 0)
  }

  lemma TurnCounts(s: System, a: Act, n: nat)
    requires Inv(s) && n <= |s.accepted|
    ensures var t := Next(s, a);
            && n <= |t.accepted|
            && (if a == ReadoutAct(s) && |s.done| < n then TurnsLeft(t, n) < TurnsLeft(s, n)
                else TurnsLeft(t, n) <= TurnsLeft(s, n))
  {
    if s.readout == Waiting && |s.done| < n {
      assert |s.accepted| == |s.done| + |s.queue|;
    }
  }

  lemma {:induction false} TurnsDeliver(s: System, acts: seq<Act>, n: nat)
    requires Inv(s) && n <= |s.accepted| && Turns(s, acts) >= TurnsLeft(s, n)
    ensures |Run(s, acts).done| >= n
    decreases |acts|
  {
    if acts != [] {
      NextInv(s, acts[0]);
      TurnCounts(s, acts[0], n);
      TurnsDeliver(Next(s, acts[0]), acts[1..], n);
    }
  }

  lemma {:induction false} AcceptedGrows(s: System, acts: seq<Act>)
    ensures s.accepted <= Run(s, acts).accepted
    decreases |acts|
  {
    if acts != [] {
      AcceptedGrows(Next(s, acts[0]), acts[1..]);
    }
  }

  // Work that is pending is done: in every interleaving, whatever the configure thread
  // does meanwhile, three turns of the readout thread for each entry in its charge deliver
  // everything accepted so far, in order. It is never asleep while there is work.
  lemma PendingWorkIsDone(s: System, acts: seq<Act>)
    requires Inv(s) && Turns(s, acts) >= 3 * (|s.accepted| - |s.done|)
    ensures s.accepted <= Run(s, acts).done
    ensures |s.accepted| - |s.done| == |s.queue| + |InHand(s.readout)|
  {
    var n, t := |s.accepted|, Run(s, acts);
    TurnsDeliver(s, acts, n);
    AcceptedGrows(s, acts);
    RunInv(s, acts);
    assert t.accepted == t.done + (InHand(t.readout) + t.queue);
    assert t.done[..n] == t.accepted[..n] == s.accepted;
  }

  // A run in which a reprocess request is dropped.
  lemma ReprocessCanBeDropped() returns (acts: seq<Act>)
    ensures Run(Start, acts).dropped == [Entry(false, 3, [])]
  {
    var a, b, c, d := Entry(false, 0, []), Entry(false, 1, []), Entry(false, 2, []), Entry(false, 3, []);
    acts := [NewRequest(a), HandOff, NewRequest(b), HandOff, NewRequest(c), HandOff, NewRequest(d), HandOff];
    assert acts[2..][2..] == acts[4..] && acts[4..][2..] == acts[6..] && |acts[6..][2..]| == 0;
    var s1 := Offered(Start, a, acts);
    var s2 := Offered(s1, b, acts[2..]);
    var s3 := Offered(s2, c, acts[4..]);
    var s4 := Offered(s3, d, acts[6..]);
    assert s3.queue == [a, b, c] && s4.dropped == [d];
  }

  // A reprocess request comes and is handed off at once.
  lemma Offered(s: System, e: Entry, acts: seq<Act>) returns (t: System)
    requires |acts| >= 2 && acts[0] == NewRequest(e) && acts[1] == HandOff
    requires !e.isCapture && s.configure == NeedsRequest
    ensures Run(s, acts) == Run(t, acts[2..]) && t.configure == NeedsRequest
    ensures |s.queue| < CAPACITY ==> t.queue == s.queue + [e] && t.dropped == s.dropped
    ensures |s.queue| == CAPACITY ==> t.queue == s.queue && t.dropped == s.dropped + [e]
  {
    TwoSteps(s, e, acts);
    t := Next(Next(s, NewRequest(e)), HandOff);
  }

  lemma TwoSteps(s: System, e: Entry, acts: seq<Act>)
    requires |acts| >= 2 && acts[0] == NewRequest(e) && acts[1] == HandOff
    ensures Run(s, acts) == Run(Next(Next(s, NewRequest(e)), HandOff), acts[2..])
  {
    assert acts[1..][1..] == acts[2..] && acts[1..][0] == HandOff;
  }
}

// The two locks of the readout thread. Its isStreamInUse says it acquires them in the
// same order as threadLoop, but threadLoop uses both orders.
module Camera2Locks {
  datatype Lock = Input | Internals

  // A thread takes two locks one after the other and then gives both back: taken counts
  // the locks it holds, 2 being the whole section.
  datatype Threads = Threads(a: nat, b: nat)

  function Holds(order: seq<Lock>, taken: nat): set<Lock>
    requires |order| == 2 && taken <= 2
  {
    set i | 0 <= i < taken :: order[i]
  }

  // Thread A moves: it takes its next lock if thread B does not hold it, or releases.
  predicate MoveA(x: seq<Lock>, y: seq<Lock>, s: Threads, t: Threads)
    requires |x| == 2 && |y| == 2
  {
    && s.a <= 2 && s.b <= 2 && t.b == s.b
    && (if s.a == 2 then t.a == 0 else t.a == s.a + 1 && x[s.a] !in Holds(y, s.b))
  }

  predicate Move(x: seq<Lock>, y: seq<Lock>, s: Threads, t: Threads)
    requires |x| == 2 && |y| == 2
  {
    MoveA(x, y, s, t) || MoveA(y, x, Threads(s.b, s.a), Threads(t.b, t.a))
  }

  // A path from the state in which neither holds a lock.
  predicate Path(x: seq<Lock>, y: seq<Lock>, p: seq<Threads>)
    requires |x| == 2 && |y| == 2
  {
    && p != [] && p[0] == Threads(0, 0)
    && forall i :: 0 <= i < |p| - 1 ==> Move(x, y, p[i], p[i + 1])
  }

  predicate Stuck(x: seq<Lock>, y: seq<Lock>, s: Threads)
    requires |x| == 2 && |y| == 2 && s.a <= 2 && s.b <= 2
  {
    s.a < 2 && s.b < 2 && x[s.a] in Holds(y, s.b) && y[s.b] in Holds(x, s.a)
  }

  ghost predicate CanDeadlock(x: seq<Lock>, y: seq<Lock>)
    requires |x| == 2 && |y| == 2
  {
    exists p: seq<Threads> :: Path(x, y, p) && p[|p| - 1].a <= 2 && p[|p| - 1].b <= 2 && Stuck(x, y, p[|p| - 1])
  }

  // Two sections over the same two locks can block each other for good exactly when they
  // take them in different orders.
  lemma DeadlockIffOrdersDiffer(x: seq<Lock>, y: seq<Lock>)
    requires |x| == 2 && |y| == 2 && x[0] != x[1] && y[0] != y[1]
    ensures CanDeadlock(x, y) <==> x != y
  {
    if x != y {
      assert x[0] == y[1] && x[1] == y[0];
      var p := [Threads(0, 0), Threads(1, 0), Threads(1, 1)];
      assert x[0] in Holds(x, 1) && y[0] in Holds(y, 1);
      assert Move(x, y, p[0], p[1]) && Move(x, y, p[1], p[2]);
      assert Path(x, y, p) && Stuck(x, y, p[2]);
    }
  }

  const TakeNextOrder: seq<Lock> := [Input, Internals]      // start of threadLoop
  const PassOnOrder: seq<Lock> := [Internals, Input]        // end of threadLoop
  const StreamInUseOrder: seq<Lock> := [Internals, Input]   // isStreamInUse

  lemma StreamInUseCanDeadlock()
    ensures CanDeadlock(TakeNextOrder, StreamInUseOrder)
    ensures !CanDeadlock(PassOnOrder, StreamInUseOrder)
  {
    DeadlockIffOrdersDiffer(TakeNextOrder, StreamInUseOrder);
    DeadlockIffOrdersDiffer(PassOnOrder, StreamInUseOrder);
  }
}
