// The configure and readout threads of the camera 2 pipeline on the ring they share
// (android/camera/EmulatedFakeCamera2.cpp), in any interleaving of their critical sections.
module Camera2Object {
  import opened Camera2Readout
  import opened Camera2Pipeline

  class Pipeline {
    const thread: ReadoutThread
    var finishing: bool            // the readout thread is between passing on and counting down
    var configure: Configure       // where the configure thread is
    ghost var accepted: seq<Entry>
    ghost var dropped: seq<Entry>
    ghost var done: seq<Entry>

    ghost predicate Valid()
      reads this, thread, thread.slots
    {
      thread.Valid() && (finishing ==> thread.current == None)
    }

    ghost function ReadoutState(): Readout
      reads this, thread
    {
      if finishing then Finishing else if thread.current == None then Waiting else Reading(thread.current.value)
    }

    ghost function Now(): System
      requires Valid()
      reads this, thread, thread.slots
    {
      System(thread.Queue(), thread.active, thread.requestCount, ReadoutState(), configure, accepted, dropped, done)
    }

    constructor ()
      ensures Valid() && Now() == Start && fresh(thread) && fresh(thread.slots)
    {
      thread := new ReadoutThread();
      finishing, configure, accepted, dropped, done := false, NeedsRequest, [], [], [];
    }

    // The configure thread: the next request, the wait for room, and the hand-off.
    method Configuring(a: Act)
      requires Valid() && (a.NewRequest? || a.WaitForReady? || a.HandOff?)
      modifies this`configure, this`accepted, this`dropped, thread, thread.slots
      ensures Valid() && Now() == Next(old(Now()), a)
    {
      match a
      case NewRequest(e) =>
        if configure == NeedsRequest {
          configure := if e.isCapture then WaitsForRoom(e) else MayHandOff(e);
        }
      case WaitForReady =>
        var ready := thread.ReadyForNextCapture();
        if configure.WaitsForRoom? && ready {
          configure := MayHandOff(configure.e);
        }
      case HandOff =>
        if configure.MayHandOff? {
          var e := configure.e;
          var full := thread.SetNextOperation(e);
          if full {
            dropped := dropped + [e];
          } else {
            accepted := accepted + [e];
          }
          configure := NeedsRequest;
        }
    }

    // The readout thread, where it is at.
    method ReadingOut(a: Act)
      requires Valid() && (a.TakeNext? || a.Deliver? || a.CountDown?)
      modifies this`finishing, this`done, thread, thread.slots
      ensures Valid() && Now() == Next(old(Now()), a)
    {
      match a
      case TakeNext =>
        if !finishing && thread.current == None {
          thread.TakeNext();
        }
      case Deliver =>
        if thread.current != None {
          var e := thread.PassOn();
          done := done + [e];
          finishing := true;
        }
      case CountDown =>
        if finishing {
          thread.CountDown();
          finishing := false;
        }
    }

    method Perform(a: Act)
      requires Valid()
      modifies this`configure, this`accepted, this`dropped, this`finishing, this`done, thread, thread.slots
      ensures Valid() && Now() == Next(old(Now()), a)
    {
      if a.NewRequest? || a.WaitForReady? || a.HandOff? {
        Configuring(a);
      } else {
        ReadingOut(a);
      }
    }

    // The objects in any interleaving of the two threads: no capture is dropped, the count
    // is the length of the ring plus the request in hand, and what was delivered is what
    // was accepted, in order.
    method Interleave(acts: seq<Act>)
      requires Valid() && Now() == Start
      modifies this`configure, this`accepted, this`dropped, this`finishing, this`done, thread, thread.slots
      ensures Valid() && Now() == Run(Start, acts) && Inv(Now())
    {
      var n := 0;
      assert acts[0..] == acts;
      while n < |acts|
        invariant 0 <= n <= |acts| && Valid() && Run(Now(), acts[n..]) == Run(Start, acts)
      {
        assert acts[n..][1..] == acts[n + 1..];
        Perform(acts[n]);
        n := n + 1;
      }
      RunInv(Start, acts);
    }
  }
}
