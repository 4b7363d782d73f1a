// Stream reconfiguration of the camera 3 pipeline (configureStreams in
// android/camera/EmulatedFakeCamera3.cpp): mark every configured stream dead, mark the
// requested ones alive while adding the new ones, and sweep the dead ones away.
module Camera3Streams {
  import opened Seqs

  datatype StreamType = Output | Input | Bidirectional

  // GRALLOC_USAGE_HW_CAMERA_READ and _WRITE
  datatype Usage = Usage(read: bool, write: bool)

  const MAX_BUFFER_COUNT: int := 4

  class PrivateStreamInfo {
    var alive: bool
    constructor (alive: bool)
      ensures this.alive == alive
    {
      this.alive := alive;
    }
  }

  // camera3_stream_t; supported says whether its format is one of kAvailableFormats.
  class Stream {
    const streamType: StreamType
    const supported: bool
    var usage: Usage
    var maxBuffers: int
    var priv: PrivateStreamInfo?
    constructor (streamType: StreamType, supported: bool)
      ensures this.streamType == streamType && this.supported == supported && priv == null
    {
      this.streamType, this.supported, priv := streamType, supported, null;
      usage, maxBuffers := Usage(false, false), 0;
    }
  }

  // The usage every stream of a type is given.
  function UsageFor(t: StreamType): Usage {
    Usage(t != Output, t != Input)
  }

  // ------------------------------------------------------- what is requested

  datatype StreamList = NullList | NullStreams | Streams(streams: seq<Stream?>)

  predicate NoNull(s: seq<Stream?>) {
    forall i :: 0 <= i < |s| ==> s[i] != null
  }

  function NonNull(s: seq<Stream?>): (r: seq<Stream>)
    requires NoNull(s)
    ensures |r| == |s| && forall i :: 0 <= i < |s| ==> r[i] == s[i]
  {
    seq(|s|, i requires 0 <= i < |s| => s[i])
  }

  predicate IsInput(s: Stream) {
    s.streamType != Output
  }

  // At least one stream, none of them null or of an unsupported format, and at most one
  // that takes input. (The same stream twice counts twice.)
  predicate Acceptable(list: StreamList) {
    && list.Streams? && list.streams != [] && NoNull(list.streams)
    && (forall i :: 0 <= i < |list.streams| ==> list.streams[i].supported)
    && (forall i, j :: 0 <= i < j < |list.streams| ==> !(IsInput(list.streams[i]) && IsInput(list.streams[j])))
  }

  // --------------------------------------------------------- what is kept

  // The elements of s that are in t, in the order of s.
  function Within(s: seq<Stream>, t: seq<Stream>): (r: seq<Stream>) {
    if s == [] then []
    else Within(s[..|s| - 1], t) + if s[|s| - 1] in t then [s[|s| - 1]] else []
  }

  // The elements of t that are not in s, each where it first occurs.
  function Fresh(s: seq<Stream>, t: seq<Stream>): (r: seq<Stream>) {
    if t == [] then []
    else
      var before, x := Fresh(s, t[..|t| - 1]), t[|t| - 1];
      if x in s || x in before then before else before + [x]
  }

  // The configured streams after a request: survivors in their old order, then the new
  // ones in the order of the request.
  function Reconfigured(old_: seq<Stream>, request: seq<Stream>): seq<Stream> {
    Within(old_, request) + Fresh(old_, request)
  }

  lemma {:induction false} WithinMembers(s: seq<Stream>, t: seq<Stream>, x: Stream)
    ensures x in Within(s, t) <==> x in s && x in t
  {
    if s != [] {
      WithinMembers(s[..|s| - 1], t, x);
      assert s == s[..|s| - 1] + [s[|s| - 1]];
    }
  }

  lemma {:induction false} FreshMembers(s: seq<Stream>, t: seq<Stream>, x: Stream)
    ensures x in Fresh(s, t) <==> x in t && x !in s
  {
    if t != [] {
      FreshMembers(s, t[..|t| - 1], x);
      assert t == t[..|t| - 1] + [t[|t| - 1]];
    }
  }

  lemma {:induction false} WithinNoDup(s: seq<Stream>, t: seq<Stream>)
    requires NoDup(s)
    ensures NoDup(Within(s, t))
  {
    if s != [] {
      var n := |s| - 1;
      WithinNoDup(s[..n], t);
      WithinMembers(s[..n], t, s[n]);
      assert s[n] !in s[..n];
    }
  }

  lemma {:induction false} FreshNoDup(s: seq<Stream>, t: seq<Stream>)
    ensures NoDup(Fresh(s, t))
  {
    if t != [] {
      FreshNoDup(s, t[..|t| - 1]);
    }
  }

  // The list of configured streams is duplicate-free and, as a set, the request.
  lemma ReconfiguredIsRequest(old_: seq<Stream>, request: seq<Stream>)
    requires NoDup(old_)
    ensures NoDup(Reconfigured(old_, request))
    ensures forall i :: 0 <= i < |Reconfigured(old_, request)| ==> Reconfigured(old_, request)[i] in request
    ensures forall i :: 0 <= i < |request| ==> request[i] in Reconfigured(old_, request)
  {
    WithinNoDup(old_, request);
    FreshNoDup(old_, request);
    var a, b := Within(old_, request), Fresh(old_, request);
    forall i, j | 0 <= i < |a| && 0 <= j < |b|
      ensures a[i] != b[j]
    {
      WithinMembers(old_, request, a[i]);
      FreshMembers(old_, request, b[j]);
    }
    forall i | 0 <= i < |a + b|
      ensures (a + b)[i] in request
    {
      WithinMembers(old_, request, (a + b)[i]);
      FreshMembers(old_, request, (a + b)[i]);
    }
    forall i | 0 <= i < |request|
      ensures request[i] in a + b
    {
      WithinMembers(old_, request, request[i]);
      FreshMembers(old_, request, request[i]);
    }
  }

  // ------------------------------------------------------------ the camera

  datatype CameraStatus = Error | Closed | Open | Ready | Active
  datatype Result = Ok | NoInit | BadValue

  // Every stream of the list has its own private record, which says whether the stream
  // is among `live`.
  ghost predicate Marked(streams: seq<Stream>, live: seq<Stream>)
    reads streams, set s | s in streams :: s.priv
  {
    && NoDup(streams)
    && (forall i :: 0 <= i < |streams| ==> streams[i].priv != null)
    && (forall i, j :: 0 <= i < j < |streams| ==> streams[i].priv != streams[j].priv)
    && (forall i :: 0 <= i < |streams| ==> (streams[i].priv.alive <==> streams[i] in live))
  }

  class FakeCamera3 {
    var status: CameraStatus
    var inputStream: Stream?
    var streams: seq<Stream>         // mStreams
    var hasPrevSettings: bool        // mPrevSettings is not empty

    constructor ()
      ensures status == Open && streams == [] && inputStream == null
    {
      status, inputStream, streams, hasPrevSettings := Open, null, [], false;
    }

    // The checks before anything is changed: the result, and the input stream.
    method Validate(list: StreamList) returns (ok: bool, input: Stream?)
      ensures ok <==> Acceptable(list)
      ensures ok && input != null ==> input in list.streams && IsInput(input)
      ensures ok && input == null ==> forall i :: 0 <= i < |list.streams| ==> !IsInput(list.streams[i])
    {
      ok, input := false, null;
      if list.NullList? || list.NullStreams? || |list.streams| < 1 {
        return;
      }
      var i := 0;
      while i < |list.streams|
        invariant 0 <= i <= |list.streams|
        invariant forall k :: 0 <= k < i ==> list.streams[k] != null && list.streams[k].supported
        invariant forall j, k :: 0 <= j < k < i ==> !(IsInput(list.streams[j]) && IsInput(list.streams[k]))
        invariant input != null ==> IsInput(input) && exists k :: 0 <= k < i && list.streams[k] == input
        invariant input == null ==> forall k :: 0 <= k < i ==> !IsInput(list.streams[k])
      {
        var s := list.streams[i];
        if s == null {
          return;
        }
        if s.streamType == Input || s.streamType == Bidirectional {
          if input != null {
            return;
          }
          input := s;
        }
        if !s.supported {
          return;
        }
        i := i + 1;
      }
      ok := true;
    }

    // Mark every configured stream as not alive.
    method MarkAllDead()
      requires Marked(streams, streams)
      modifies set s | s in streams :: s.priv
      ensures Marked(streams, [])
    {
      var i := 0;
      while i < |streams|
        invariant 0 <= i <= |streams|
        invariant forall k :: 0 <= k < i ==> !streams[k].priv.alive
      {
        streams[i].priv.alive := false;
        i := i + 1;
      }
    }

    // One requested stream: a new one gets a private record and joins the list, a known
    // one is marked alive.
    method Request(s: Stream, ghost seen: seq<Stream>)
      requires Marked(streams, seen) && (s.priv != null <==> s in streams)
      modifies this`streams, s`priv, s`maxBuffers, s`usage, s.priv
      ensures streams == if old(s.priv) == null then old(streams) + [s] else old(streams)
      ensures Marked(streams, seen + [s]) && s.priv != null
      ensures old(s.priv) == null ==> fresh(s.priv)
      ensures old(s.priv) != null ==> s.priv == old(s.priv)
      ensures Prepared(s)
    {
      ghost var before := streams;
      if s.priv == null {
        s.priv := new PrivateStreamInfo(true);
        streams := streams + [s];
      } else {
        s.priv.alive := true;
      }
      s.maxBuffers := MAX_BUFFER_COUNT;
      match s.streamType {
        case Output => s.usage := Usage(false, true);
        case Input => s.usage := Usage(true, false);
        case Bidirectional => s.usage := Usage(true, true);
      }
    }

    // After the first i requests: what is configured, what is marked, and which of the
    // requested streams have a private record.
    ghost predicate Requested(start: seq<Stream>, request: seq<Stream>, i: int)
      reads this, streams, request, set s | s in streams :: s.priv
    {
      && 0 <= i <= |request|
      && streams == start + Fresh(start, request[..i])
      && Marked(streams, request[..i])
      && (forall k :: 0 <= k < |request| ==> (request[k].priv != null <==> request[k] in streams))
      && (forall k :: 0 <= k < i ==> Prepared(request[k]))
    }

    method RequestNext(ghost start: seq<Stream>, request: seq<Stream>, i: int)
      requires Requested(start, request, i) && i < |request|
      modifies this`streams, {request[i]}, request[i].priv
      ensures Requested(start, request, i + 1)
      ensures old(request[i].priv) != null ==> request[i].priv == old(request[i].priv) && streams == old(streams)
      ensures old(request[i].priv) == null ==> fresh(request[i].priv) && streams == old(streams) + [request[i]]
    {
      var s := request[i];
      assert request[..i + 1] == request[..i] + [s];
      FreshMembers(start, request[..i], s);
      label Before:
      Request(s, request[..i]);
      forall k | 0 <= k < i + 1
        ensures Prepared(request[k])
      {
        if request[k] != s {
          assert old@Before(Prepared(request[k]));
        }
      }
    }

    // The requested streams, in order.
    method RequestAll(request: seq<Stream>)
      requires Marked(streams, [])
      requires forall i :: 0 <= i < |request| ==> (request[i].priv != null <==> request[i] in streams)
      modifies this`streams, request, set s | s in streams :: s.priv
      ensures streams == old(streams) + Fresh(old(streams), request)
      ensures Marked(streams, request)
      ensures forall s :: s in old(streams) ==> s.priv == old(s.priv)
      ensures forall i :: 0 <= i < |request| ==> Prepared(request[i])
    {
      ghost var start := streams;
      var i := 0;
      assert streams == start + [];
      while i < |request|
        invariant Requested(start, request, i)
        invariant forall s :: s in streams ==> if s in start then s.priv == old(s.priv) else fresh(s.priv)
      {
        RequestNext(start, request, i);
        i := i + 1;
      }
      assert request[..i] == request;
    }

    // The sweep is at the k-th of the streams it began with, which is now at j.
    ghost predicate SweepAt(start: seq<Stream>, records: seq<PrivateStreamInfo?>, live: seq<Stream>, k: int, j: int)
      reads this, start, records
    {
      && 0 <= k <= |start| && NoDup(start)
      && streams == Reaping(start, live, k) && j == |Within(start[..k], live)|
      && Reaped(start, records, live, k)
      && AliveFrom(start, records, live, k)
    }

    // One turn of the sweep: the stream at j is kept, or taken out and its record cleared.
    method ReapNext(j: int, ghost start: seq<Stream>, ghost records: seq<PrivateStreamInfo?>, ghost live: seq<Stream>,
                    ghost k: int) returns (j': int)
      requires SweepAt(start, records, live, k, j) && k < |start|
      modifies this`streams, {start[k]}`priv
      ensures SweepAt(start, records, live, k + 1, j')
    {
      ReapStep(start, live, k);
      assert start[k].priv == records[k] && streams[j] == start[k];
      var s := streams[j];
      j' := j;
      if !s.priv.alive {
        s.priv := null;
        streams := streams[..j] + streams[j + 1..];
      } else {
        j' := j + 1;
      }
    }

    // Take the dead streams out of the list and clear their private records.
    method Reap(ghost live: seq<Stream>)
      requires NoDup(streams) && AliveFrom(streams, Records(streams), live, 0)
      modifies this`streams, streams`priv
      ensures streams == Within(old(streams), live)
      ensures Reaped(old(streams), old(Records(streams)), live, |old(streams)|)
    {
      ReapBounds(streams, live);
      ReapFrom(streams, Records(streams), live);
    }

    method ReapFrom(ghost start: seq<Stream>, ghost records: seq<PrivateStreamInfo?>, ghost live: seq<Stream>)
      requires SweepAt(start, records, live, 0, 0)
      modifies this`streams, start`priv
      ensures SweepAt(start, records, live, |start|, |streams|)
    {
      var j := 0;
      ghost var k := 0;
      while j < |streams|
        invariant SweepAt(start, records, live, k, j)
        decreases |start| - k
      {
        j := ReapNext(j, start, records, live, k);
        k := k + 1;
      }
    }

    // The streams a call names, the null ones left out of account.
    ghost predicate Known(list: StreamList)
      reads this, if list.Streams? then set s | s in list.streams else {}
    {
      list.Streams? ==> forall i :: 0 <= i < |list.streams| && list.streams[i] != null ==>
        (list.streams[i].priv != null <==> list.streams[i] in streams)
    }

    // The sweep: what is left is marked as before.
    method Sweep(live: seq<Stream>)
      requires Marked(streams, live)
      modifies this`streams, (set s | s in streams)`priv
      ensures streams == Within(old(streams), live) && Marked(streams, live)
      ensures Reaped(old(streams), old(Records(streams)), live, |old(streams)|)
    {
      ghost var start := streams;
      MarkedRecords(start, live);
      Reap(live);
      WithinNoDup(start, live);
      forall s | s in streams
        ensures s in start && s in live && s.priv == old(s.priv)
      {
        WithinMembers(start, live, s);
        var i :| 0 <= i < |start| && start[i] == s;
      }
    }

    // The mark and sweep of an acceptable request.
    method Reconfigure(request: seq<Stream>)
      requires Marked(streams, streams)
      requires forall i :: 0 <= i < |request| ==> (request[i].priv != null <==> request[i] in streams)
      modifies this`streams, request, streams, set s | s in streams :: s.priv
      ensures streams == Reconfigured(old(streams), request) && Marked(streams, streams)
      ensures forall s :: s in old(streams) ==> s.priv == if s in request then old(s.priv) else null
      ensures forall i :: 0 <= i < |request| ==> Prepared(request[i])
    {
      ghost var start := streams;
      MarkAllDead();
      RequestAll(request);
      ghost var all := streams;
      WithinBoth(start, request);
      forall s | s in streams
        ensures s in start || s in request
      {
        FreshMembers(start, request, s);
      }
      Sweep(request);
      assert streams == Reconfigured(start, request);
      MarkedAsReconfigured(start, request);
      forall s | s in start
        ensures s.priv == if s in request then old(s.priv) else null
      {
        assert s in all;
        var i :| 0 <= i < |all| && all[i] == s;
      }
    }

    // After an accepted request: the configured streams are the requested ones, all alive,
    // and of the ones configured before, the others have lost their records.
    ghost predicate Configured(was: seq<Stream>, records: seq<PrivateStreamInfo?>, request: seq<Stream>)
      reads this, streams, request, was, set s | s in streams :: s.priv
    {
      && streams == Reconfigured(was, request) && Marked(streams, streams) && !hasPrevSettings
      && (forall i :: 0 <= i < |streams| ==> streams[i] in request)
      && (forall i :: 0 <= i < |request| ==> request[i] in streams)
      && |records| == |was|
      && (forall i :: 0 <= i < |was| ==> was[i].priv == if was[i] in request then records[i] else null)
      && (forall i :: 0 <= i < |request| ==> Prepared(request[i]))
      && (if inputStream == null then forall i :: 0 <= i < |request| ==> !IsInput(request[i])
          else inputStream in request && IsInput(inputStream))
    }

    // configureStreams from the point where the list has been found acceptable.
    method Accept(request: seq<Stream>, input: Stream?)
      requires Marked(streams, streams)
      requires forall i :: 0 <= i < |request| ==> (request[i].priv != null <==> request[i] in streams)
      requires if input == null then forall i :: 0 <= i < |request| ==> !IsInput(request[i])
               else input in request && IsInput(input)
      modifies this`inputStream, this`streams, this`hasPrevSettings, request, streams, set s | s in streams :: s.priv
      ensures Configured(old(streams), old(Records(streams)), request)
    {
      inputStream := input;
      ghost var start := streams;
      Reconfigure(request);
      ReconfiguredIsRequest(start, request);
      hasPrevSettings := false;
    }

    // configureStreams: refused outside the open and ready states or for a request that
    // is not acceptable, and then nothing has changed.
    method ConfigureStreams(list: StreamList) returns (r: Result)
      requires Marked(streams, streams) && Known(list)
      modifies this`inputStream, this`streams, this`hasPrevSettings,
        (if list.Streams? then set s | s in list.streams else {}), streams, set s | s in streams :: s.priv
      ensures r == if status !in {Open, Ready} then NoInit else if !Acceptable(list) then BadValue else Ok
      ensures Marked(streams, streams)
      ensures r != Ok ==> unchanged(this) && unchanged(set s | s in old(streams)) &&
                          unchanged(set s | s in old(streams) :: old(s.priv)) &&
                          (list.Streams? ==> unchanged(set s | s in list.streams && s != null))
      ensures r == Ok ==> Configured(old(streams), old(Records(streams)), NonNull(list.streams))
    {
      if status != Open && status != Ready {
        return NoInit;
      }
      var ok, input := Validate(list);
      if !ok {
        return BadValue;
      }
      Accept(NonNull(list.streams), input);
      r := Ok;
    }
  }

  lemma MarkedAsReconfigured(start: seq<Stream>, request: seq<Stream>)
    requires NoDup(start) && Marked(Reconfigured(start, request), request)
    ensures Marked(Reconfigured(start, request), Reconfigured(start, request))
  {
    ReconfiguredIsRequest(start, request);
    var streams := Reconfigured(start, request);
    forall i | 0 <= i < |streams|
      ensures streams[i].priv.alive
    {
      assert streams[i] in request;
    }
  }

  // Sweeping the extended list keeps what sweeping the old one keeps, and all the new.
  lemma {:induction false} WithinAppend(a: seq<Stream>, b: seq<Stream>, live: seq<Stream>)
    ensures Within(a + b, live) == Within(a, live) + Within(b, live)
  {
    if b == [] {
      assert a + b == a;
    } else {
      WithinAppend(a, b[..|b| - 1], live);
      assert (a + b)[..|a + b| - 1] == a + b[..|b| - 1];
    }
  }

  lemma {:induction false} WithinAll(s: seq<Stream>, live: seq<Stream>)
    requires forall i :: 0 <= i < |s| ==> s[i] in live
    ensures Within(s, live) == s
  {
    if s != [] {
      WithinAll(s[..|s| - 1], live);
    }
  }

  lemma WithinBoth(start: seq<Stream>, request: seq<Stream>)
    ensures Within(start + Fresh(start, request), request) == Reconfigured(start, request)
  {
    var fresh_ := Fresh(start, request);
    WithinAppend(start, fresh_, request);
    forall i | 0 <= i < |fresh_|
      ensures fresh_[i] in request
    {
      FreshMembers(start, request, fresh_[i]);
    }
    WithinAll(fresh_, request);
  }

  ghost function Records(streams: seq<Stream>): (r: seq<PrivateStreamInfo?>)
    reads streams
    ensures |r| == |streams| && forall i :: 0 <= i < |streams| ==> r[i] == streams[i].priv
  {
    seq(|streams|, i requires 0 <= i < |streams| reads streams => streams[i].priv)
  }

  // Of the first k streams' records only those of the streams that are not live are gone.
  ghost predicate Reaped(start: seq<Stream>, records: seq<PrivateStreamInfo?>, live: seq<Stream>, k: int)
    reads start
  {
    && |records| == |start|
    && forall i {:trigger start[i].priv} :: 0 <= i < |start| ==>
         start[i].priv == if i < k && start[i] !in live then null else records[i]
  }

  // From k on the records say which streams are live.
  ghost predicate AliveFrom(start: seq<Stream>, records: seq<PrivateStreamInfo?>, live: seq<Stream>, k: int)
    reads records
  {
    && |records| == |start|
    && forall i {:trigger records[i]} :: 0 <= i < |start| && k <= i ==>
         records[i] != null && (records[i].alive <==> start[i] in live)
  }

  lemma MarkedRecords(streams: seq<Stream>, live: seq<Stream>)
    requires Marked(streams, live)
    ensures AliveFrom(streams, Records(streams), live, 0) && Reaped(streams, Records(streams), live, 0)
  {
  }

  // The list when the sweep has looked at the first k streams.
  function Reaping(start: seq<Stream>, live: seq<Stream>, k: nat): (r: seq<Stream>)
    requires k <= |start|
    ensures |r| == |Within(start[..k], live)| + |start| - k
  {
    Within(start[..k], live) + start[k..]
  }

  lemma ReapBounds(start: seq<Stream>, live: seq<Stream>)
    ensures Reaping(start, live, 0) == start && |Within(start[..0], live)| == 0
    ensures Reaping(start, live, |start|) == Within(start, live)
  {
    assert start[..|start|] == start;
  }

  // One turn of the sweep, on lists.
  lemma ReapStep(start: seq<Stream>, live: seq<Stream>, k: nat)
    requires k < |start|
    ensures var done := Within(start[..k], live);
            var now := done + start[k..];
            now[|done|] == start[k] &&
            Within(start[..k + 1], live) == (if start[k] in live then done + [start[k]] else done) &&
            (if start[k] in live then Within(start[..k + 1], live) + start[k + 1..] == now
             else done + start[k + 1..] == now[..|done|] + now[|done| + 1..])
    ensures Within(start[..k], live) + start[k..] != []
  {
    assert start[..k + 1][..k] == start[..k];
  }

  predicate Prepared(s: Stream)
    reads s
  {
    s.maxBuffers == MAX_BUFFER_COUNT && s.usage == UsageFor(s.streamType)
  }
}
