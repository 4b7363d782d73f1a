// The cyclic channel allocator of qemud (android/qemud/qemud.c): a client gets the
// first channel value after the last one handed out that no client holds.
module Channels {
  const CHANNELS: nat := 256

  // The channel values a list of clients holds; -1 stands for none.
  function Held(channels: seq<int>): set<int> {
    set i | 0 <= i < |channels| && 0 <= channels[i] < CHANNELS :: channels[i]
  }

  // Some channel value is still to be had.
  predicate SomeFree(channels: seq<int>) {
    exists c :: 0 <= c < CHANNELS && c !in channels
  }

  // All the values 0 .. n - 1.
  function Below(n: nat): (s: set<int>)
    ensures |s| == n && forall c :: c in s <==> 0 <= c < n
  {
    if n == 0 then {} else Below(n - 1) + {n - 1}
  }

  lemma SubsetSize<T>(a: set<T>, b: set<T>)
    requires a <= b
    ensures |a| <= |b|
    ensures |a| == |b| ==> a == b
  {
    assert b == a + (b - a);
  }

  // Pigeonhole: there is a free value exactly when fewer than 256 are held.
  lemma SomeFreeIffFewHeld(channels: seq<int>)
    ensures SomeFree(channels) <==> |Held(channels)| < CHANNELS
  {
    var all := Below(CHANNELS);
    SubsetSize(Held(channels), all);
    if SomeFree(channels) {
      var c :| 0 <= c < CHANNELS && c !in channels;
      assert c in all && c !in Held(channels);
    } else {
      forall c | c in all
        ensures c in Held(channels)
      {
        assert c in channels;
      }
      assert Held(channels) == all;
    }
  }

  // The counter value at which the search of the allocator stops.
  predicate IsNext(channels: seq<int>, last: int, next: int) {
    && last < next
    && next % CHANNELS !in channels
    && forall v :: last < v < next ==> v % CHANNELS in channels
  }

  // Among 256 consecutive counter values every channel comes up.
  lemma Wraps(last: int, c: int) returns (v: int)
    requires 0 <= c < CHANNELS
    ensures last < v <= last + CHANNELS && v % CHANNELS == c
  {
    v := last + 1 + (c - (last + 1)) % CHANNELS;
  }

  // Counting up from `from`, the first value whose channel is free.
  function SearchFrom(channels: seq<int>, last: int, from: int): (next: int)
    requires SomeFree(channels) && last < from
    requires forall v :: last < v < from ==> v % CHANNELS in channels
    ensures IsNext(channels, last, next) && next <= last + CHANNELS
    decreases last + CHANNELS + 1 - from
  {
    StillSearching(channels, last, from);
    if from % CHANNELS in channels then SearchFrom(channels, last, from + 1) else from
  }

  lemma StillSearching(channels: seq<int>, last: int, from: int)
    requires SomeFree(channels) && last < from
    requires forall v :: last < v < from ==> v % CHANNELS in channels
    ensures from <= last + CHANNELS
  {
    var c :| 0 <= c < CHANNELS && c !in channels;
    var v := Wraps(last, c);
  }

  function Next(channels: seq<int>, last: int): (next: int)
    requires SomeFree(channels)
    ensures IsNext(channels, last, next) && next <= last + CHANNELS
  {
    SearchFrom(channels, last, last + 1)
  }

  lemma NextIsUnique(channels: seq<int>, last: int, a: int, b: int)
    requires IsNext(channels, last, a) && IsNext(channels, last, b)
    ensures a == b
  {
  }

  // The search has an end exactly when fewer than 256 values are held.
  lemma SearchEndsIffFewHeld(channels: seq<int>, last: int)
    ensures (exists next :: IsNext(channels, last, next)) <==> |Held(channels)| < CHANNELS
  {
    SomeFreeIffFewHeld(channels);
    if SomeFree(channels) {
      assert IsNext(channels, last, Next(channels, last));
    }
    if next :| IsNext(channels, last, next) {
      assert 0 <= next % CHANNELS < CHANNELS;
    }
  }

  lemma CountUp(last: int, d: int)
    requires 0 <= d < CHANNELS - last % CHANNELS
    ensures (last + d) % CHANNELS == last % CHANNELS + d
  {
  }

  lemma RoundUp(last: int)
    ensures (last + CHANNELS - last % CHANNELS) % CHANNELS == 0
  {
  }

  lemma BeforeZero(last: int, d: int, next: int)
    requires 0 <= d < CHANNELS - last % CHANNELS && last < next && next % CHANNELS == 0
    ensures last + d < next
  {
  }

  // Exactly when the search ends with channel 0: nobody holds it, and everybody above the
  // last one handed out is held.
  lemma NextIsZeroIff(channels: seq<int>, last: int)
    requires SomeFree(channels)
    ensures Next(channels, last) % CHANNELS == 0 <==>
              0 !in channels && forall c :: last % CHANNELS < c < CHANNELS ==> c in channels
  {
    var next := Next(channels, last);
    if 0 !in channels && forall c :: last % CHANNELS < c < CHANNELS ==> c in channels {
      var zero := last + CHANNELS - last % CHANNELS;
      forall v | last < v < zero
        ensures v % CHANNELS in channels
      {
        CountUp(last, v - last);
      }
      RoundUp(last);
      NextIsUnique(channels, last, next, zero);
    }
    if next % CHANNELS == 0 {
      forall c | last % CHANNELS < c < CHANNELS
        ensures c in channels
      {
        var d := c - last % CHANNELS;
        CountUp(last, d);
        BeforeZero(last, d, next);
        assert (last + d) % CHANNELS in channels;
      }
    }
  }
}
