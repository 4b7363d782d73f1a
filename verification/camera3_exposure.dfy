// The fake auto-exposure loop of camera 3 (process3A and doFakeAE in
// android/camera/EmulatedFakeCamera3.cpp): one call for each capture request. Times are in
// nanoseconds; the track rate 0.1f is taken as exactly one tenth.
module Camera3Exposure {

  const MSEC: int := 1_000_000
  const NORMAL: int := 10 * MSEC
  const FACE_PRIORITY: int := 30 * MSEC
  const PRECAPTURE_MIN_FRAMES: int := 10
  const STABLE_MAX_FRAMES: int := 100

  const SHORTEST: int := 2_500_000
  const LONGEST: int := 60 * MSEC

  datatype AeState = Inactive | Searching | Converged | Locked | FlashRequired | Precapture

  // The part of the camera the loop keeps.
  datatype Exposure = Exposure(state: AeState, counter: int, target: int, current: int, face: bool)

  const Initial: Exposure := Exposure(Inactive, 0, NORMAL, NORMAL, false)

  datatype SceneMode = NoScene | FacePriority | OtherScene
  datatype ControlMode = NoControl | ControlOff | UseScene(scene: SceneMode) | ControlAuto
  datatype AeMode = NoAeMode | AeOff | AeOn

  // 2 to the power of a random number in [kExposureWanderMin, kExposureWanderMax]
  type Wander = r: real | 0.25 <= r <= 2.0 witness 1.0

  // What the settings of a request say, and the random factor the loop draws.
  datatype Settings = Settings(control: ControlMode, ae: AeMode, locked: bool, trigger: bool, wander: Wander)

  datatype Result = Ok | BadValue | InvalidOperation

  function BaseTime(face: bool): int {
    if face then FACE_PRIORITY else NORMAL
  }

  // A tenth of the way to the target, cut off to whole nanoseconds.
  function Track(current: int, target: int): int {
    (9 * current + target) / 10
  }

  function Abs(x: int): int {
    if x < 0 then -x else x
  }

  function Wandered(face: bool, wander: Wander): int {
    (BaseTime(face) as real * wander).Floor
  }

  function PrecaptureFrame(x: Exposure, locked: bool): Exposure {
    var counter := if x.state == Precapture then x.counter else 0;
    var target := BaseTime(x.face);
    if counter > PRECAPTURE_MIN_FRAMES && target - x.current < target / 10 then
      x.(state := if locked then Locked else Converged, counter := 0, target := target)
    else
      x.(state := Precapture, counter := counter + 1, target := target, current := Track(x.current, target))
  }

  function ScanFrame(x: Exposure, wander: Wander): (Exposure, Result) {
    match x.state
    case Converged | Inactive =>
      if x.counter + 1 > STABLE_MAX_FRAMES then
        (x.(state := Searching, counter := x.counter + 1, target := Wandered(x.face, wander)), Ok)
      else (x.(counter := x.counter + 1), Ok)
    case Searching =>
      var current := Track(x.current, x.target);
      if Abs(x.target - current) < x.target / 10 then (x.(state := Converged, counter := 0, current := current), Ok)
      else (x.(current := current), Ok)
    case Locked => (x.(state := Converged, counter := 0), Ok)
    case _ => (x, InvalidOperation)
  }

  function FakeAE(x: Exposure, s: Settings, compatible: bool): (Exposure, Result) {
    if s.ae == NoAeMode && compatible then (x, BadValue)
    else if s.ae == AeOff then (x.(state := Inactive), Ok)
    else if s.trigger || x.state == Precapture then (PrecaptureFrame(x, s.locked), Ok)
    else if !s.locked then ScanFrame(x, s.wander)
    else (x.(state := Locked), Ok)
  }

  // process3A up to the return of doFakeAE.
  function Next(x: Exposure, s: Settings, compatible: bool): (Exposure, Result) {
    match s.control
    case NoControl => (x, BadValue)
    case ControlOff => (x.(state := Inactive), Ok)
    case UseScene(scene) =>
      if !compatible || scene != FacePriority then (x, BadValue) else FakeAE(x.(face := true), s, compatible)
    case ControlAuto => FakeAE(x.(face := false), s, compatible)
  }

  function Run(x: Exposure, frames: seq<Settings>, compatible: bool): Exposure
    decreases |frames|
  {
    if frames == [] then x else Run(Next(x, frames[0], compatible).0, frames[1..], compatible)
  }

  // ------------------------------------------------------ bounds, every run

  predicate Inv(x: Exposure) {
    && SHORTEST <= x.current <= LONGEST && SHORTEST <= x.target <= LONGEST
    && x.state != FlashRequired && 0 <= x.counter
    && (x.state == Precapture ==> x.counter >= 1)
  }

  // One step of tracking stays between where it was and the target.
  lemma TrackNoOvershoot(c: int, t: int)
    ensures c <= t ==> c <= Track(c, t) <= t && t - Track(c, t) == (t - c) - (t - c) / 10
    ensures t <= c ==> t <= Track(c, t) <= c && Track(c, t) - t == (c - t) - (c - t + 9) / 10
  {
  }

  lemma WanderedWithin(face: bool, wander: Wander)
    ensures SHORTEST <= BaseTime(face) / 4 <= Wandered(face, wander) <= 2 * BaseTime(face) <= LONGEST
  {
  }

  lemma StepInv(x: Exposure, s: Settings, compatible: bool)
    requires Inv(x)
    ensures Inv(Next(x, s, compatible).0)
    ensures Next(x, s, compatible).1 != InvalidOperation
  {
    if s.control.UseScene? {
      FakeAEInv(x.(face := true), s, compatible);
    } else {
      FakeAEInv(x.(face := false), s, compatible);
    }
  }

  lemma PrecaptureInv(x: Exposure, locked: bool)
    requires Inv(x)
    ensures Inv(PrecaptureFrame(x, locked))
  {
    TrackNoOvershoot(x.current, BaseTime(x.face));
  }

  lemma ScanInv(x: Exposure, wander: Wander)
    requires Inv(x) && x.state != Precapture
    ensures Inv(ScanFrame(x, wander).0) && ScanFrame(x, wander).1 == Ok
  {
    TrackNoOvershoot(x.current, x.target);
    WanderedWithin(x.face, wander);
  }

  lemma FakeAEInv(x: Exposure, s: Settings, compatible: bool)
    requires Inv(x)
    ensures Inv(FakeAE(x, s, compatible).0) && FakeAE(x, s, compatible).1 != InvalidOperation
  {
    PrecaptureInv(x, s.locked);
    if x.state != Precapture {
      ScanInv(x, s.wander);
    }
  }

  lemma {:induction false} RunInv(x: Exposure, frames: seq<Settings>, compatible: bool)
    requires Inv(x)
    ensures Inv(Run(x, frames, compatible))
    decreases |frames|
  {
    if frames != [] {
      StepInv(x, frames[0], compatible);
      RunInv(Next(x, frames[0], compatible).0, frames[1..], compatible);
    }
  }

  // From the moment the camera is connected the exposure time stays within 2.5 and 60 ms,
  // and the loop never finds itself in a state it does not know.
  lemma AlwaysWithinBounds(frames: seq<Settings>, s: Settings, compatible: bool)
    ensures var x := Run(Initial, frames, compatible);
            && SHORTEST <= x.current <= LONGEST && SHORTEST <= x.target <= LONGEST
            && Next(x, s, compatible).1 != InvalidOperation
  {
    RunInv(Initial, frames, compatible);
    StepInv(Run(Initial, frames, compatible), s, compatible);
  }

  // ------------------------------------------------------- searching ends

  // The frames it takes for a distance to come below the bound, a tenth less each time.
  function Steps(d: int, bound: int): (n: nat)
    requires bound >= 10
    decreases if d < bound then 0 else d
  {
    if d < bound then 0 else 1 + Steps(d - d / 10, bound)
  }

  lemma {:induction false} StepsMonotone(d: int, e: int, bound: int)
    requires bound >= 10 && d <= e
    ensures Steps(d, bound) <= Steps(e, bound)
    decreases if e < bound then 0 else e
  {
    if d >= bound {
      StepsMonotone(d - d / 10, e - e / 10, bound);
    }
  }

  const SEARCH_FRAMES: nat := 56

  // A tenth less, seven times over, is less than half.
  lemma SevenSteps(d: int, bound: int)
    requires bound >= 1000
    ensures Steps(d, bound) <= 7 + Steps(d / 2, bound)
  {
    if d >= bound {
      var d1 := d - d / 10;
      var d2 := d1 - d1 / 10;
      var d3 := d2 - d2 / 10;
      var d4 := d3 - d3 / 10;
      var d5 := d4 - d4 / 10;
      var d6 := d5 - d5 / 10;
      var d7 := d6 - d6 / 10;
      assert Steps(d, bound) == 1 + Steps(d1, bound);
      assert Steps(d1, bound) <= 1 + Steps(d2, bound);
      assert Steps(d2, bound) <= 1 + Steps(d3, bound);
      assert Steps(d3, bound) <= 1 + Steps(d4, bound);
      assert Steps(d4, bound) <= 1 + Steps(d5, bound);
      assert Steps(d5, bound) <= 1 + Steps(d6, bound);
      assert Steps(d6, bound) <= 1 + Steps(d7, bound);
      StepsMonotone(d7, d / 2, bound);
    }
  }

  lemma {:induction false} Halvings(d: int, bound: int, k: nat)
    requires bound >= 1000
    ensures Steps(d, bound) <= 7 * k + Steps(Halved(d, k), bound)
    decreases k
  {
    if k > 0 {
      SevenSteps(d, bound);
      Halvings(d / 2, bound, k - 1);
    }
  }

  function Halved(d: int, k: nat): int
    decreases k
  {
    if k == 0 then d else Halved(d / 2, k - 1)
  }

  // What is left of a search.
  function SearchLeft(x: Exposure): nat {
    if x.state == Searching then Steps(Abs(x.target - x.current), SHORTEST / 10) else 0
  }

  lemma LongestSearch(d: int, bound: int)
    requires d <= 57_500_000 && bound == 250_000
    ensures Steps(d, bound) <= SEARCH_FRAMES
  {
    Halvings(d, bound, 8);
    HalvedTwice(d, 6);
    HalvedTwice(d, 4);
    HalvedTwice(d, 2);
    HalvedTwice(d, 0);
  }

  lemma {:induction false} HalvedTwice(d: int, k: nat)
    ensures Halved(d, k + 2) == Halved(d, k) / 2 / 2
    decreases k
  {
    if k > 0 {
      HalvedTwice(d / 2, k - 1);
    }
  }

  lemma SearchLeftBound(x: Exposure)
    requires Inv(x)
    ensures SearchLeft(x) <= SEARCH_FRAMES
  {
    LongestSearch(Abs(x.target - x.current), SHORTEST / 10);
  }

  lemma TrackNearer(c: int, t: int)
    requires Abs(t - c) >= 250_000
    ensures Steps(Abs(t - Track(c, t)), 250_000) < Steps(Abs(t - c), 250_000)
  {
    TrackNoOvershoot(c, t);
    var d := Abs(t - c);
    StepsMonotone(Abs(t - Track(c, t)), d - d / 10, 250_000);
  }

  lemma SearchFrame(x: Exposure, s: Settings, compatible: bool)
    requires x.state == Searching && Next(x, s, compatible).1 == Ok && Next(x, s, compatible).0.state == Searching
    ensures var y := Next(x, s, compatible).0;
            y.target == x.target && y.current == Track(x.current, x.target) &&
            Abs(x.target - y.current) >= x.target / 10
  {
  }

  lemma SearchGoesOn(x: Exposure, s: Settings, compatible: bool)
    requires Inv(x) && x.state == Searching && Next(x, s, compatible).1 == Ok
    ensures var y := Next(x, s, compatible).0; y.state == Searching ==> SearchLeft(y) < SearchLeft(x)
  {
    if Next(x, s, compatible).0.state == Searching {
      SearchFrame(x, s, compatible);
      TrackNoOvershoot(x.current, x.target);
      TrackNearer(x.current, x.target);
    }
  }

  // Every frame is accepted, and the loop is in the given state before and after each.
  predicate StaysIn(state: AeState, x: Exposure, frames: seq<Settings>, compatible: bool)
    decreases |frames|
  {
    x.state == state &&
    (frames == [] ||
      (Next(x, frames[0], compatible).1 == Ok &&
       StaysIn(state, Next(x, frames[0], compatible).0, frames[1..], compatible)))
  }

  lemma {:induction false} SearchLength(x: Exposure, frames: seq<Settings>, compatible: bool)
    requires Inv(x) && StaysIn(Searching, x, frames, compatible)
    ensures |frames| <= SearchLeft(x)
    decreases |frames|
  {
    if frames != [] {
      StepInv(x, frames[0], compatible);
      SearchGoesOn(x, frames[0], compatible);
      SearchLength(Next(x, frames[0], compatible).0, frames[1..], compatible);
    }
  }

  // Whatever the requests ask for, a search is over after 56 frames.
  lemma SearchEnds(x: Exposure, frames: seq<Settings>, compatible: bool)
    requires Inv(x) && StaysIn(Searching, x, frames, compatible)
    ensures |frames| <= SEARCH_FRAMES
  {
    SearchLength(x, frames, compatible);
    SearchLeftBound(x);
  }

  // --------------------------------------------------------- precapture ends

  const PRECAPTURE_FRAMES: nat := 257

  // What is left of a precapture, if the face priority may change with every frame: past
  // the first frames each further one makes the exposure at least a tenth of a
  // millisecond longer.
  function PrecaptureLeft(x: Exposure): int {
    (if x.counter <= PRECAPTURE_MIN_FRAMES then PRECAPTURE_MIN_FRAMES + 246 - x.counter
     else if x.current > 27 * MSEC then 0 else (27 * MSEC - x.current) / 100_000 + 1)
  }

  lemma PrecaptureGoesOn(x: Exposure, s: Settings, compatible: bool)
    requires Inv(x) && x.state == Precapture && Next(x, s, compatible).1 == Ok
    ensures var y := Next(x, s, compatible).0;
            y.state == Precapture ==> y.counter == x.counter + 1 && 0 <= PrecaptureLeft(y) < PrecaptureLeft(x)
  {
    TrackNoOvershoot(x.current, NORMAL);
    TrackNoOvershoot(x.current, FACE_PRIORITY);
  }

  lemma {:induction false} PrecaptureLength(x: Exposure, frames: seq<Settings>, compatible: bool)
    requires Inv(x) && StaysIn(Precapture, x, frames, compatible) && 0 <= PrecaptureLeft(x)
    ensures |frames| <= PrecaptureLeft(x)
    decreases |frames|
  {
    if frames != [] {
      StepInv(x, frames[0], compatible);
      PrecaptureGoesOn(x, frames[0], compatible);
      PrecaptureLength(Next(x, frames[0], compatible).0, frames[1..], compatible);
    }
  }

  // A precapture is over after a bounded number of frames, whatever they ask for.
  lemma PrecaptureEnds(x: Exposure, frames: seq<Settings>, compatible: bool)
    requires Inv(x) && StaysIn(Precapture, x, frames, compatible)
    ensures |frames| <= PRECAPTURE_FRAMES
  {
    PrecaptureLength(x, frames, compatible);
  }

  // With a fixed face priority it is over after 23.
  const FIXED_FRAMES: nat := 23

  predicate FaceFixed(face: bool, frames: seq<Settings>) {
    forall i :: 0 <= i < |frames| ==> (frames[i].control.UseScene? <==> face)
  }

  // The distance from below to the target the precapture goes for.
  function FixedLeft(x: Exposure, face: bool): nat {
    var converging := Steps(BaseTime(face) - x.current, BaseTime(face) / 10);
    var minimum := PRECAPTURE_MIN_FRAMES + 1 - x.counter;
    if converging > minimum then converging else if minimum > 0 then minimum else 0
  }

  lemma FaceConverges(d: int, bound: int)
    requires d <= 27_500_000 && bound == 3_000_000
    ensures Steps(d, bound) <= FIXED_FRAMES
  {
    StepsMonotone(d, 27_500_000, bound);
    Halvings(27_500_000, bound, 3);
    assert Halved(27_500_000, 3) == 3_437_500;
    assert Steps(3_437_500, 3_000_000) == 2;
  }

  lemma NormalConverges(d: int, bound: int)
    requires d <= 7_500_000 && bound == 1_000_000
    ensures Steps(d, bound) <= FIXED_FRAMES
  {
    StepsMonotone(d, 7_500_000, bound);
    Halvings(7_500_000, bound, 3);
    assert Halved(7_500_000, 3) == 937_500;
  }

  lemma FixedLeftBound(x: Exposure, face: bool)
    requires Inv(x) && x.state == Precapture
    ensures FixedLeft(x, face) <= FIXED_FRAMES
  {
    var d := BaseTime(face) - x.current;
    if face {
      FaceConverges(d, BaseTime(face) / 10);
    } else {
      NormalConverges(d, BaseTime(face) / 10);
    }
  }

  lemma FixedGoesOn(x: Exposure, s: Settings, compatible: bool)
    requires Inv(x) && x.state == Precapture && Next(x, s, compatible).1 == Ok
    ensures var y := Next(x, s, compatible).0;
            y.state == Precapture ==> FixedLeft(y, s.control.UseScene?) < FixedLeft(x, s.control.UseScene?)
  {
    var t, c := BaseTime(s.control.UseScene?), x.current;
    TrackNoOvershoot(c, t);
    if c < t {
      StepsMonotone(t - Track(c, t), t - c - (t - c) / 10, t / 10);
    }
  }

  lemma {:induction false} FixedLength(x: Exposure, face: bool, frames: seq<Settings>, compatible: bool)
    requires Inv(x) && StaysIn(Precapture, x, frames, compatible) && FaceFixed(face, frames)
    ensures |frames| <= FixedLeft(x, face)
    decreases |frames|
  {
    if frames != [] {
      StepInv(x, frames[0], compatible);
      FixedGoesOn(x, frames[0], compatible);
      assert frames[0].control.UseScene? <==> face;
      FixedLength(Next(x, frames[0], compatible).0, face, frames[1..], compatible);
    }
  }

  lemma FixedPrecaptureEnds(x: Exposure, face: bool, frames: seq<Settings>, compatible: bool)
    requires Inv(x) && StaysIn(Precapture, x, frames, compatible) && FaceFixed(face, frames)
    ensures |frames| <= FIXED_FRAMES
  {
    FixedLength(x, face, frames, compatible);
    FixedLeftBound(x, face);
  }

  // ---------------------------------------------- precapture lasts, lock holds

  // The loop runs for this frame.
  predicate Active(s: Settings, compatible: bool) {
    && (s.control.ControlAuto? || (s.control == UseScene(FacePriority) && compatible))
    && s.ae != AeOff && (s.ae == NoAeMode ==> !compatible)
  }

  lemma {:induction false} PrecaptureStays(x: Exposure, frames: seq<Settings>, compatible: bool)
    requires x.state == Precapture && 1 <= x.counter && x.counter + |frames| <= PRECAPTURE_MIN_FRAMES + 1
    requires forall i :: 0 <= i < |frames| ==> Active(frames[i], compatible)
    ensures Run(x, frames, compatible).state == Precapture
    ensures Run(x, frames, compatible).counter == x.counter + |frames|
    decreases |frames|
  {
    if frames != [] {
      assert Active(frames[0], compatible);
      PrecaptureStays(Next(x, frames[0], compatible).0, frames[1..], compatible);
    }
  }

  // Once triggered, a precapture lasts for at least eleven frames, unless the loop is
  // switched off.
  lemma PrecaptureLasts(x: Exposure, frames: seq<Settings>, compatible: bool)
    requires x.state != Precapture && 1 <= |frames| <= PRECAPTURE_MIN_FRAMES + 1 && frames[0].trigger
    requires forall i :: 0 <= i < |frames| ==> Active(frames[i], compatible)
    ensures Run(x, frames, compatible).state == Precapture
    ensures Run(x, frames, compatible).counter == |frames|
  {
    assert Active(frames[0], compatible);
    PrecaptureStays(Next(x, frames[0], compatible).0, frames[1..], compatible);
  }

  // While the lock is on and no precapture runs, the exposure is frozen.
  lemma {:induction false} LockFreezes(x: Exposure, frames: seq<Settings>, compatible: bool)
    requires x.state != Precapture
    requires forall i :: 0 <= i < |frames| ==> Active(frames[i], compatible) && frames[i].locked && !frames[i].trigger
    ensures var y := Run(x, frames, compatible);
            y.current == x.current && y.target == x.target && (frames != [] ==> y.state == Locked)
    decreases |frames|
  {
    if frames != [] {
      assert Active(frames[0], compatible);
      LockFreezes(Next(x, frames[0], compatible).0, frames[1..], compatible);
    }
  }

  // How far the exposure is above a target.
  function Above(c: int, t: int): nat {
    if c > t then c - t else 0
  }

  // A precapture that is triggered and ends: in that state after every frame but the last.
  predicate Ends(x: Exposure, frames: seq<Settings>, compatible: bool)
    decreases |frames|
  {
    frames != [] &&
    var y := Next(x, frames[0], compatible).0;
    if |frames| == 1 then y.state != Precapture else y.state == Precapture && Ends(y, frames[1..], compatible)
  }

  // What is left of a distance above the target after n frames, a tenth less each time.
  function Reduced(d: nat, n: nat): nat {
    if n == 0 then d else Reduced(d - (d + 9) / 10, n - 1)
  }

  lemma {:induction false} ReducedMonotone(d: nat, e: nat, n: nat)
    requires d <= e
    ensures Reduced(d, n) <= Reduced(e, n)
    decreases n
  {
    if n > 0 {
      ReducedMonotone(d - (d + 9) / 10, e - (e + 9) / 10, n - 1);
    }
  }

  lemma {:induction false} ReducedMore(d: nat, m: nat, n: nat)
    requires m <= n
    ensures Reduced(d, n) <= Reduced(d, m)
    decreases n
  {
    if m > 0 {
      ReducedMore(d - (d + 9) / 10, m - 1, n - 1);
    } else if n > 0 {
      ReducedMore(d - (d + 9) / 10, 0, n - 1);
    }
  }

  // Eleven frames leave less than a third.
  lemma ElevenFrames(d: nat)
    ensures 3 * Reduced(d, 11) <= d
  {
    FiveFrames(d);
    var e := Reduced(d, 5);
    FiveFrames(e);
    ReducedTwice(d, 5, 5);
    ReducedTwice(d, 10, 1);
    assert Reduced(Reduced(d, 10), 1) == Reduced(d, 10) - (Reduced(d, 10) + 9) / 10;
  }

  // Five frames leave at most 0.9 to the fifth.
  lemma FiveFrames(d: nat)
    ensures 100_000 * Reduced(d, 5) <= 59_049 * d
  {
    var d1 := d - (d + 9) / 10;
    var d2 := d1 - (d1 + 9) / 10;
    var d3 := d2 - (d2 + 9) / 10;
    var d4 := d3 - (d3 + 9) / 10;
    var d5 := d4 - (d4 + 9) / 10;
    assert Reduced(d, 5) == Reduced(d1, 4) == Reduced(d2, 3) == Reduced(d3, 2) == Reduced(d4, 1) == Reduced(d5, 0);
  }

  lemma {:induction false} ReducedTwice(d: nat, m: nat, n: nat)
    ensures Reduced(d, m + n) == Reduced(Reduced(d, m), n)
    decreases m
  {
    if m > 0 {
      ReducedTwice(d - (d + 9) / 10, m - 1, n);
    }
  }

  // A frame of a precapture with this face priority, on the way to its target.
  lemma PrecaptureApproaches(x: Exposure, s: Settings, compatible: bool)
    requires Active(s, compatible) && (s.trigger || x.state == Precapture)
    requires Next(x, s, compatible).0.state == Precapture
    ensures var y, t := Next(x, s, compatible).0, BaseTime(s.control.UseScene?);
            && y.counter == (if x.state == Precapture then x.counter else 0) + 1
            && Above(y.current, t) == Reduced(Above(x.current, t), 1)
  {
    var t := BaseTime(s.control.UseScene?);
    TrackNoOvershoot(x.current, t);
    assert Reduced(Above(x.current, t), 1) == Reduced(Above(x.current, t) - (Above(x.current, t) + 9) / 10, 0);
  }

  lemma PrecaptureStops(x: Exposure, s: Settings, compatible: bool)
    requires Active(s, compatible) && x.state == Precapture && Next(x, s, compatible).0.state != Precapture
    ensures var y, t := Next(x, s, compatible).0, BaseTime(s.control.UseScene?);
            && x.counter > PRECAPTURE_MIN_FRAMES && y.current == x.current && y.target == t && t - y.current < t / 10
            && y.state == if s.locked then Locked else Converged
  {
  }

  lemma {:induction false} PrecaptureOutcome(x: Exposure, face: bool, frames: seq<Settings>, compatible: bool)
    requires x.state == Precapture && FaceFixed(face, frames) && Ends(x, frames, compatible)
    requires forall i :: 0 <= i < |frames| ==> Active(frames[i], compatible)
    ensures var y, t := Run(x, frames, compatible), BaseTime(face);
            && x.counter + |frames| - 1 > PRECAPTURE_MIN_FRAMES && y.target == t && t - y.current < t / 10
            && Above(y.current, t) == Reduced(Above(x.current, t), |frames| - 1)
            && y.state == if frames[|frames| - 1].locked then Locked else Converged
    decreases |frames|
  {
    assert Active(frames[0], compatible) && (frames[0].control.UseScene? <==> face);
    var y := Next(x, frames[0], compatible).0;
    if |frames| == 1 {
      PrecaptureStops(x, frames[0], compatible);
      assert |frames[1..]| == 0;
    } else {
      PrecaptureApproaches(x, frames[0], compatible);
      PrecaptureOutcome(y, face, frames[1..], compatible);
      ReducedTwice(Above(x.current, BaseTime(face)), 1, |frames| - 2);
      assert frames[1..][|frames[1..]| - 1] == frames[|frames| - 1];
    }
  }

  // The result of a whole precapture with a fixed face priority: it takes at least twelve
  // frames, and the exposure it ends with is less than a tenth below the target; if it was
  // above the target, at most a third of that distance is left.
  lemma PrecaptureResult(x: Exposure, face: bool, frames: seq<Settings>, compatible: bool)
    requires x.state != Precapture && FaceFixed(face, frames) && Ends(x, frames, compatible) && frames[0].trigger
    requires forall i :: 0 <= i < |frames| ==> Active(frames[i], compatible)
    ensures var y, t := Run(x, frames, compatible), BaseTime(face);
            && |frames| >= PRECAPTURE_MIN_FRAMES + 2 && y.target == t
            && y.state == (if frames[|frames| - 1].locked then Locked else Converged)
            && t - y.current < t / 10 && 3 * Above(y.current, t) <= Above(x.current, t)
  {
    var t, d := BaseTime(face), Above(x.current, BaseTime(face));
    assert Active(frames[0], compatible) && (frames[0].control.UseScene? <==> face);
    var x1 := Next(x, frames[0], compatible).0;
    PrecaptureApproaches(x, frames[0], compatible);
    PrecaptureOutcome(x1, face, frames[1..], compatible);
    var n := |frames| - 2;
    ReducedTwice(d, 1, n);
    ReducedMore(d, 11, 1 + n);
    ElevenFrames(d);
    assert frames[1..][|frames[1..]| - 1] == frames[|frames| - 1];
  }

  // ---------------------------------------------------------------- the object

  class AutoExposure {
    var aeState: AeState
    var aeCounter: int
    var aeTargetExposureTime: int
    var aeCurrentExposureTime: int
    var facePriority: bool
    const compatible: bool

    constructor (compatible: bool)
      ensures Value() == Initial && this.compatible == compatible
    {
      this.compatible := compatible;
      aeState, aeCounter := Inactive, 0;
      aeTargetExposureTime, aeCurrentExposureTime := NORMAL, NORMAL;
      facePriority := false;
    }

    function Value(): Exposure
      reads this
    {
      Exposure(aeState, aeCounter, aeTargetExposureTime, aeCurrentExposureTime, facePriority)
    }

    method Process3A(s: Settings) returns (r: Result)
      requires Inv(Value())
      modifies this
      ensures (Value(), r) == Next(old(Value()), s, compatible)
      ensures Inv(Value()) && r != InvalidOperation
    {
      StepInv(Value(), s, compatible);
      match s.control {
        case NoControl => return BadValue;
        case ControlOff =>
          aeState := Inactive;
          return Ok;
        case UseScene(scene) =>
          if !compatible {
            return BadValue;
          }
          if scene != FacePriority {
            return BadValue;
          }
          facePriority := true;
        case ControlAuto => facePriority := false;
      }
      r := DoFakeAE(s);
    }

    method DoFakeAE(s: Settings) returns (r: Result)
      modifies this`aeState, this`aeCounter, this`aeTargetExposureTime, this`aeCurrentExposureTime
      ensures Value() == FakeAE(old(Value()), s, compatible).0
      ensures r == FakeAE(old(Value()), s, compatible).1
    {
      if s.ae == NoAeMode && compatible {
        return BadValue;
      }
      if s.ae == AeOff {
        aeState := Inactive;
        return Ok;
      }
      r := Ok;
      if s.trigger || aeState == Precapture {
        if aeState != Precapture {
          aeCounter := 0;
        }
        aeTargetExposureTime := if facePriority then FACE_PRIORITY else NORMAL;
        if aeCounter > PRECAPTURE_MIN_FRAMES &&
           aeTargetExposureTime - aeCurrentExposureTime < aeTargetExposureTime / 10 {
          aeCounter := 0;
          aeState := if s.locked then Locked else Converged;
        } else {
          aeCurrentExposureTime := Track(aeCurrentExposureTime, aeTargetExposureTime);
          aeCounter := aeCounter + 1;
          aeState := Precapture;
        }
      } else if !s.locked {
        match aeState {
          case Converged | Inactive =>
            aeCounter := aeCounter + 1;
            if aeCounter > STABLE_MAX_FRAMES {
              aeTargetExposureTime := if facePriority then FACE_PRIORITY else NORMAL;
              aeTargetExposureTime := (aeTargetExposureTime as real * s.wander).Floor;
              aeState := Searching;
            }
          case Searching =>
            aeCurrentExposureTime := Track(aeCurrentExposureTime, aeTargetExposureTime);
            if Abs(aeTargetExposureTime - aeCurrentExposureTime) < aeTargetExposureTime / 10 {
              aeState := Converged;
              aeCounter := 0;
            }
          case Locked =>
            aeState := Converged;
            aeCounter := 0;
          case _ => return InvalidOperation;
        }
      } else {
        aeState := Locked;
      }
    }
  }
}
