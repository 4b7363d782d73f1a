// The 3A control thread of the camera 2 pipeline (ControlThread in
// android/camera/EmulatedFakeCamera2.cpp). The thread takes a snapshot of the shared
// fields under a lock, works on it unlocked and commits its results under the lock
// again, while requests and triggers change the shared fields at any moment. Each
// critical section is one atomic step here. Times are in nanoseconds.
module Camera2Focus {

  const MSEC: int := 1_000_000
  const SEC: int := 1_000_000_000
  const CONTROL_CYCLE_DELAY: int := 100 * MSEC
  const MIN_AF_DURATION: int := 500 * MSEC
  const MAX_AF_DURATION: int := 900 * MSEC
  const AF_SUCCESS_RATE: real := 0.9
  // Called "once every 5 seconds" in the source, but the product is 2e16.
  const CONTINUOUS_AF_START_RATE: real := CONTROL_CYCLE_DELAY as real / 5.0 * SEC as real
  const MIN_AE_DURATION: int := 500 * MSEC
  const MAX_AE_DURATION: int := 2 * SEC
  const MIN_PRECAPTURE_AE_DURATION: int := 100 * MSEC
  const MAX_PRECAPTURE_AE_DURATION: int := 400 * MSEC
  const AE_SCAN_START_RATE: real := CONTROL_CYCLE_DELAY as real / 3000000000.0

  datatype AfMode = AfOff | AfAuto | AfMacro | ContinuousVideo | ContinuousPicture | Edof | AfUnknown(code: int)
  datatype AfState = AfInactive | PassiveScan | PassiveFocused | ActiveScan | FocusedLocked | NotFocusedLocked
  // AeOn stands for the four modes that meter, which are all treated alike.
  datatype AeMode = AeOff | AeOn | AeUnknown(code: int)
  datatype AeState = AeInactive | Searching | Converged | AeLocked | Precapture

  // rand() / RAND_MAX
  type Ratio = r: real | 0.0 <= r <= 1.0 witness 0.0

  lemma ScaleBound(r: real, x: real)
    requires 0.0 <= r <= 1.0 && 0.0 <= x
    ensures 0.0 <= r * x <= x
  {
    assert (1.0 - r) * x == x - r * x;
  }

  // A random duration, truncated to whole nanoseconds.
  function Duration(r: Ratio, min: int, max: int): (d: int)
    requires 0 <= min <= max
    ensures min <= d <= max
  {
    var range := (max - min) as real;
    ScaleBound(r, range);
    FloorWithin(r * range + min as real, min, max);
    (r * range + min as real).Floor
  }

  lemma FloorWithin(x: real, lo: int, hi: int)
    requires lo as real <= x <= hi as real
    ensures lo <= x.Floor <= hi
  {
  }

  // The fields under mInputMutex that focus and exposure control use, and the fields
  // only the thread uses.
  datatype Control = Control(
    startAf: bool, cancelAf: bool, startPrecapture: bool,
    afMode: AfMode, afModeChange: bool, afState: AfState,
    aeMode: AeMode, aeLock: bool, aeState: AeState,
    afScan: int, aeScan: int, lockAfterScan: bool)

  // The copies the thread works on.
  datatype Local = Local(
    afTriggered: bool, afCancelled: bool, afModeChange: bool, afState: AfState, afMode: AfMode,
    precapture: bool, aeState: AeState, aeMode: AeMode, aeLock: bool)

  // ------------------------------------------------------------------- focusing

  // What the focus helpers read and write: the state they return and the two private
  // fields.
  datatype Focus = Focus(state: AfState, scan: int, lockAfter: bool)

  // processAfTrigger, in a state its switch expects. None is the "unexpected" branch.
  function Trigger(mode: AfMode, f: Focus, r: Ratio): Focus {
    match mode
    case AfMacro | AfAuto =>
      if f.state in {AfInactive, FocusedLocked, NotFocusedLocked}
      then f.(state := ActiveScan, scan := Duration(r, MIN_AF_DURATION, MAX_AF_DURATION)) else f
    case ContinuousPicture =>
      if f.state == PassiveScan then f.(lockAfter := true)
      else if f.state == AfInactive then f.(state := NotFocusedLocked)
      else if f.state == PassiveFocused then f.(state := FocusedLocked) else f
    case ContinuousVideo =>
      if f.state in {PassiveScan, AfInactive} then f.(state := NotFocusedLocked)
      else if f.state == PassiveFocused then f.(state := FocusedLocked) else f
    case _ => f
  }

  // maybeStartAfScan
  function MaybeStart(mode: AfMode, f: Focus, start: Ratio, r: Ratio): Focus {
    if mode in {ContinuousVideo, ContinuousPicture} && f.state in {AfInactive, PassiveFocused} &&
       start < CONTINUOUS_AF_START_RATE
    then f.(state := PassiveScan, scan := Duration(r, MIN_AF_DURATION, MAX_AF_DURATION)) else f
  }

  predicate Scanning(s: AfState) {
    s == ActiveScan || s == PassiveScan
  }

  // updateAfScan
  function Update(mode: AfMode, f: Focus, success: Ratio): Focus {
    if !Scanning(f.state) || f.scan > 0 then f
    else match mode
      case AfMacro | AfAuto => f.(state := if success < AF_SUCCESS_RATE then FocusedLocked else NotFocusedLocked)
      case ContinuousPicture =>
        if f.lockAfter then f.(state := FocusedLocked, lockAfter := false) else f.(state := PassiveFocused)
      case ContinuousVideo => f.(state := PassiveFocused)
      case _ => f
  }

  // The sleep updateAfScan leaves room for.
  function UpdateSleep(f: Focus, sleep: int): int {
    if Scanning(f.state) && 0 < f.scan <= sleep then f.scan else sleep
  }

  // The branches that log an unexpected state or mode.
  predicate UnexpectedTrigger(mode: AfMode, s: AfState) {
    match mode
    case AfMacro | AfAuto => s in {PassiveScan, PassiveFocused}
    case ContinuousPicture | ContinuousVideo => s == ActiveScan
    case _ => false
  }

  predicate UnexpectedUpdate(mode: AfMode, f: Focus) {
    Scanning(f.state) && f.scan <= 0 && mode !in {AfMacro, AfAuto, ContinuousPicture, ContinuousVideo}
  }

  // Random numbers one cycle may draw.
  datatype Draws = Draws(afDuration: Ratio, afStart: Ratio, afPassive: Ratio, afSuccess: Ratio,
                         precapture: Ratio, aeStart: Ratio, aeDuration: Ratio)

  // The focus part of threadLoop after the reset: trigger, start, update.
  function Started(l: Local, c: Control, d: Draws): Focus {
    var f := Focus(l.afState, c.afScan, c.lockAfterScan);
    MaybeStart(l.afMode, if l.afTriggered then Trigger(l.afMode, f, d.afDuration) else f, d.afStart, d.afPassive)
  }

  // ------------------------------------------------------------------- exposure

  // processPrecaptureTrigger, maybeStartAeScan: the state and the scan duration.
  function AeStarted(l: Local, scan: int, d: Draws): (AeState, int) {
    var (s1, scan1) :=
      if l.precapture && l.aeMode == AeOn
      then (Precapture, Duration(d.precapture, MIN_PRECAPTURE_AE_DURATION, MAX_PRECAPTURE_AE_DURATION))
      else (l.aeState, scan);
    if !l.aeLock && l.aeMode == AeOn && s1 in {AeInactive, Converged} && d.aeStart < AE_SCAN_START_RATE
    then (Searching, Duration(d.aeDuration, MIN_AE_DURATION, MAX_AE_DURATION)) else (s1, scan1)
  }

  predicate Metering(s: AeState) {
    s == Searching || s == Precapture
  }

  // updateAeScan: the state, the scan duration and the sleep.
  function AeUpdated(lock: bool, s: AeState, scan: int, sleep: int): (AeState, int, int) {
    if lock && s != Precapture then (AeLocked, 0, sleep)
    else if Metering(s) then
      if scan <= 0 then (if lock then AeLocked else Converged, scan, sleep)
      else (s, scan, if scan <= sleep then scan else sleep)
    else (s, scan, sleep)
  }

  // ------------------------------------------------- the critical sections

  function TakeSnapshot(c: Control): (Control, Local) {
    (c.(startAf := false, cancelAf := c.startAf && c.cancelAf, afModeChange := false, startPrecapture := false),
     Local(c.startAf, !c.startAf && c.cancelAf, c.afModeChange, c.afState, c.afMode,
           c.startPrecapture, c.aeState, c.aeMode, c.aeLock))
  }

  function Reset(c: Control, l: Local): (Control, Local) {
    if l.afCancelled || l.afModeChange
    then (c.(afState := AfInactive, afScan := 0, lockAfterScan := false), l.(afState := AfInactive))
    else (c, l)
  }

  function FocusStep(c: Control, l: Local, d: Draws): (Control, int) {
    var f := Started(l, c, d);
    var g := Update(l.afMode, f, d.afSuccess);
    (c.(afState := g.state, afScan := g.scan, lockAfterScan := g.lockAfter), UpdateSleep(f, CONTROL_CYCLE_DELAY))
  }

  function ExposureStep(c: Control, l: Local, d: Draws, sleep: int): (Control, int) {
    var (s1, scan1) := AeStarted(l, c.aeScan, d);
    var (s2, scan2, sleep2) := AeUpdated(l.aeLock, s1, scan1, sleep);
    (c.(aeState := s2, aeScan := scan2), sleep2)
  }

  function Wake(c: Control, sleep: int): Control {
    c.(afScan := if c.afScan > 0 then c.afScan - sleep else c.afScan,
       aeScan := if c.aeScan > 0 then c.aeScan - sleep else c.aeScan)
  }

  // What a request says; a missing control mode reads as OFF.
  datatype Request = Request(controlOff: bool, afMode: AfMode, aeMode: AeMode, aeLock: bool)

  function ProcessRequest(c: Control, q: Request): Control {
    if q.controlOff then
      c.(afMode := AfOff, aeLock := true, aeMode := AeOff, afModeChange := true,
         startAf := false, cancelAf := true, aeState := AeInactive)
    else
      var c1 := if c.afMode != q.afMode
                then c.(afMode := q.afMode, afModeChange := true, startAf := false, cancelAf := false) else c;
      c1.(aeMode := q.aeMode, aeLock := q.aeLock,
          aeState := if c.aeLock && !q.aeLock then AeInactive else c.aeState)
  }

  datatype Message = AutoFocus | CancelAutoFocus | PrecaptureMetering | UnknownMessage

  function TriggerAction(c: Control, m: Message): Control {
    match m
    case AutoFocus => c.(startAf := true, cancelAf := false)
    case CancelAutoFocus => c.(startAf := false, cancelAf := true)
    case PrecaptureMetering => c.(startPrecapture := true)
    case UnknownMessage => c
  }

  // ---------------------------------------------------------------- interleaving

  // Where the thread is between two critical sections.
  datatype Pc = Idle | Snapped(l: Local) | Ready(l: Local) | Focused(l: Local, sleep: int) | Sleeping(sleep: int)

  datatype System = System(c: Control, pc: Pc)

  datatype Act = Submit(q: Request) | Notify(m: Message) | Thread(d: Draws)

  function Next(s: System, a: Act): System {
    match a
    case Submit(q) => s.(c := ProcessRequest(s.c, q))
    case Notify(m) => s.(c := TriggerAction(s.c, m))
    case Thread(d) =>
      match s.pc
      case Idle => var (c, l) := TakeSnapshot(s.c); System(c, Snapped(l))
      case Snapped(l) => var (c, l') := Reset(s.c, l); System(c, Ready(l'))
      case Ready(l) => var (c, sleep) := FocusStep(s.c, l, d); System(c, Focused(l, sleep))
      case Focused(l, sleep) => var (c, sleep') := ExposureStep(s.c, l, d, sleep); System(c, Sleeping(sleep'))
      case Sleeping(sleep) => System(Wake(s.c, sleep), Idle)
  }

  function Run(s: System, acts: seq<Act>): System
    decreases |acts|
  {
    if acts == [] then s else Run(Next(s, acts[0]), acts[1..])
  }

  // readyToRun; the private fields start out with whatever the memory holds.
  predicate Initial(s: System) {
    && s.pc == Idle && !s.c.startAf && !s.c.cancelAf && !s.c.startPrecapture
    && s.c.afMode == AfAuto && !s.c.afModeChange && s.c.afState == AfInactive
    && s.c.aeMode == AeOn && s.c.aeState == AeInactive
  }

  // -------------------------------------------------------------- the invariant

  // The states a mode allows.
  predicate Legal(mode: AfMode, s: AfState) {
    match mode
    case AfAuto | AfMacro => s in {AfInactive, ActiveScan, FocusedLocked, NotFocusedLocked}
    case ContinuousPicture | ContinuousVideo => s != ActiveScan
    case _ => s == AfInactive
  }

  predicate LockLegal(mode: AfMode, s: AfState, lockAfter: bool) {
    lockAfter && mode == ContinuousPicture ==> s == PassiveScan
  }

  predicate ScanLegal(s: AfState, scan: int) {
    Scanning(s) ==> 0 <= scan <= MAX_AF_DURATION
  }

  predicate Agrees(mode: AfMode, s: AfState, c: Control) {
    Legal(mode, s) && LockLegal(mode, s, c.lockAfterScan) && ScanLegal(s, c.afScan)
  }

  // Mode and state agree whenever no mode change is waiting to be noticed; inside a
  // cycle it is the snapshot that agrees, and the shared mode differs from it only with
  // a change waiting.
  predicate Inv(s: System) {
    && !(s.c.startAf && s.c.cancelAf)
    && match s.pc
       case Idle => s.c.afModeChange || Agrees(s.c.afMode, s.c.afState, s.c)
       case Snapped(l) =>
         && s.c.afState == l.afState && (s.c.afModeChange || s.c.afMode == l.afMode)
         && (l.afModeChange || Agrees(l.afMode, l.afState, s.c))
       case Ready(l) =>
         && s.c.afState == l.afState && (s.c.afModeChange || s.c.afMode == l.afMode)
         && Agrees(l.afMode, l.afState, s.c)
       case Focused(l, sleep) =>
         && (s.c.afModeChange || Agrees(s.c.afMode, s.c.afState, s.c)) && Restful(s.c, sleep)
       case Sleeping(sleep) =>
         && (s.c.afModeChange || Agrees(s.c.afMode, s.c.afState, s.c)) && Restful(s.c, sleep)
  }

  // A sleep is positive, at most a control cycle, and does not outlast a scan.
  predicate Restful(c: Control, sleep: int) {
    0 < sleep <= CONTROL_CYCLE_DELAY && (Scanning(c.afState) ==> sleep <= c.afScan)
  }

  lemma InitialInv(s: System)
    requires Initial(s)
    ensures Inv(s)
  {
  }

  lemma FocusAgrees(l: Local, c: Control, d: Draws)
    requires Agrees(l.afMode, l.afState, c)
    ensures var (c', sleep) := FocusStep(c, l, d);
            Agrees(l.afMode, c'.afState, c') && Restful(c', sleep) &&
            !(l.afTriggered && UnexpectedTrigger(l.afMode, l.afState)) &&
            !UnexpectedUpdate(l.afMode, Started(l, c, d))
  {
  }

  lemma SubmitInv(s: System, q: Request)
    requires Inv(s)
    ensures Inv(Next(s, Submit(q)))
  {
  }

  lemma NotifyInv(s: System, m: Message)
    requires Inv(s)
    ensures Inv(Next(s, Notify(m)))
  {
  }

  lemma ThreadInv(s: System, d: Draws)
    requires Inv(s)
    ensures Inv(Next(s, Thread(d)))
  {
    match s.pc
    case Ready(l) => FocusAgrees(l, s.c, d);
    case _ =>
  }

  lemma NextInv(s: System, a: Act)
    requires Inv(s)
    ensures Inv(Next(s, a))
  {
    match a
    case Submit(q) => SubmitInv(s, q);
    case Notify(m) => NotifyInv(s, m);
    case Thread(d) => ThreadInv(s, d);
  }

  // In every interleaving of the control thread with requests and triggers: at every
  // point the invariant holds, so mode and focus state agree at every idle point with no
  // mode change waiting.
  lemma {:induction false} RunInv(s: System, acts: seq<Act>)
    requires Inv(s)
    ensures Inv(Run(s, acts))
    decreases |acts|
  {
    if acts != [] {
      NextInv(s, acts[0]);
      RunInv(Next(s, acts[0]), acts[1..]);
    }
  }

  lemma ModeAndStateAgree(s: System, acts: seq<Act>)
    requires Initial(s)
    ensures var t := Run(s, acts);
            t.pc == Idle && !t.c.afModeChange ==>
              Legal(t.c.afMode, t.c.afState) &&
              (t.c.lockAfterScan && t.c.afMode == ContinuousPicture ==> t.c.afState == PassiveScan)
  {
    InitialInv(s);
    RunInv(s, acts);
  }

  // The branches for unexpected focus states are never taken, and no sleep is empty or
  // outlasts a scan.
  lemma NeverUnexpected(s: System, acts: seq<Act>, d: Draws)
    requires Initial(s) && Run(s, acts).pc.Ready?
    ensures var t := Run(s, acts);
            !(t.pc.l.afTriggered && UnexpectedTrigger(t.pc.l.afMode, t.pc.l.afState)) &&
            !UnexpectedUpdate(t.pc.l.afMode, Started(t.pc.l, t.c, d)) &&
            Restful(FocusStep(t.c, t.pc.l, d).0, FocusStep(t.c, t.pc.l, d).1)
  {
    InitialInv(s);
    RunInv(s, acts);
    FocusAgrees(Run(s, acts).pc.l, Run(s, acts).c, d);
  }

  // The start rate of passive scans exceeds every random ratio, so in a continuous mode
  // no cycle ends without a scan or a lock: the state is never left idle or focused
  // except in the cycle that finished a scan.
  lemma ContinuousAlwaysScans(l: Local, c: Control, d: Draws)
    requires l.afMode in {ContinuousPicture, ContinuousVideo} && Agrees(l.afMode, l.afState, c)
    ensures Started(l, c, d).state in {PassiveScan, FocusedLocked, NotFocusedLocked}
  {
  }

  // ------------------------------------------------------------ the thread object

  class ControlThread {
    var startAf: bool
    var cancelAf: bool
    var startPrecapture: bool
    var afMode: AfMode
    var afModeChange: bool
    var afState: AfState
    var aeMode: AeMode
    var aeLock: bool
    var aeState: AeState
    var afScan: int
    var aeScan: int
    var lockAfterScan: bool

    ghost function View(): Control
      reads this
    {
      Control(startAf, cancelAf, startPrecapture, afMode, afModeChange, afState, aeMode, aeLock, aeState,
              afScan, aeScan, lockAfterScan)
    }

    // processRequest
    method ProcessRequestLocked(q: Request)
      modifies this
      ensures View() == ProcessRequest(old(View()), q)
    {
      if q.controlOff {
        afMode, aeLock, aeMode := AfOff, true, AeOff;
        afModeChange, startAf, cancelAf := true, false, true;
        aeState := AeInactive;
        return;
      }
      if afMode != q.afMode {
        afMode, afModeChange := q.afMode, true;
        startAf, cancelAf := false, false;
      }
      aeMode := q.aeMode;
      if aeLock && !q.aeLock {
        aeState := AeInactive;
      }
      aeLock := q.aeLock;
    }

    // triggerAction
    method TriggerActionLocked(m: Message) returns (ok: bool)
      modifies this
      ensures View() == TriggerAction(old(View()), m) && ok == !m.UnknownMessage?
    {
      ok := true;
      match m
      case AutoFocus => startAf, cancelAf := true, false;
      case CancelAutoFocus => startAf, cancelAf := false, true;
      case PrecaptureMetering => startPrecapture := true;
      case UnknownMessage => ok := false;
    }

    // The first critical section of threadLoop.
    method Snapshot() returns (l: Local)
      modifies this
      ensures (View(), l) == TakeSnapshot(old(View()))
    {
      var afTriggered, afCancelled, precapture := false, false, false;
      if startAf {
        afTriggered, startAf := true, false;
      } else if cancelAf {
        afCancelled, cancelAf := true, false;
      }
      l := Local(afTriggered, afCancelled, afModeChange, afState, afMode, startPrecapture, aeState, aeMode, aeLock);
      afModeChange := false;
      startPrecapture := false;
    }

    // processAfTrigger
    method ProcessAfTrigger(mode: AfMode, state: AfState, r: Ratio) returns (state': AfState)
      modifies this`afScan, this`lockAfterScan
      ensures Focus(state', afScan, lockAfterScan) == Trigger(mode, Focus(state, old(afScan), old(lockAfterScan)), r)
    {
      state' := state;
      match mode
      case AfMacro | AfAuto =>
        if state == AfInactive || state == FocusedLocked || state == NotFocusedLocked {
          afScan := Duration(r, MIN_AF_DURATION, MAX_AF_DURATION);
          state' := ActiveScan;
        }
      case ContinuousPicture =>
        match state {
          case PassiveScan => lockAfterScan := true;
          case AfInactive => state' := NotFocusedLocked;
          case PassiveFocused => state' := FocusedLocked;
          case _ =>
        }
      case ContinuousVideo =>
        match state {
          case PassiveScan | AfInactive => state' := NotFocusedLocked;
          case PassiveFocused => state' := FocusedLocked;
          case _ =>
        }
      case _ =>
    }

    // maybeStartAfScan
    method MaybeStartAfScan(mode: AfMode, state: AfState, start: Ratio, r: Ratio) returns (state': AfState)
      modifies this`afScan
      ensures Focus(state', afScan, lockAfterScan) ==
        MaybeStart(mode, Focus(state, old(afScan), lockAfterScan), start, r)
    {
      state' := state;
      if (mode == ContinuousVideo || mode == ContinuousPicture) && (state == AfInactive || state == PassiveFocused) {
        if start < CONTINUOUS_AF_START_RATE {
          afScan := Duration(r, MIN_AF_DURATION, MAX_AF_DURATION);
          state' := PassiveScan;
        }
      }
    }

    // updateAfScan
    method UpdateAfScan(mode: AfMode, state: AfState, success: Ratio, maxSleep: int)
      returns (state': AfState, sleep: int)
      modifies this`lockAfterScan
      ensures Focus(state', afScan, lockAfterScan) == Update(mode, Focus(state, afScan, old(lockAfterScan)), success)
      ensures sleep == UpdateSleep(Focus(state, afScan, old(lockAfterScan)), maxSleep)
    {
      state', sleep := state, maxSleep;
      if !(state == ActiveScan || state == PassiveScan) {
        return;
      }
      if afScan <= 0 {
        match mode
        case AfMacro | AfAuto =>
          state' := if success < AF_SUCCESS_RATE then FocusedLocked else NotFocusedLocked;
        case ContinuousPicture =>
          if lockAfterScan {
            state', lockAfterScan := FocusedLocked, false;
          } else {
            state' := PassiveFocused;
          }
        case ContinuousVideo => state' := PassiveFocused;
        case _ =>
      } else if afScan <= maxSleep {
        sleep := afScan;
      }
    }

    // The focus part of threadLoop, up to the commit of the new state.
    method RunFocus(l: Local, d: Draws) returns (sleep: int)
      modifies this`afScan, this`lockAfterScan, this`afState
      ensures (View(), sleep) == FocusStep(old(View()), l, d)
    {
      var state := l.afState;
      if l.afTriggered {
        state := ProcessAfTrigger(l.afMode, state, d.afDuration);
      }
      state := MaybeStartAfScan(l.afMode, state, d.afStart, d.afPassive);
      state, sleep := UpdateAfScan(l.afMode, state, d.afSuccess, CONTROL_CYCLE_DELAY);
      afState := state;
    }

    // The reset of threadLoop after a cancel or a mode change.
    method ResetFocus(l: Local) returns (l': Local)
      modifies this`afState, this`afScan, this`lockAfterScan
      ensures (View(), l') == Reset(old(View()), l)
    {
      l' := l;
      if l.afCancelled || l.afModeChange {
        l' := l.(afState := AfInactive);
        afState := AfInactive;
        afScan, lockAfterScan := 0, false;
      }
    }

    // processPrecaptureTrigger
    method ProcessPrecaptureTrigger(mode: AeMode, state: AeState, r: Ratio) returns (state': AeState)
      modifies this`aeScan
      ensures if mode == AeOn
              then state' == Precapture && aeScan == Duration(r, MIN_PRECAPTURE_AE_DURATION, MAX_PRECAPTURE_AE_DURATION)
              else state' == state && aeScan == old(aeScan)
    {
      state' := state;
      if mode == AeOn {
        state' := Precapture;
        aeScan := Duration(r, MIN_PRECAPTURE_AE_DURATION, MAX_PRECAPTURE_AE_DURATION);
      }
    }

    // maybeStartAeScan
    method MaybeStartAeScan(mode: AeMode, locked: bool, state: AeState, start: Ratio, r: Ratio)
      returns (state': AeState)
      modifies this`aeScan
      ensures if !locked && mode == AeOn && state in {AeInactive, Converged} && start < AE_SCAN_START_RATE
              then state' == Searching && aeScan == Duration(r, MIN_AE_DURATION, MAX_AE_DURATION)
              else state' == state && aeScan == old(aeScan)
    {
      state' := state;
      if locked { return; }
      if mode == AeOn {
        if state != AeInactive && state != Converged { return; }
        if start < AE_SCAN_START_RATE {
          aeScan := Duration(r, MIN_AE_DURATION, MAX_AE_DURATION);
          state' := Searching;
        }
      }
    }

    // updateAeScan, without the random exposure time it also sets
    method UpdateAeScan(locked: bool, state: AeState, maxSleep: int) returns (state': AeState, sleep: int)
      modifies this`aeScan
      ensures (state', aeScan, sleep) == AeUpdated(locked, state, old(aeScan), maxSleep)
    {
      state', sleep := state, maxSleep;
      if locked && state != Precapture {
        aeScan := 0;
        state' := AeLocked;
      } else if state == Searching || state == Precapture {
        if aeScan <= 0 {
          state' := if locked then AeLocked else Converged;
        } else if aeScan <= maxSleep {
          sleep := aeScan;
        }
      }
    }

    // The exposure part of threadLoop, up to the commit of the new state.
    method RunExposure(l: Local, d: Draws, sleep: int) returns (sleep': int)
      modifies this`aeScan, this`aeState
      ensures (View(), sleep') == ExposureStep(old(View()), l, d, sleep)
    {
      var state := l.aeState;
      if l.precapture {
        state := ProcessPrecaptureTrigger(l.aeMode, state, d.precapture);
      }
      state := MaybeStartAeScan(l.aeMode, l.aeLock, state, d.aeStart, d.aeDuration);
      state, sleep' := UpdateAeScan(l.aeLock, state, sleep);
      aeState := state;
    }

    // After the sleep.
    method WakeUp(sleep: int)
      modifies this`afScan, this`aeScan
      ensures View() == Wake(old(View()), sleep)
    {
      if afScan > 0 { afScan := afScan - sleep; }
      if aeScan > 0 { aeScan := aeScan - sleep; }
    }

    // One act of the thread or its environment, the thread being at pc.
    method Perform(pc: Pc, a: Act) returns (pc': Pc)
      modifies this
      ensures System(View(), pc') == Next(System(old(View()), pc), a)
    {
      pc' := pc;
      match a
      case Submit(q) => ProcessRequestLocked(q);
      case Notify(m) => var ok := TriggerActionLocked(m);
      case Thread(d) => pc' := ThreadStep(pc, d);
    }

    // threadLoop from one critical section to the next.
    method ThreadStep(pc: Pc, d: Draws) returns (pc': Pc)
      modifies this
      ensures System(View(), pc') == Next(System(old(View()), pc), Thread(d))
    {
      match pc
      case Idle =>
        var l := Snapshot();
        pc' := Snapped(l);
      case Snapped(l) =>
        var l' := ResetFocus(l);
        pc' := Ready(l');
      case Ready(l) =>
        var sleep := RunFocus(l, d);
        pc' := Focused(l, sleep);
      case Focused(l, sleep) =>
        var sleep' := RunExposure(l, d, sleep);
        pc' := Sleeping(sleep');
      case Sleeping(sleep) =>
        WakeUp(sleep);
        pc' := Idle;
    }

    // The object in any interleaving from its start: whenever the thread is between two
    // cycles and has no mode change waiting, the focus state is legal for the mode; the
    // branches for unexpected states are not taken on the way.
    method Interleave(acts: seq<Act>) returns (pc: Pc)
      requires Initial(System(View(), Idle))
      modifies this
      ensures System(View(), pc) == Run(System(old(View()), Idle), acts)
      ensures Inv(System(View(), pc)) && (pc == Idle && !afModeChange ==> Legal(afMode, afState))
    {
      pc := Idle;
      var n := 0;
      assert acts[0..] == acts;
      while n < |acts|
        invariant 0 <= n <= |acts| && Run(System(View(), pc), acts[n..]) == Run(System(old(View()), Idle), acts)
      {
        assert acts[n..][1..] == acts[n + 1..];
        pc := Perform(pc, acts[n]);
        n := n + 1;
      }
      InitialInv(System(old(View()), Idle));
      RunInv(System(old(View()), Idle), acts);
    }
  }
}
