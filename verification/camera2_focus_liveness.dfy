// Liveness of autofocus in the camera 2 pipeline (ControlThread in
// android/camera/EmulatedFakeCamera2.cpp): a focus trigger is answered with a locked
// state within a fixed number of control cycles, whatever else is going on.
module Camera2FocusLiveness {
  import opened Camera2Focus

  // How many cycles a scan can still take. A cycle sleeps a full delay unless a shorter
  // focus or exposure scan ends first, and a short exposure remainder is used up by one
  // short sleep, after which a new exposure scan lasts at least a full delay again.
  function CyclesLeft(afScan: int, aeScan: int): (n: nat) {
    2 * Delays(afScan) + (if 0 < aeScan < CONTROL_CYCLE_DELAY then 1 else 0)
  }

  // Full delays that cover a duration.
  function Delays(t: int): (n: nat)
    ensures t > 0 ==> n >= 1
  {
    if t <= 0 then 0 else (t + CONTROL_CYCLE_DELAY - 1) / CONTROL_CYCLE_DELAY
  }

  // A cycle that does not finish the focus scan brings the end nearer.
  lemma CycleProgress(l: Local, c: Control, d: Draws)
    requires Scanning(c.afState) && 0 < c.afScan
    ensures var sleep0 := if c.afScan <= CONTROL_CYCLE_DELAY then c.afScan else CONTROL_CYCLE_DELAY;
            var (c1, sleep) := ExposureStep(c, l, d, sleep0);
            var c2 := Wake(c1, sleep);
            0 < sleep <= c.afScan && c2.afScan == c.afScan - sleep &&
            CyclesLeft(c2.afScan, c2.aeScan) < CyclesLeft(c.afScan, c.aeScan)
  {
  }

  predicate Focusing(mode: AfMode) {
    mode in {AfAuto, AfMacro, ContinuousPicture, ContinuousVideo}
  }

  predicate Locked(s: AfState) {
    s == FocusedLocked || s == NotFocusedLocked
  }

  // A scan is running that ends in a locked state.
  predicate Committed(c: Control) {
    || (c.afMode in {AfAuto, AfMacro} && c.afState == ActiveScan)
    || (c.afMode == ContinuousPicture && c.afState == PassiveScan && c.lockAfterScan)
  }

  // The snapshot is current.
  predicate Current(l: Local, c: Control) {
    !l.afCancelled && l.afMode == c.afMode && !c.afModeChange
  }

  // A trigger is waiting, has been taken by the running cycle, or has started a scan.
  predicate OnTheWay(s: System) {
    && Inv(s) && Focusing(s.c.afMode) && !s.c.cancelAf
    && match s.pc
       case Idle => s.c.startAf || (!s.c.afModeChange && Committed(s.c))
       case Snapped(l) => Current(l, s.c) && (l.afTriggered || (!l.afModeChange && Committed(s.c)))
       case Ready(l) => Current(l, s.c) && (l.afTriggered || Committed(s.c))
       case Focused(l, sleep) => !s.c.afModeChange && Committed(s.c) && s.c.afScan > 0 && FullSleep(s.c, sleep)
       case Sleeping(sleep) => !s.c.afModeChange && Committed(s.c) && s.c.afScan > 0
  }

  predicate FullSleep(c: Control, sleep: int) {
    sleep == if c.afScan <= CONTROL_CYCLE_DELAY then c.afScan else CONTROL_CYCLE_DELAY
  }

  // The locked state is committed.
  predicate Answered(s: System) {
    s.pc.Focused? && Locked(s.c.afState)
  }

  // No cancel and no change of focus mode; anything else may happen.
  predicate Quiet(s: System, a: Act) {
    match a
    case Submit(q) => !q.controlOff && q.afMode == s.c.afMode
    case Notify(m) => m != CancelAutoFocus
    case Thread(d) => true
  }

  const MAX_CYCLES: nat := 20

  // Steps of the thread that can still pass before the answer.
  function StepsLeft(s: System): (n: int) {
    var scanning := 5 * CyclesLeft(s.c.afScan, s.c.aeScan);
    match s.pc
    case Idle => if !s.c.afModeChange && Committed(s.c) then scanning + 3 else 5 * MAX_CYCLES
    case Snapped(l) => if !l.afModeChange && Committed(s.c) then scanning + 2 else 5 * MAX_CYCLES - 1
    case Ready(l) => if Committed(s.c) then scanning + 1 else 5 * MAX_CYCLES - 2
    case Focused(l, sleep) => scanning
    case Sleeping(sleep) => 5 * CyclesLeft(Wake(s.c, sleep).afScan, Wake(s.c, sleep).aeScan) + 4
  }

  lemma ScanIsShort(c: Control)
    requires c.afScan <= MAX_AF_DURATION
    ensures 5 * CyclesLeft(c.afScan, c.aeScan) < 5 * MAX_CYCLES - 2
  {
  }

  lemma QuietKeeps(s: System, a: Act)
    requires OnTheWay(s) && Quiet(s, a) && !a.Thread?
    ensures OnTheWay(Next(s, a)) && StepsLeft(Next(s, a)) == StepsLeft(s)
  {
    NextInv(s, a);
  }

  lemma FocusAnswersOrScans(s: System, d: Draws)
    requires OnTheWay(s) && s.pc.Ready?
    ensures Answered(Next(s, Thread(d))) ||
            (OnTheWay(Next(s, Thread(d))) && StepsLeft(Next(s, Thread(d))) < StepsLeft(s))
  {
    ThreadInv(s, d);
    var t := Next(s, Thread(d));
    if !Answered(t) {
      ScanIsShort(t.c);
    }
  }

  lemma ThreadAdvances(s: System, d: Draws)
    requires OnTheWay(s)
    ensures Answered(Next(s, Thread(d))) ||
            (OnTheWay(Next(s, Thread(d))) && StepsLeft(Next(s, Thread(d))) < StepsLeft(s))
  {
    ThreadInv(s, d);
    match s.pc
    case Ready(l) => FocusAnswersOrScans(s, d);
    case Focused(l, sleep) => CycleProgress(l, s.c, d);
    case _ =>
  }

  predicate AllQuiet(s: System, acts: seq<Act>)
    decreases |acts|
  {
    acts == [] || (Quiet(s, acts[0]) && AllQuiet(Next(s, acts[0]), acts[1..]))
  }

  function ThreadSteps(acts: seq<Act>): nat {
    if acts == [] then 0 else (if acts[0].Thread? then 1 else 0) + ThreadSteps(acts[1..])
  }

  lemma {:induction false} AnswerComes(s: System, acts: seq<Act>) returns (n: nat)
    requires OnTheWay(s) && AllQuiet(s, acts) && ThreadSteps(acts) > StepsLeft(s)
    ensures n <= |acts| && Answered(Run(s, acts[..n]))
    decreases |acts|
  {
    if acts == [] {
      LeftIsNatural(s);
    } else {
      var t := Next(s, acts[0]);
      if acts[0].Thread? {
        ThreadAdvances(s, acts[0].d);
      } else {
        QuietKeeps(s, acts[0]);
      }
      if Answered(t) {
        n := 1;
        assert acts[..1][1..] == [];
      } else {
        n := AnswerComes(t, acts[1..]);
        n := n + 1;
        assert acts[..n][1..] == acts[1..][..n - 1];
      }
    }
  }

  lemma LeftIsNatural(s: System)
    ensures StepsLeft(s) >= 0
  {
  }

  // Thread steps to the next idle point.
  function StepsToIdle(pc: Pc): nat {
    match pc
    case Idle => 0
    case Sleeping(_) => 1
    case Focused(_, _) => 2
    case Ready(_) => 3
    case Snapped(_) => 4
  }

  lemma StillWaiting(s: System, a: Act)
    requires s.c.startAf && Quiet(s, a) && s.pc != Idle
    ensures Next(s, a).c.startAf && Next(s, a).c.afMode == s.c.afMode
    ensures StepsToIdle(Next(s, a).pc) == StepsToIdle(s.pc) - if a.Thread? then 1 else 0
  {
  }

  // A trigger that arrives during a cycle waits for the next one.
  lemma {:induction false} TriggerWaits(s: System, acts: seq<Act>) returns (m: nat)
    requires s.c.startAf && Focusing(s.c.afMode) && AllQuiet(s, acts) && ThreadSteps(acts) >= StepsToIdle(s.pc)
    ensures m <= |acts|
    ensures var t := Run(s, acts[..m]);
            t.pc == Idle && t.c.startAf && Focusing(t.c.afMode) && AllQuiet(t, acts[m..]) &&
            ThreadSteps(acts[m..]) == ThreadSteps(acts) - StepsToIdle(s.pc)
    decreases |acts|
  {
    if s.pc == Idle {
      m := 0;
      assert acts[..0] == [] && acts[0..] == acts;
    } else {
      StillWaiting(s, acts[0]);
      m := TriggerWaits(Next(s, acts[0]), acts[1..]);
      m := m + 1;
      assert acts[..m][1..] == acts[1..][..m - 1] && acts[m..] == acts[1..][m - 1..];
    }
  }

  lemma {:induction false} RunAppend(s: System, a: seq<Act>, b: seq<Act>)
    ensures Run(s, a + b) == Run(Run(s, a), b)
    decreases |a|
  {
    if a == [] {
      assert a + b == b;
    } else {
      assert (a + b)[0] == a[0] && (a + b)[1..] == a[1..] + b;
      RunAppend(Next(s, a[0]), a[1..], b);
    }
  }

  // In every interleaving without a cancel or a change of mode, however many further
  // requests and triggers come, a focus trigger given at any point of a cycle in a
  // focusing mode is taken at the next idle point (m) and answered with a locked state
  // (n) within that cycle's rest and twenty control cycles of five steps each.
  lemma TriggerReachesLock(start: System, before: seq<Act>, acts: seq<Act>) returns (m: nat, n: nat)
    requires Initial(start)
    requires var s := Run(start, before); s.c.startAf && Focusing(s.c.afMode) && AllQuiet(s, acts)
    requires ThreadSteps(acts) > 4 + 5 * MAX_CYCLES
    ensures m <= n <= |acts|
    ensures var s := Run(start, before);
            Run(s, acts[..m]).pc == Idle && Run(s, acts[..m]).c.startAf && Answered(Run(s, acts[..n]))
  {
    InitialInv(start);
    RunInv(start, before);
    var s := Run(start, before);
    m := TriggerWaits(s, acts);
    var t := Run(s, acts[..m]);
    RunInv(s, acts[..m]);
    if Committed(t.c) && t.c.afScan <= MAX_AF_DURATION {
      ScanIsShort(t.c);
    }
    var k := AnswerComes(t, acts[m..]);
    n := m + k;
    RunAppend(s, acts[..m], acts[m..][..k]);
    assert acts[..n] == acts[..m] + acts[m..][..k];
  }
}
