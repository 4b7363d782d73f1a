// A round of the event loop of qemud (android/qemud/qemud.c) in which a client is closed
// and the connection accepted next gets its descriptor.
module EventReuse {
  import opened EventLoop

  function Listener(fd: int): Hook {
    Hook(fd, {EpollIn}, {}, false, false, fd)
  }

  // The serial port (3), the socket that accepts clients (4) and one client (7).
  function Running(max: nat): Loop {
    Loop([Listener(3), Listener(4), Listener(7)],
         map[3 := Registration({EpollIn}, 0), 4 := Registration({EpollIn}, 1), 7 := Registration({EpollIn}, 2)], max)
  }

  function BothReady(): seq<Ready> {
    [Ready(3, {EpollIn}), Ready(4, {EpollIn})]
  }

  // The port's callback closes the client, whose number the accepted connection gets; it
  // is then listened to, or not.
  function Reuse(listen: bool): seq<seq<Op>> {
    [[Del(7)], if listen then [Add(7, 8), Enable(7, {EpollIn})] else [Add(7, 8)]]
  }

  lemma FindIs(table: seq<Hook>, fd: int, i: nat)
    requires i < |table| && table[i].fd == fd && forall j :: 0 <= j < i ==> table[j].fd != fd
    ensures Find(table, fd) == i
  {
  }

  lemma OneOrTwo(l: Loop, ops: seq<Op>)
    requires ops != []
    ensures |ops| == 1 ==> DidAll(l, ops) == Did(l, ops[0])
    ensures |ops| == 2 ==> DidAll(l, ops) == Did(Did(l, ops[0]), ops[1])
  {
    var l1 := Did(l, ops[0]);
    assert DidAll(l, ops) == DidAll(l1, ops[1..]);
    if |ops| == 2 {
      assert DidAll(l1, ops[1..]) == DidAll(Did(l1, ops[1]), ops[1..][1..]);
    }
  }

  lemma ReuseMarks(l: Loop, ready: seq<Ready>) returns (marked: Loop)
    requires l == Running(l.max) && ready == BothReady()
    ensures marked == Marked(l, ready)
    ensures marked == l.(table := [Listener(3).(pending := true, events := {EpollIn}),
                                   Listener(4).(pending := true, events := {EpollIn}), Listener(7)])
  {
    var first := ready[..1];
    assert first == [ready[0]] && |first[..0]| == 0;
    var one := Marked(l, first);
    assert one == Pointed(Marked(l, first[..0]), 0, {EpollIn});
    marked := Pointed(one, 1, {EpollIn});
  }

  // The callback of the accepting socket.
  lemma ReuseAccepts(l1: Loop, plan: seq<seq<Op>>, listen: bool) returns (called: Loop)
    requires plan == Reuse(listen)[1..] && l1.max >= 4
    requires l1.table == [Listener(3).(events := {EpollIn}), Listener(4).(pending := true, events := {EpollIn}),
                          Listener(7).(closing := true)]
    requires l1.epoll == map[3 := Registration({EpollIn}, 0), 4 := Registration({EpollIn}, 1)]
    ensures called == Called(l1, 1, plan)
    ensures called.table == [Listener(3).(events := {EpollIn}), Listener(4).(events := {EpollIn}),
                             Listener(7).(closing := true), NewHook(7, 8)]
    ensures called.epoll == l1.epoll[7 := Registration({}, 3)]
  {
    var c, ops := Cleared(l1, 1), plan[0];
    OneOrTwo(c, ops);
    called := AddFd(c, 7, 8);
    FindIs(called.table, 7, 2);
    assert EnableFd(called, 7, {EpollIn}) == called;
    assert DidAll(c, ops) == called;
    assert |plan[1..]| == 0;
    assert Called(l1, 1, plan) == Called(called, 2, plan[1..]);
    assert Called(called, 2, plan[1..]) == Called(called, 3, plan[1..]) == Called(called, 4, plan[1..]) == called;
  }

  lemma ReuseCalls(l: Loop, plan: seq<seq<Op>>, listen: bool) returns (called: Loop)
    requires l == Running(l.max) && l.max >= 4 && plan == Reuse(listen)
    ensures called == Called(Marked(l, BothReady()), 0, plan)
    ensures called.table == [Listener(3).(events := {EpollIn}), Listener(4).(events := {EpollIn}),
                             Listener(7).(closing := true), NewHook(7, 8)]
    ensures called.epoll ==
            map[3 := Registration({EpollIn}, 0), 4 := Registration({EpollIn}, 1), 7 := Registration({}, 3)]
  {
    var marked := ReuseMarks(l, BothReady());
    var l1 := DidAll(Cleared(marked, 0), plan[0]);
    OneOrTwo(Cleared(marked, 0), plan[0]);
    FindIs(marked.table, 7, 2);
    assert l1.epoll == map[3 := Registration({EpollIn}, 0), 4 := Registration({EpollIn}, 1)];
    called := ReuseAccepts(l1, plan[1..], listen);
    assert Called(marked, 0, plan) == Called(l1, 1, plan[1..]);
  }

  lemma ReuseSweeps(l: Loop, t: Loop)
    requires |l.table| == 4 && t == Removed(l, 2) && forall i :: 0 <= i < 4 ==> l.table[i].closing == (i == 2)
    ensures SweptFrom(l, 0) == t
  {
    assert t.table[2] == l.table[3];
    assert SweptFrom(l, 0) == SweptFrom(l, 1) == SweptFrom(l, 2) == SweptFrom(t, 2);
    assert SweptFrom(t, 2) == SweptFrom(t, 3) == t;
  }

  lemma ReuseOps(plan: seq<seq<Op>>, listen: bool)
    requires plan == Reuse(listen)
    ensures Concat(plan) == [Del(7)] + plan[1] && Concat(plan)[1..] == plan[1]
    ensures plan[1][1..] == if listen then [Enable(7, {EpollIn})] else []
  {
    assert plan[1..] == [plan[1]] && |plan[1..][1..]| == 0;
    assert Concat(plan[1..]) == plan[1] + Concat(plan[1..][1..]) == plan[1];
  }

  lemma ReuseIsOld(fds: set<int>, plan: seq<seq<Op>>, listen: bool)
    requires plan == Reuse(listen) && 7 in fds
    ensures !AddsNewTo(fds, Concat(plan)) && (listen ==> Daemon(Concat(plan)))
  {
    ReuseOps(plan, listen);
    var ops := Concat(plan);
    assert fds + NewFd(ops[0]) == fds;
    assert 7 in NewFd(ops[1..][0]);
    if listen {
      assert ops[1..][2..] == plan[1][1..][1..] == [];
    }
  }

  lemma ReuseApplies(w: Watches, plan: seq<seq<Op>>, listen: bool)
    requires plan == Reuse(listen)
    ensures ApplyAll(w, Concat(plan)) == (w - {7})[7 := if listen then {EpollIn} else {}]
  {
    ReuseOps(plan, listen);
    var w1 := w - {7};
    var w2 := w1[7 := {}];
    assert ApplyAll(w, Concat(plan)) == ApplyAll(w1, plan[1]) == ApplyAll(w2, plan[1][1..]);
    if listen {
      assert w2[7] + {EpollIn} == {EpollIn};
      assert ApplyAll(w2, plan[1][1..]) == ApplyAll(w2[7 := {EpollIn}], plan[1][1..][1..]);
      assert w2[7 := {EpollIn}] == w1[7 := {EpollIn}];
    }
  }

  lemma RunningIsGood(l: Loop)
    requires l == Running(l.max)
    ensures Good(l) && Reportable(BothReady(), l.epoll) && 7 in Fds(l.table)
    ensures Masks(l.epoll) == map[3 := {EpollIn}, 4 := {EpollIn}, 7 := {EpollIn}]
  {
    assert l.table[2].fd == 7;
  }

  lemma ReuseRound(l: Loop, plan: seq<seq<Op>>, listen: bool)
    requires l == Running(l.max) && l.max >= 4 && plan == Reuse(listen)
    requires Reportable(BothReady(), l.epoll)
    ensures var t := RoundOf(l, BothReady(), plan);
            Good(t) && Masks(t.epoll) == map[3 := {EpollIn}, 4 := {EpollIn}, 7 := {}]
  {
    var called := ReuseCalls(l, plan, listen);
    var t := Removed(called, 2);
    ReuseSweeps(called, t);
    ReuseEnds(t);
  }

  lemma ReuseAsks(l: Loop, plan: seq<seq<Op>>, listen: bool)
    requires l == Running(l.max) && plan == Reuse(listen)
    ensures Good(l) && Reportable(BothReady(), l.epoll) && !AddsNew(l, plan) && (listen ==> Daemon(Concat(plan)))
    ensures Asked(l, plan) == map[3 := {EpollIn}, 4 := {EpollIn}, 7 := if listen then {EpollIn} else {}]
  {
    RunningIsGood(l);
    ReuseIsOld(Fds(l.table), plan, listen);
    ReuseApplies(Masks(l.epoll), plan, listen);
  }

  // The round in which a client is closed and its descriptor accepted again: the new
  // client is asked to be watched for input, but the kernel watches it for nothing. (If
  // nothing listens to it no harm is done, which is why RoundIff is about listeners.)
  lemma ReuseLosesInput(max: nat, listen: bool)
    requires max >= 4
    ensures var l, plan := Running(max), Reuse(listen);
            && Good(l) && Reportable(BothReady(), l.epoll) && !AddsNew(l, plan) && (listen ==> Daemon(Concat(plan)))
            && Asked(l, plan) == map[3 := {EpollIn}, 4 := {EpollIn}, 7 := if listen then {EpollIn} else {}]
            && var t := RoundOf(l, BothReady(), plan);
               Good(t) && Masks(t.epoll) == map[3 := {EpollIn}, 4 := {EpollIn}, 7 := {}]
  {
    ReuseAsks(Running(max), Reuse(listen), listen);
    ReuseRound(Running(max), Reuse(listen), listen);
  }

  lemma ReuseEnds(t: Loop)
    requires t.table == [Listener(3).(events := {EpollIn}), Listener(4).(events := {EpollIn}), NewHook(7, 8)]
    requires t.epoll == map[3 := Registration({EpollIn}, 0), 4 := Registration({EpollIn}, 1), 7 := Registration({}, 2)]
    ensures Good(t) && Masks(t.epoll) == map[3 := {EpollIn}, 4 := {EpollIn}, 7 := {}]
  {
  }
}
