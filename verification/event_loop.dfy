// The event loop of qemud (android/qemud/qemud.c) as a function of its hook table and of
// what the kernel holds: every call finds the first hook of a descriptor, closed hooks
// stay in the table until the sweep at the end of a round.
module EventLoop {
  import opened Seqs

  // Event masks are combinations of these bits.
  datatype Bit = EpollIn | EpollOut | EpollHup | EpollErr
  type Mask = set<Bit>

  // LoopHook: state is the pair of flags HOOK_PENDING and HOOK_CLOSING.
  datatype Hook = Hook(fd: int, wanted: Mask, events: Mask, pending: bool, closing: bool, user: int)

  // What the kernel keeps for a descriptor: the event mask and which hook it points to.
  datatype Registration = Registration(mask: Mask, slot: nat)

  // max is the room in the table.
  datatype Loop = Loop(table: seq<Hook>, epoll: map<int, Registration>, max: nat)

  // The calls a callback may make.
  datatype Op = Add(fd: int, user: int) | Del(fd: int) | Enable(fd: int, events: Mask) | Disable(fd: int, events: Mask)

  // A descriptor epoll_wait reports.
  datatype Ready = Ready(fd: int, events: Mask)

  // ------------------------------------------------------------ the operations

  // looper_find: the first slot of a descriptor, or -1.
  function Find(table: seq<Hook>, fd: int): (r: int)
    ensures -1 <= r < |table|
    ensures r >= 0 ==> table[r].fd == fd && forall i :: 0 <= i < r ==> table[i].fd != fd
    ensures r < 0 ==> Absent(table, fd)
  {
    if table == [] then -1
    else if table[0].fd == fd then 0
    else
      var r := Find(table[1..], fd);
      assert forall i :: 1 <= i < |table| ==> table[i] == table[1..][i - 1];
      if r < 0 then -1 else r + 1
  }

  predicate Absent(table: seq<Hook>, fd: int) {
    forall i :: 0 <= i < |table| ==> table[i].fd != fd
  }

  // epoll_ctl(EPOLL_CTL_MOD): nothing happens for a descriptor that is not watched.
  function Modified(epoll: map<int, Registration>, fd: int, r: Registration): map<int, Registration> {
    if fd in epoll then epoll[fd := r] else epoll
  }

  // The registrations after those of the first n hooks were made anew.
  function Remapped(table: seq<Hook>, epoll: map<int, Registration>, n: nat): map<int, Registration>
    requires n <= |table|
  {
    if n == 0 then epoll
    else Modified(Remapped(table, epoll, n - 1), table[n - 1].fd, Registration(table[n - 1].wanted, n - 1))
  }

  // looper_grow
  function Grown(l: Loop): Loop {
    Loop(l.table, Remapped(l.table, l.epoll, |l.table|), l.max + l.max / 2 + 4)
  }

  // looper_add; adding a watched descriptor to the epoll set fails and changes nothing.
  function AddFd(l: Loop, fd: int, user: int): Loop {
    var g := if |l.table| >= l.max then Grown(l) else l;
    Loop(g.table + [NewHook(fd, user)],
         if fd in g.epoll then g.epoll else g.epoll[fd := Registration({}, |g.table|)], g.max)
  }

  function NewHook(fd: int, user: int): Hook {
    Hook(fd, {}, {}, false, false, user)
  }

  // looper_del: the hook stays in the table until the next sweep.
  function DelFd(l: Loop, fd: int): Loop {
    var i := Find(l.table, fd);
    if i < 0 then l
    else l.(table := l.table[i := l.table[i].(closing := true)], epoll := l.epoll - {fd})
  }

  // Give the hook in a slot another mask and tell the kernel.
  function SetWanted(l: Loop, i: nat, wanted: Mask): Loop
    requires i < |l.table|
  {
    l.(table := l.table[i := l.table[i].(wanted := wanted)],
       epoll := Modified(l.epoll, l.table[i].fd, Registration(wanted, i)))
  }

  // looper_enable
  function EnableFd(l: Loop, fd: int, events: Mask): Loop {
    var i := Find(l.table, fd);
    if i < 0 || events - l.table[i].wanted == {} then l else SetWanted(l, i, l.table[i].wanted + events)
  }

  // looper_disable
  function DisableFd(l: Loop, fd: int, events: Mask): Loop {
    var i := Find(l.table, fd);
    if i < 0 || events * l.table[i].wanted == {} then l else SetWanted(l, i, l.table[i].wanted - events)
  }

  function Did(l: Loop, op: Op): Loop {
    match op
    case Add(fd, user) => AddFd(l, fd, user)
    case Del(fd) => DelFd(l, fd)
    case Enable(fd, events) => EnableFd(l, fd, events)
    case Disable(fd, events) => DisableFd(l, fd, events)
  }

  function DidAll(l: Loop, ops: seq<Op>): Loop
    decreases |ops|
  {
    if ops == [] then l else DidAll(Did(l, ops[0]), ops[1..])
  }

  // Mark the hooks the kernel's pointers lead to.
  function Marked(l: Loop, ready: seq<Ready>): Loop
    requires forall k :: 0 <= k < |ready| ==> ready[k].fd in l.epoll
  {
    if ready == [] then l
    else
      var r := ready[|ready| - 1];
      Pointed(Marked(l, ready[..|ready| - 1]), l.epoll[r.fd].slot, r.events)
  }

  function Pointed(l: Loop, slot: nat, events: Mask): Loop {
    if slot < |l.table| then
      l.(table := l.table[slot := l.table[slot].(pending := true, closing := false, events := events)])
    else l
  }

  function Cleared(l: Loop, n: nat): Loop
    requires n < |l.table|
  {
    l.(table := l.table[n := l.table[n].(pending := false)])
  }

  // The callbacks from slot n on: plan lists the calls each of them makes.
  function Called(l: Loop, n: nat, plan: seq<seq<Op>>): Loop
    decreases |plan|, |l.table| - n
  {
    if n >= |l.table| then l
    else if l.table[n].pending && plan != [] then Called(DidAll(Cleared(l, n), plan[0]), n + 1, plan[1..])
    else if l.table[n].pending then Called(Cleared(l, n), n + 1, plan)
    else Called(l, n + 1, plan)
  }

  // The last hook takes the place of the closing one in slot n.
  function Swept(table: seq<Hook>, n: nat): (r: seq<Hook>)
    requires n < |table|
    ensures |r| == |table| - 1
  {
    table[n := table[|table| - 1]][..|table| - 1]
  }

  // Its registration follows it.
  function Removed(l: Loop, n: nat): (r: Loop)
    requires n < |l.table|
    ensures |r.table| == |l.table| - 1
  {
    var h := l.table[|l.table| - 1];
    Loop(Swept(l.table, n), Modified(l.epoll, h.fd, Registration(h.wanted, n)), l.max)
  }

  // The sweep from slot n on; a slot that was filled is looked at again.
  function SweptFrom(l: Loop, n: nat): Loop
    decreases |l.table| - n
  {
    if n >= |l.table| then l
    else if l.table[n].closing then SweptFrom(Removed(l, n), n)
    else SweptFrom(l, n + 1)
  }

  // One turn of looper_loop.
  function RoundOf(l: Loop, ready: seq<Ready>, plan: seq<seq<Op>>): Loop
    requires forall k :: 0 <= k < |ready| ==> ready[k].fd in l.epoll
  {
    SweptFrom(Called(Marked(l, ready), 0, plan), 0)
  }

  // ---------------------------------------------------- what its users ask for

  // The loop as its users see it: a mask for each watched descriptor.
  type Watches = map<int, Mask>

  function Apply(w: Watches, op: Op): Watches {
    match op
    case Add(fd, user) => w[fd := {}]
    case Del(fd) => w - {fd}
    case Enable(fd, events) => if fd in w then w[fd := w[fd] + events] else w
    case Disable(fd, events) => if fd in w then w[fd := w[fd] - events] else w
  }

  function ApplyAll(w: Watches, ops: seq<Op>): Watches
    decreases |ops|
  {
    if ops == [] then w else ApplyAll(Apply(w, ops[0]), ops[1..])
  }

  function Concat(plan: seq<seq<Op>>): seq<Op> {
    if plan == [] then [] else plan[0] + Concat(plan[1..])
  }

  // The masks that are asked for after a round.
  function Asked(l: Loop, plan: seq<seq<Op>>): Watches {
    ApplyAll(Masks(l.epoll), Concat(plan))
  }

  // The masks the kernel monitors.
  function Masks(epoll: map<int, Registration>): Watches {
    map fd | fd in epoll :: epoll[fd].mask
  }

  // ------------------------------------------------- table and kernel agree

  predicate FdsDistinct(table: seq<Hook>) {
    forall i, j :: 0 <= i < j < |table| ==> table[i].fd != table[j].fd
  }

  // A hook's registration carries its mask and points to its slot; a hook being closed
  // has none.
  predicate Registered(h: Hook, slot: int, epoll: map<int, Registration>) {
    if h.closing then h.fd !in epoll
    else h.fd in epoll && epoll[h.fd].mask == h.wanted && epoll[h.fd].slot == slot
  }

  predicate Agree(table: seq<Hook>, epoll: map<int, Registration>) {
    && FdsDistinct(table)
    && (forall i :: 0 <= i < |table| ==> Registered(table[i], i, epoll))
    && (forall fd :: fd in epoll ==> epoll[fd].slot < |table| && table[epoll[fd].slot].fd == fd)
  }

  // The state between two rounds: no hook is pending or closed.
  predicate Good(l: Loop) {
    Agree(l.table, l.epoll) && Idle(l.table)
  }

  predicate Idle(table: seq<Hook>) {
    forall i :: 0 <= i < |table| ==> !table[i].pending && !table[i].closing
  }

  function Fds(table: seq<Hook>): set<int> {
    set i | 0 <= i < |table| :: table[i].fd
  }

  lemma FdsIs(table: seq<Hook>, fd: int)
    ensures fd in Fds(table) <==> !Absent(table, fd)
  {
    if !Absent(table, fd) {
      var i :| 0 <= i < |table| && table[i].fd == fd;
      assert table[i].fd in Fds(table);
    }
  }

  // Watched descriptors, each of them once.
  predicate Reportable(ready: seq<Ready>, epoll: map<int, Registration>) {
    && (forall k :: 0 <= k < |ready| ==> ready[k].fd in epoll)
    && (forall j, k :: 0 <= j < k < |ready| ==> ready[j].fd != ready[k].fd)
  }

  // ----------------------------------------------------- adding what is new

  // The descriptors some calls add.
  function Added(ops: seq<Op>): set<int> {
    if ops == [] then {} else NewFd(ops[0]) + Added(ops[1..])
  }

  function NewFd(op: Op): set<int> {
    if op.Add? then {op.fd} else {}
  }

  // No call adds a descriptor with a hook in the table, open or closed, and none adds a
  // descriptor twice.
  predicate AddsNewTo(fds: set<int>, ops: seq<Op>)
    decreases |ops|
  {
    ops == [] || (NewFd(ops[0]) !! fds && AddsNewTo(fds + NewFd(ops[0]), ops[1..]))
  }

  predicate AddsNew(l: Loop, plan: seq<seq<Op>>) {
    AddsNewTo(Fds(l.table), Concat(plan))
  }

  lemma {:induction false} AddsNewAppend(fds: set<int>, a: seq<Op>, b: seq<Op>)
    ensures AddsNewTo(fds, a + b) <==> AddsNewTo(fds, a) && AddsNewTo(fds + Added(a), b)
    ensures Added(a + b) == Added(a) + Added(b)
    decreases |a|
  {
    if a == [] {
      assert a + b == b && fds + Added(a) == fds;
    } else {
      assert (a + b)[0] == a[0] && (a + b)[1..] == a[1..] + b;
      AddsNewAppend(fds + NewFd(a[0]), a[1..], b);
      assert fds + NewFd(a[0]) + Added(a[1..]) == fds + Added(a);
    }
  }

  lemma {:induction false} ApplyAllAppend(w: Watches, a: seq<Op>, b: seq<Op>)
    ensures ApplyAll(w, a + b) == ApplyAll(ApplyAll(w, a), b)
    decreases |a|
  {
    if a == [] {
      assert a + b == b;
    } else {
      assert (a + b)[0] == a[0] && (a + b)[1..] == a[1..] + b;
      ApplyAllAppend(Apply(w, a[0]), a[1..], b);
    }
  }

  // ------------------------------------------- one call, on any table at all

  // A later table: the same hooks in the same slots, as pending as before, and behind
  // them the added ones, which are not pending.
  predicate Follows(a: seq<Hook>, b: seq<Hook>, added: set<int>) {
    && |a| <= |b| && Fds(b) == Fds(a) + added
    && (forall i :: 0 <= i < |a| ==> b[i].fd == a[i].fd && b[i].pending == a[i].pending)
    && (forall i :: |a| <= i < |b| ==> !b[i].pending)
  }

  lemma SameFds(a: seq<Hook>, b: seq<Hook>)
    requires |a| == |b| && forall i :: 0 <= i < |a| ==> a[i].fd == b[i].fd
    ensures Fds(a) == Fds(b)
  {
    assert forall fd :: fd in Fds(a) ==> fd in Fds(b) by {
      forall fd | fd in Fds(a)
        ensures fd in Fds(b)
      {
        var i :| 0 <= i < |a| && a[i].fd == fd;
        assert b[i].fd == fd;
      }
    }
    assert forall fd :: fd in Fds(b) ==> fd in Fds(a) by {
      forall fd | fd in Fds(b)
        ensures fd in Fds(a)
      {
        var i :| 0 <= i < |b| && b[i].fd == fd;
        assert a[i].fd == fd;
      }
    }
  }

  lemma FollowsSame(a: seq<Hook>, b: seq<Hook>)
    requires |a| == |b| && forall i :: 0 <= i < |a| ==> a[i].fd == b[i].fd && a[i].pending == b[i].pending
    ensures Follows(a, b, {})
  {
    SameFds(a, b);
  }

  lemma FollowsAdd(a: seq<Hook>, h: Hook)
    requires !h.pending
    ensures Follows(a, a + [h], {h.fd})
  {
    var b := a + [h];
    assert forall fd :: fd in Fds(a) + {h.fd} ==> fd in Fds(b) by {
      forall fd | fd in Fds(a) + {h.fd}
        ensures fd in Fds(b)
      {
        if fd in Fds(a) {
          var i :| 0 <= i < |a| && a[i].fd == fd;
          assert b[i].fd == fd;
        } else {
          assert b[|a|].fd == fd;
        }
      }
    }
  }

  lemma FollowsTwice(a: seq<Hook>, b: seq<Hook>, c: seq<Hook>, x: set<int>, y: set<int>)
    requires Follows(a, b, x) && Follows(b, c, y)
    ensures Follows(a, c, x + y)
  {
  }

  lemma DidFollows(l: Loop, op: Op)
    ensures Follows(l.table, Did(l, op).table, NewFd(op))
  {
    if op.Add? {
      FollowsAdd(l.table, NewHook(op.fd, op.user));
    } else {
      FollowsSame(l.table, Did(l, op).table);
    }
  }

  lemma {:induction false} DidAllFollows(l: Loop, ops: seq<Op>)
    ensures Follows(l.table, DidAll(l, ops).table, Added(ops))
    decreases |ops|
  {
    if ops == [] {
      FollowsSame(l.table, l.table);
    } else {
      var l1 := Did(l, ops[0]);
      DidFollows(l, ops[0]);
      DidAllFollows(l1, ops[1..]);
      FollowsTwice(l.table, l1.table, DidAll(l, ops).table, NewFd(ops[0]), Added(ops[1..]));
    }
  }

  // ------------------------------------- one call, when it adds nothing old

  lemma {:induction false} RemappedSame(table: seq<Hook>, epoll: map<int, Registration>, n: nat)
    requires Agree(table, epoll) && n <= |table|
    ensures Remapped(table, epoll, n) == epoll
  {
    if n > 0 {
      RemappedSame(table, epoll, n - 1);
      assert Registered(table[n - 1], n - 1, epoll);
    }
  }

  lemma AddAgrees(table: seq<Hook>, epoll: map<int, Registration>, h: Hook)
    requires Agree(table, epoll) && !h.closing && h.wanted == {} && Absent(table, h.fd)
    ensures h.fd !in epoll
    ensures var epoll' := epoll[h.fd := Registration({}, |table|)];
            Agree(table + [h], epoll') && Masks(epoll') == Masks(epoll)[h.fd := {}]
  {
  }

  lemma DelAgrees(table: seq<Hook>, epoll: map<int, Registration>, i: nat)
    requires Agree(table, epoll) && i < |table|
    ensures var fd := table[i].fd;
            Agree(table[i := table[i].(closing := true)], epoll - {fd}) && Masks(epoll - {fd}) == Masks(epoll) - {fd}
  {
  }

  lemma SetAgrees(table: seq<Hook>, epoll: map<int, Registration>, i: nat, wanted: Mask)
    requires Agree(table, epoll) && i < |table|
    ensures var fd := table[i].fd;
            var epoll' := Modified(epoll, fd, Registration(wanted, i));
            Agree(table[i := table[i].(wanted := wanted)], epoll') &&
            Masks(epoll') == if fd in epoll then Masks(epoll)[fd := wanted] else Masks(epoll)
  {
  }

  lemma NotWatched(table: seq<Hook>, epoll: map<int, Registration>, fd: int)
    requires Agree(table, epoll) && Absent(table, fd)
    ensures fd !in epoll && fd !in Masks(epoll) && Masks(epoll) - {fd} == Masks(epoll)
  {
  }

  // The mask in a slot is the kernel's, if the descriptor is watched.
  lemma HasMask(table: seq<Hook>, epoll: map<int, Registration>, i: nat)
    requires Agree(table, epoll) && i < |table|
    ensures table[i].fd in Masks(epoll) <==> table[i].fd in epoll
    ensures table[i].fd in epoll ==> Masks(epoll)[table[i].fd] == table[i].wanted
    ensures table[i].fd in epoll ==> Masks(epoll)[table[i].fd := table[i].wanted] == Masks(epoll)
  {
    assert Registered(table[i], i, epoll);
  }

  lemma NothingToAdd(events: Mask, wanted: Mask)
    requires events - wanted == {}
    ensures wanted + events == wanted
  {
    assert forall b :: b in events && b !in wanted ==> b in events - wanted;
  }

  lemma NothingToRemove(events: Mask, wanted: Mask)
    requires events * wanted == {}
    ensures wanted - events == wanted
  {
    assert forall b :: b in events && b in wanted ==> b in events * wanted;
  }

  lemma EnableGood(l: Loop, fd: int, events: Mask)
    requires Agree(l.table, l.epoll)
    ensures var t := EnableFd(l, fd, events);
            Agree(t.table, t.epoll) && Masks(t.epoll) == Apply(Masks(l.epoll), Enable(fd, events))
  {
    var i := Find(l.table, fd);
    if i < 0 {
      NotWatched(l.table, l.epoll, fd);
    } else {
      var wanted := l.table[i].wanted;
      HasMask(l.table, l.epoll, i);
      if events - wanted == {} {
        NothingToAdd(events, wanted);
      } else {
        SetAgrees(l.table, l.epoll, i, wanted + events);
      }
    }
  }

  lemma DisableGood(l: Loop, fd: int, events: Mask)
    requires Agree(l.table, l.epoll)
    ensures var t := DisableFd(l, fd, events);
            Agree(t.table, t.epoll) && Masks(t.epoll) == Apply(Masks(l.epoll), Disable(fd, events))
  {
    var i := Find(l.table, fd);
    if i < 0 {
      NotWatched(l.table, l.epoll, fd);
    } else {
      var wanted := l.table[i].wanted;
      HasMask(l.table, l.epoll, i);
      if events * wanted == {} {
        NothingToRemove(events, wanted);
      } else {
        SetAgrees(l.table, l.epoll, i, wanted - events);
      }
    }
  }

  // A call keeps table and kernel in agreement and does what it is meant to, as long as
  // it does not add a descriptor that has a hook.
  lemma DidGood(l: Loop, op: Op)
    requires Agree(l.table, l.epoll) && NewFd(op) !! Fds(l.table)
    ensures var t := Did(l, op); Agree(t.table, t.epoll) && Masks(t.epoll) == Apply(Masks(l.epoll), op)
  {
    match op
    case Add(fd, user) =>
      FdsIs(l.table, fd);
      RemappedSame(l.table, l.epoll, |l.table|);
      AddAgrees(l.table, l.epoll, NewHook(fd, user));
    case Del(fd) =>
      var i := Find(l.table, fd);
      if i < 0 { NotWatched(l.table, l.epoll, fd); } else { DelAgrees(l.table, l.epoll, i); }
    case Enable(fd, events) => EnableGood(l, fd, events);
    case Disable(fd, events) => DisableGood(l, fd, events);
  }

  lemma {:induction false} DidAllGood(l: Loop, ops: seq<Op>)
    requires Agree(l.table, l.epoll) && AddsNewTo(Fds(l.table), ops)
    ensures var t := DidAll(l, ops); Agree(t.table, t.epoll) && Masks(t.epoll) == ApplyAll(Masks(l.epoll), ops)
    decreases |ops|
  {
    if ops != [] {
      DidGood(l, ops[0]);
      DidFollows(l, ops[0]);
      DidAllGood(Did(l, ops[0]), ops[1..]);
    }
  }

  lemma ClearAgrees(l: Loop, n: nat)
    requires n < |l.table|
    ensures Fds(Cleared(l, n).table) == Fds(l.table)
    ensures Agree(l.table, l.epoll) ==> Agree(Cleared(l, n).table, l.epoll)
  {
    SameFds(l.table, Cleared(l, n).table);
  }

  // ------------------------------------------------------------- the callbacks

  // The descriptors of the pending hooks from slot n on, in slot order.
  function Pending(table: seq<Hook>, n: nat): seq<int>
    decreases |table| - n
  {
    if n >= |table| then [] else (if table[n].pending then [table[n].fd] else []) + Pending(table, n + 1)
  }

  lemma {:induction false} PendingFollows(a: seq<Hook>, b: seq<Hook>, n: nat)
    requires |a| <= |b| && n <= |b|
    requires forall i :: n <= i < |a| ==> b[i].fd == a[i].fd && b[i].pending == a[i].pending
    requires forall i :: |a| <= i < |b| ==> !b[i].pending
    ensures Pending(b, n) == Pending(a, n)
    decreases |b| - n
  {
    if n < |b| {
      PendingFollows(a, b, n + 1);
    }
  }

  // The rest of a round after the callback of slot n.
  lemma CallStep(l: Loop, n: nat, ops: seq<Op>)
    requires n < |l.table| && l.table[n].pending
    ensures var t := DidAll(Cleared(l, n), ops);
            Pending(t.table, n + 1) == Pending(l.table, n + 1) && Fds(t.table) == Fds(l.table) + Added(ops)
    ensures var t := DidAll(Cleared(l, n), ops);
            |t.table| > n && !t.table[n].pending && forall i :: 0 <= i < n ==> t.table[i].pending == l.table[i].pending
  {
    var t := DidAll(Cleared(l, n), ops);
    DidAllFollows(Cleared(l, n), ops);
    ClearAgrees(l, n);
    PendingFollows(l.table, t.table, n + 1);
  }

  // The callbacks do what their calls ask for.
  lemma {:induction false} CalledGood(l: Loop, n: nat, plan: seq<seq<Op>>)
    requires Agree(l.table, l.epoll) && AddsNew(l, plan) && |plan| == |Pending(l.table, n)|
    ensures var t := Called(l, n, plan); Agree(t.table, t.epoll) && Masks(t.epoll) == Asked(l, plan)
    decreases |plan|, |l.table| - n
  {
    if n < |l.table| {
      if l.table[n].pending {
        var l1 := DidAll(Cleared(l, n), plan[0]);
        CallStep(l, n, plan[0]);
        ClearAgrees(l, n);
        AddsNewAppend(Fds(l.table), plan[0], Concat(plan[1..]));
        DidAllGood(Cleared(l, n), plan[0]);
        ApplyAllAppend(Masks(l.epoll), plan[0], Concat(plan[1..]));
        CalledGood(l1, n + 1, plan[1..]);
      } else {
        CalledGood(l, n + 1, plan);
      }
    }
  }

  // Whatever the calls are, no hook is pending afterwards.
  lemma {:induction false} CalledNonePending(l: Loop, n: nat, plan: seq<seq<Op>>)
    requires forall i :: 0 <= i < n && i < |l.table| ==> !l.table[i].pending
    requires |plan| == |Pending(l.table, n)|
    ensures forall i :: 0 <= i < |Called(l, n, plan).table| ==> !Called(l, n, plan).table[i].pending
    decreases |plan|, |l.table| - n
  {
    if n < |l.table| {
      if l.table[n].pending {
        CallStep(l, n, plan[0]);
        CalledNonePending(DidAll(Cleared(l, n), plan[0]), n + 1, plan[1..]);
      } else {
        CalledNonePending(l, n + 1, plan);
      }
    }
  }

  // ------------------------------------------------------------------ the sweep

  // The hooks that are not being closed, as a bag.
  function Kept(table: seq<Hook>): multiset<Hook> {
    if table == [] then multiset{}
    else (if table[0].closing then multiset{} else multiset{table[0]}) + Kept(table[1..])
  }

  lemma {:induction false} KeptAppend(a: seq<Hook>, b: seq<Hook>)
    ensures Kept(a + b) == Kept(a) + Kept(b)
  {
    if a == [] {
      assert a + b == b;
    } else {
      assert (a + b)[0] == a[0] && (a + b)[1..] == a[1..] + b;
      KeptAppend(a[1..], b);
    }
  }

  lemma KeptOne(h: Hook)
    ensures Kept([h]) == if h.closing then multiset{} else multiset{h}
  {
    assert [h][1..] == [];
  }

  function KeptHook(h: Hook): multiset<Hook> {
    if h.closing then multiset{} else multiset{h}
  }

  lemma KeptMiddle(a: seq<Hook>, h: Hook, b: seq<Hook>)
    ensures Kept(a + [h] + b) == Kept(a) + KeptHook(h) + Kept(b)
  {
    KeptOne(h);
    KeptAppend(a + [h], b);
    KeptAppend(a, [h]);
  }

  lemma SweptShape(table: seq<Hook>, n: nat)
    requires n < |table| - 1
    ensures var a, c, h := table[..n], table[n + 1..|table| - 1], table[|table| - 1];
            table == a + [table[n]] + (c + [h]) && Swept(table, n) == a + [h] + c
  {
  }

  lemma SweptBag(a: seq<Hook>, x: Hook, c: seq<Hook>, h: Hook)
    requires x.closing
    ensures Kept(a + [h] + c) == Kept(a + [x] + (c + [h]))
  {
    KeptMiddle(a, x, c + [h]);
    KeptAppend(c, [h]);
    KeptOne(h);
    KeptMiddle(a, h, c);
  }

  lemma SweptLast(table: seq<Hook>, n: nat)
    requires n == |table| - 1 && table[n].closing
    ensures Kept(Swept(table, n)) == Kept(table)
  {
    var a := table[..n];
    KeptAppend(a, [table[n]]);
    KeptOne(table[n]);
    assert table == a + [table[n]];
    assert Swept(table, n) == a;
  }

  lemma SweptKeeps(table: seq<Hook>, n: nat)
    requires n < |table| && table[n].closing
    ensures Kept(Swept(table, n)) == Kept(table)
  {
    if n == |table| - 1 {
      SweptLast(table, n);
    } else {
      SweptShape(table, n);
      SweptBag(table[..n], table[n], table[n + 1..|table| - 1], table[|table| - 1]);
    }
  }

  lemma SameMasks(a: map<int, Registration>, b: map<int, Registration>)
    requires a.Keys == b.Keys && forall fd :: fd in b ==> b[fd].mask == a[fd].mask
    ensures Masks(a) == Masks(b)
  {
    assert Masks(a).Keys == a.Keys == Masks(b).Keys;
    forall fd | fd in Masks(a)
      ensures Masks(a)[fd] == Masks(b)[fd]
    {
      assert fd in b;
    }
  }

  lemma RemovedAgrees(l: Loop, n: nat)
    requires Agree(l.table, l.epoll) && n < |l.table| && l.table[n].closing
    ensures var t := Removed(l, n); Agree(t.table, t.epoll) && Masks(t.epoll) == Masks(l.epoll)
  {
    var last := |l.table| - 1;
    var h := l.table[last];
    var t := Removed(l, n);
    assert Registered(h, last, l.epoll) && Registered(l.table[n], n, l.epoll);
    assert forall i :: 0 <= i < last && i != n ==> t.table[i] == l.table[i];
    forall i | 0 <= i < last
      ensures Registered(t.table[i], i, t.epoll)
    {
      assert Registered(l.table[i], i, l.epoll);
    }
    SameMasks(l.epoll, t.epoll);
  }

  lemma {:induction false} SweptFromGood(l: Loop, n: nat)
    requires Agree(l.table, l.epoll)
    ensures var t := SweptFrom(l, n); Agree(t.table, t.epoll) && Masks(t.epoll) == Masks(l.epoll)
    decreases |l.table| - n
  {
    if n < |l.table| {
      if l.table[n].closing {
        RemovedAgrees(l, n);
        SweptFromGood(Removed(l, n), n);
      } else {
        SweptFromGood(l, n + 1);
      }
    }
  }

  // The sweep leaves exactly the open hooks, whatever table it starts with.
  lemma {:induction false} SweptFromKeeps(l: Loop, n: nat)
    requires n <= |l.table| && forall i :: 0 <= i < n ==> !l.table[i].closing
    ensures forall i :: 0 <= i < |SweptFrom(l, n).table| ==> !SweptFrom(l, n).table[i].closing
    ensures multiset(SweptFrom(l, n).table) == Kept(l.table)
    decreases |l.table| - n
  {
    if n < |l.table| {
      if l.table[n].closing {
        SweptKeeps(l.table, n);
        SweptFromKeeps(Removed(l, n), n);
      } else {
        SweptFromKeeps(l, n + 1);
      }
    } else {
      KeptWhole(l.table);
    }
  }

  lemma {:induction false} KeptWhole(table: seq<Hook>)
    requires forall i :: 0 <= i < |table| ==> !table[i].closing
    ensures Kept(table) == multiset(table)
  {
    if table != [] {
      assert forall i :: 0 <= i < |table[1..]| ==> table[1..][i] == table[i + 1];
      KeptWhole(table[1..]);
      assert table == [table[0]] + table[1..];
    }
  }

  lemma {:induction false} KeptHas(table: seq<Hook>, h: Hook)
    ensures h in Kept(table) <==> !h.closing && h in table
  {
    if table != [] {
      KeptHas(table[1..], h);
      assert table == [table[0]] + table[1..];
    }
  }

  // ---------------------------------------------------------- what is reported

  predicate Reported(fd: int, ready: seq<Ready>) {
    exists k :: 0 <= k < |ready| && ready[k].fd == fd
  }

  // The hooks of the reported descriptors are pending.
  predicate AsReported(start: seq<Hook>, now: seq<Hook>, ready: seq<Ready>) {
    && |now| == |start|
    && forall i :: 0 <= i < |now| ==>
         && now[i].fd == start[i].fd && now[i].wanted == start[i].wanted && !now[i].closing
         && (now[i].pending <==> Reported(now[i].fd, ready))
  }

  lemma ReportedMore(fd: int, ready: seq<Ready>)
    requires ready != []
    ensures Reported(fd, ready) <==> Reported(fd, ready[..|ready| - 1]) || ready[|ready| - 1].fd == fd
  {
    var most := ready[..|ready| - 1];
    if k :| 0 <= k < |ready| && ready[k].fd == fd {
      if k < |most| { assert most[k].fd == fd; }
    }
    if k :| 0 <= k < |most| && most[k].fd == fd { assert ready[k].fd == fd; }
    assert ready[|ready| - 1].fd == fd ==> Reported(fd, ready);
  }

  lemma {:induction false} MarkedGood(l: Loop, ready: seq<Ready>)
    requires Good(l) && Reportable(ready, l.epoll)
    ensures var t := Marked(l, ready);
            AsReported(l.table, t.table, ready) && Agree(t.table, t.epoll) && t.epoll == l.epoll
  {
    if ready != [] {
      var most, r := ready[..|ready| - 1], ready[|ready| - 1];
      MarkedGood(l, most);
      var before, slot := Marked(l, most), l.epoll[r.fd].slot;
      var t := Pointed(before, slot, r.events);
      assert before.table[slot].fd == r.fd;
      assert Registered(before.table[slot], slot, l.epoll);
      forall i | 0 <= i < |t.table|
        ensures t.table[i].pending <==> Reported(t.table[i].fd, ready)
      {
        ReportedMore(t.table[i].fd, ready);
        assert i != slot ==> before.table[i].fd != r.fd;
      }
    }
  }

  lemma {:induction false} PendingExactly(table: seq<Hook>, n: nat)
    requires FdsDistinct(table)
    ensures NoDup(Pending(table, n))
    ensures forall fd :: fd in Pending(table, n) <==>
              exists i :: n <= i < |table| && table[i].fd == fd && table[i].pending
    decreases |table| - n
  {
    if n < |table| {
      PendingExactly(table, n + 1);
      var rest := Pending(table, n + 1);
      forall i | 0 <= i < |rest|
        ensures rest[i] != table[n].fd
      {
        assert rest[i] in rest;
      }
    }
  }

  lemma {:induction false} NoDupSize(s: seq<int>)
    requires NoDup(s)
    ensures |(set x | x in s)| == |s|
  {
    if s == [] {
      assert (set x | x in s) == {};
    } else {
      var n := |s| - 1;
      NoDupSize(s[..n]);
      assert (set x | x in s) == (set x | x in s[..n]) + {s[n]} by {
        assert s == s[..n] + [s[n]];
      }
    }
  }

  function ReadyFds(ready: seq<Ready>): (r: seq<int>)
    ensures |r| == |ready| && forall k :: 0 <= k < |ready| ==> r[k] == ready[k].fd
  {
    seq(|ready|, k requires 0 <= k < |ready| => ready[k].fd)
  }

  lemma ReportedIsIn(fd: int, ready: seq<Ready>)
    ensures Reported(fd, ready) <==> fd in ReadyFds(ready)
  {
    if Reported(fd, ready) {
      var k :| 0 <= k < |ready| && ready[k].fd == fd;
      assert ReadyFds(ready)[k] == fd;
    }
    if fd in ReadyFds(ready) {
      var k :| 0 <= k < |ready| && ReadyFds(ready)[k] == fd;
      assert ready[k].fd == fd;
    }
  }

  lemma PendingIsReported(start: seq<Hook>, table: seq<Hook>, ready: seq<Ready>, fd: int)
    requires FdsDistinct(table) && AsReported(start, table, ready)
    requires forall k :: 0 <= k < |ready| ==> !Absent(table, ready[k].fd)
    ensures fd in Pending(table, 0) <==> Reported(fd, ready)
  {
    PendingExactly(table, 0);
    if Reported(fd, ready) {
      var k :| 0 <= k < |ready| && ready[k].fd == fd;
      var i :| 0 <= i < |table| && table[i].fd == fd;
      assert table[i].pending;
    }
  }

  // The hooks marked are the reported descriptors, each once.
  lemma CallsReported(start: seq<Hook>, table: seq<Hook>, ready: seq<Ready>)
    requires FdsDistinct(table) && AsReported(start, table, ready)
    requires forall j, k :: 0 <= j < k < |ready| ==> ready[j].fd != ready[k].fd
    requires forall k :: 0 <= k < |ready| ==> !Absent(table, ready[k].fd)
    ensures NoDup(Pending(table, 0)) && |Pending(table, 0)| == |ready|
    ensures forall fd :: fd in Pending(table, 0) <==> Reported(fd, ready)
  {
    PendingExactly(table, 0);
    var log, fds := Pending(table, 0), ReadyFds(ready);
    forall fd
      ensures fd in log <==> Reported(fd, ready)
      ensures fd in log <==> fd in fds
    {
      PendingIsReported(start, table, ready, fd);
      ReportedIsIn(fd, ready);
    }
    NoDupSize(log);
    NoDupSize(fds);
    assert (set x | x in log) == (set x | x in fds);
  }

  lemma RoundMarks(l: Loop, ready: seq<Ready>)
    requires Good(l) && Reportable(ready, l.epoll)
    ensures var t := Marked(l, ready);
            && Agree(t.table, t.epoll) && t.epoll == l.epoll && Fds(t.table) == Fds(l.table)
            && NoDup(Pending(t.table, 0)) && |Pending(t.table, 0)| == |ready|
            && forall fd :: fd in Pending(t.table, 0) <==> Reported(fd, ready)
  {
    var t := Marked(l, ready);
    MarkedGood(l, ready);
    SameFds(l.table, t.table);
    forall k | 0 <= k < |ready|
      ensures !Absent(t.table, ready[k].fd)
    {
      assert t.table[l.epoll[ready[k].fd].slot].fd == ready[k].fd;
    }
    CallsReported(l.table, t.table, ready);
  }

  // ------------------------------------------------------------------- a round

  lemma SweptIdle(l: Loop)
    requires forall i :: 0 <= i < |l.table| ==> !l.table[i].pending
    ensures Idle(SweptFrom(l, 0).table)
  {
    SweptFromKeeps(l, 0);
    var table := SweptFrom(l, 0).table;
    forall i | 0 <= i < |table|
      ensures !table[i].pending
    {
      assert table[i] in multiset(table);
      KeptHas(l.table, table[i]);
    }
  }

  // A round in which only new descriptors are added ends in a good state with the masks
  // asked for.
  lemma RoundGood(l: Loop, ready: seq<Ready>, plan: seq<seq<Op>>)
    requires Good(l) && Reportable(ready, l.epoll) && |plan| == |ready| && AddsNew(l, plan)
    ensures var t := RoundOf(l, ready, plan); Good(t) && Masks(t.epoll) == Asked(l, plan)
  {
    RoundMarks(l, ready);
    var marked := Marked(l, ready);
    CalledGood(marked, 0, plan);
    CalledNonePending(marked, 0, plan);
    SweptFromGood(Called(marked, 0, plan), 0);
    SweptIdle(Called(marked, 0, plan));
  }

  // What the kernel reports in one turn of the loop, and what the callbacks call.
  datatype Turn = Turn(ready: seq<Ready>, plan: seq<seq<Op>>)

  // Turns that each add new descriptors only.
  predicate Proper(l: Loop, turns: seq<Turn>)
    decreases |turns|
  {
    turns == [] ||
    (var t := turns[0];
     && Reportable(t.ready, l.epoll) && |t.plan| == |t.ready| && AddsNew(l, t.plan)
     && Proper(RoundOf(l, t.ready, t.plan), turns[1..]))
  }

  function AllTurns(l: Loop, turns: seq<Turn>): Loop
    requires Proper(l, turns)
    decreases |turns|
  {
    if turns == [] then l else AllTurns(RoundOf(l, turns[0].ready, turns[0].plan), turns[1..])
  }

  // The calls of all callbacks of all turns.
  function AllCalls(turns: seq<Turn>): seq<Op> {
    if turns == [] then [] else Concat(turns[0].plan) + AllCalls(turns[1..])
  }

  // However long the loop runs, it is in a good state after every turn, with the masks
  // that all the calls so far ask for.
  lemma {:induction false} TurnsGood(l: Loop, turns: seq<Turn>)
    requires Good(l) && Proper(l, turns)
    ensures var t := AllTurns(l, turns); Good(t) && Masks(t.epoll) == ApplyAll(Masks(l.epoll), AllCalls(turns))
    decreases |turns|
  {
    if turns != [] {
      var t := RoundOf(l, turns[0].ready, turns[0].plan);
      RoundGood(l, turns[0].ready, turns[0].plan);
      TurnsGood(t, turns[1..]);
      ApplyAllAppend(Masks(l.epoll), Concat(turns[0].plan), AllCalls(turns[1..]));
    }
  }

  // Behind another hook of the same descriptor there is one that no call ever reaches.
  predicate Stranded(table: seq<Hook>, fd: int, p: int, q: int) {
    && 0 <= p < q < |table| && table[p].fd == fd
    && table[q].fd == fd && !table[q].closing && table[q].wanted == {}
  }

  lemma DidStrands(l: Loop, op: Op, fd: int, p: int, q: int)
    requires Stranded(l.table, fd, p, q)
    ensures Stranded(Did(l, op).table, fd, p, q)
  {
  }

  lemma {:induction false} DidAllStrands(l: Loop, ops: seq<Op>, fd: int, p: int, q: int)
    requires Stranded(l.table, fd, p, q)
    ensures Stranded(DidAll(l, ops).table, fd, p, q)
    decreases |ops|
  {
    if ops != [] {
      DidStrands(l, ops[0], fd, p, q);
      DidAllStrands(Did(l, ops[0]), ops[1..], fd, p, q);
    }
  }

  lemma {:induction false} CalledStrands(l: Loop, n: nat, plan: seq<seq<Op>>, fd: int, p: int, q: int)
    requires Stranded(l.table, fd, p, q)
    ensures Stranded(Called(l, n, plan).table, fd, p, q)
    decreases |plan|, |l.table| - n
  {
    if n < |l.table| {
      if l.table[n].pending && plan != [] {
        DidAllStrands(Cleared(l, n), plan[0], fd, p, q);
        CalledStrands(DidAll(Cleared(l, n), plan[0]), n + 1, plan[1..], fd, p, q);
      } else if l.table[n].pending {
        CalledStrands(Cleared(l, n), n + 1, plan, fd, p, q);
      } else {
        CalledStrands(l, n + 1, plan, fd, p, q);
      }
    }
  }

  // Adding a descriptor that still has a hook strands the new one.
  lemma {:induction false} OldAddStrands(l: Loop, ops: seq<Op>) returns (fd: int, p: int, q: int)
    requires !AddsNewTo(Fds(l.table), ops)
    ensures fd in Added(ops) && Stranded(DidAll(l, ops).table, fd, p, q)
    decreases |ops|
  {
    var l1 := Did(l, ops[0]);
    DidFollows(l, ops[0]);
    if NewFd(ops[0]) !! Fds(l.table) {
      fd, p, q := OldAddStrands(l1, ops[1..]);
    } else {
      fd := ops[0].fd;
      FdsIs(l.table, fd);
      p := Find(l.table, fd);
      q := |l.table|;
      DidAllStrands(l1, ops[1..], fd, p, q);
    }
  }

  lemma {:induction false} OldAddInRound(l: Loop, n: nat, plan: seq<seq<Op>>) returns (fd: int, p: int, q: int)
    requires !AddsNew(l, plan) && |plan| == |Pending(l.table, n)|
    ensures fd in Added(Concat(plan)) && Stranded(Called(l, n, plan).table, fd, p, q)
    decreases |plan|, |l.table| - n
  {
    if n < |l.table| && l.table[n].pending {
      var l1 := DidAll(Cleared(l, n), plan[0]);
      CallStep(l, n, plan[0]);
      ClearAgrees(l, n);
      AddsNewAppend(Fds(l.table), plan[0], Concat(plan[1..]));
      if AddsNewTo(Fds(l.table), plan[0]) {
        fd, p, q := OldAddInRound(l1, n + 1, plan[1..]);
      } else {
        fd, p, q := OldAddStrands(Cleared(l, n), plan[0]);
        CalledStrands(l1, n + 1, plan[1..], fd, p, q);
      }
    } else {
      fd, p, q := OldAddInRound(l, n + 1, plan);
    }
  }

  // A round that adds a descriptor that still has a hook, and ends in a good state with
  // the masks asked for, was asked to watch that descriptor for nothing.
  lemma OldAddBreaks(l: Loop, ready: seq<Ready>, plan: seq<seq<Op>>) returns (fd: int)
    requires Good(l) && Reportable(ready, l.epoll) && |plan| == |ready| && !AddsNew(l, plan)
    ensures fd in Added(Concat(plan))
    ensures var t := RoundOf(l, ready, plan);
            Good(t) && Masks(t.epoll) == Asked(l, plan) ==> fd in Asked(l, plan) && Asked(l, plan)[fd] == {}
  {
    RoundMarks(l, ready);
    var marked := Marked(l, ready);
    var p, q;
    fd, p, q := OldAddInRound(marked, 0, plan);
    var called := Called(marked, 0, plan);
    var t := SweptFrom(called, 0);
    SweptFromKeeps(called, 0);
    var h := called.table[q];
    KeptHas(called.table, h);
    assert h in multiset(t.table);
    var i :| 0 <= i < |t.table| && t.table[i] == h;
    if Good(t) {
      assert Registered(t.table[i], i, t.epoll);
    }
  }

  // Every descriptor that is added is also listened to, or closed again.
  predicate Listens(l: Loop, plan: seq<seq<Op>>) {
    forall fd :: fd in Added(Concat(plan)) && fd in Asked(l, plan) ==> Asked(l, plan)[fd] != {}
  }

  // Exactly when a round of listeners is correct: it ends in a good state with the masks
  // asked for if and only if no callback adds a descriptor that has a hook in the table,
  // be it open or closed.
  lemma RoundIff(l: Loop, ready: seq<Ready>, plan: seq<seq<Op>>)
    requires Good(l) && Reportable(ready, l.epoll) && |plan| == |ready| && Listens(l, plan)
    ensures var t := RoundOf(l, ready, plan); Good(t) && Masks(t.epoll) == Asked(l, plan) <==> AddsNew(l, plan)
  {
    if AddsNew(l, plan) {
      RoundGood(l, ready, plan);
    } else {
      var fd := OldAddBreaks(l, ready, plan);
    }
  }

  // ------------------------------------------------------- what the daemon does

  // The daemon enables input for each descriptor right after adding it, and never
  // disables input.
  predicate Daemon(ops: seq<Op>)
    decreases |ops|
  {
    if ops == [] then true
    else if ops[0].Add? then |ops| >= 2 && ops[1] == Enable(ops[0].fd, {EpollIn}) && Daemon(ops[2..])
    else (ops[0].Disable? ==> EpollIn !in ops[0].events) && Daemon(ops[1..])
  }

  predicate Listening(w: Watches, fds: set<int>) {
    forall fd :: fd in fds && fd in w ==> EpollIn in w[fd]
  }

  lemma {:induction false} DaemonListening(w: Watches, ops: seq<Op>, fds: set<int>)
    requires Daemon(ops) && Listening(w, fds)
    ensures Listening(ApplyAll(w, ops), fds + Added(ops))
    decreases |ops|
  {
    if ops == [] {
      assert fds + Added(ops) == fds;
    } else if ops[0].Add? {
      var fd := ops[0].fd;
      var w2 := Apply(Apply(w, ops[0]), ops[1]);
      assert ops[1..][1..] == ops[2..];
      DaemonListening(w2, ops[2..], fds + {fd});
      assert ApplyAll(w, ops) == ApplyAll(w2, ops[2..]);
      assert fds + {fd} + Added(ops[2..]) == fds + Added(ops);
    } else {
      DaemonListening(Apply(w, ops[0]), ops[1..], fds);
      assert Added(ops) == Added(ops[1..]);
    }
  }

  // So the daemon's rounds are correct if and only if they add new descriptors only.
  lemma DaemonRoundIff(l: Loop, ready: seq<Ready>, plan: seq<seq<Op>>)
    requires Good(l) && Reportable(ready, l.epoll) && |plan| == |ready| && Daemon(Concat(plan))
    ensures var t := RoundOf(l, ready, plan); Good(t) && Masks(t.epoll) == Asked(l, plan) <==> AddsNew(l, plan)
  {
    DaemonListening(Masks(l.epoll), Concat(plan), {});
    forall fd | fd in Added(Concat(plan)) && fd in Asked(l, plan)
      ensures Asked(l, plan)[fd] != {}
    {
      assert fd in {} + Added(Concat(plan));
      assert EpollIn in Asked(l, plan)[fd];
    }
    RoundIff(l, ready, plan);
  }

  // ------------------------------------------------------- every loop, good or not

  predicate HasOpen(table: seq<Hook>, fd: int) {
    exists i :: 0 <= i < |table| && table[i].fd == fd && !table[i].closing
  }

  // The kernel's pointers stay within the array, and each watched descriptor has an open
  // hook in the table. This holds in every round, so that growing the table renews every
  // pointer.
  predicate Sane(l: Loop) {
    && |l.table| <= l.max
    && forall fd :: fd in l.epoll ==> l.epoll[fd].slot < l.max && HasOpen(l.table, fd)
  }

  lemma {:induction false} RemappedKeys(table: seq<Hook>, epoll: map<int, Registration>, n: nat)
    requires n <= |table|
    ensures Remapped(table, epoll, n).Keys == epoll.Keys
    ensures forall fd :: fd in epoll ==>
              Remapped(table, epoll, n)[fd] == epoll[fd] || Remapped(table, epoll, n)[fd].slot < n
  {
    if n > 0 {
      RemappedKeys(table, epoll, n - 1);
    }
  }

  lemma OpenKept(a: seq<Hook>, b: seq<Hook>, fd: int)
    requires HasOpen(a, fd) && |a| <= |b|
    requires forall i :: 0 <= i < |a| && a[i].fd == fd && !a[i].closing ==> b[i].fd == fd && !b[i].closing
    ensures HasOpen(b, fd)
  {
  }

  lemma GrownSane(l: Loop)
    requires Sane(l)
    ensures Sane(Grown(l)) && |l.table| < Grown(l).max
  {
    RemappedKeys(l.table, l.epoll, |l.table|);
  }

  lemma AddSane(l: Loop, fd: int, user: int)
    requires Sane(l)
    ensures Sane(AddFd(l, fd, user))
  {
    if |l.table| >= l.max { GrownSane(l); }
    var t := AddFd(l, fd, user);
    assert t.table[|l.table|] == NewHook(fd, user);
    forall f | f in t.epoll
      ensures HasOpen(t.table, f)
    {
      if f != fd {
        RemappedKeys(l.table, l.epoll, |l.table|);
        OpenKept(l.table, t.table, f);
      }
    }
  }

  lemma DidSane(l: Loop, op: Op)
    requires Sane(l)
    ensures Sane(Did(l, op))
  {
    if op.Add? {
      AddSane(l, op.fd, op.user);
    } else {
      var t := Did(l, op);
      forall f | f in t.epoll
        ensures HasOpen(t.table, f)
      {
        OpenKept(l.table, t.table, f);
      }
    }
  }

  lemma PointedSane(l: Loop, slot: nat, events: Mask)
    requires Sane(l)
    ensures Sane(Pointed(l, slot, events))
  {
    var t := Pointed(l, slot, events);
    forall f | f in t.epoll
      ensures HasOpen(t.table, f)
    {
      OpenKept(l.table, t.table, f);
    }
  }

  lemma ClearedSane(l: Loop, n: nat)
    requires Sane(l) && n < |l.table|
    ensures Sane(Cleared(l, n))
  {
    var t := Cleared(l, n);
    forall f | f in t.epoll
      ensures HasOpen(t.table, f)
    {
      OpenKept(l.table, t.table, f);
    }
  }

  lemma RemovedSane(l: Loop, n: nat)
    requires Sane(l) && n < |l.table| && l.table[n].closing
    ensures Sane(Removed(l, n))
  {
    var t, last := Removed(l, n), |l.table| - 1;
    forall f | f in t.epoll
      ensures HasOpen(t.table, f)
    {
      var i :| 0 <= i < |l.table| && l.table[i].fd == f && !l.table[i].closing;
      var j := if i == last then n else i;
      assert t.table[j] == l.table[i];
    }
  }
}
