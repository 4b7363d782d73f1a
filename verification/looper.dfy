// The Looper object of qemud (android/qemud/qemud.c): the hooks are in an array that
// grows, and the kernel holds the addresses of its elements.
module LooperObject {
  import opened EventLoop
  import Seqs

  // The address of a hook: an array and an index into it.
  datatype Entry = Entry(mask: Mask, base: array<Hook>, slot: nat)

  // The round that began with start is at slot n of l, after the calls of log.
  ghost predicate InRound(start: Loop, l: Loop, n: nat, log: seq<int>, plan: seq<seq<Op>>) {
    && |log| <= |plan| && |plan| == |log| + |Pending(l.table, n)|
    && Called(l, n, plan[|log|..]) == Called(start, 0, plan)
    && log + Pending(l.table, n) == Pending(start.table, 0)
  }

  lemma CallNext(start: Loop, l: Loop, n: nat, log: seq<int>, plan: seq<seq<Op>>)
    requires InRound(start, l, n, log, plan) && n < |l.table| && l.table[n].pending
    ensures |log| < |plan|
    ensures InRound(start, DidAll(Cleared(l, n), plan[|log|]), n + 1, log + [l.table[n].fd], plan)
  {
    var k := |log|;
    CallStep(l, n, plan[k]);
    assert plan[k..][0] == plan[k] && plan[k..][1..] == plan[k + 1..];
    assert log + ([l.table[n].fd] + Pending(l.table, n + 1)) == log + [l.table[n].fd] + Pending(l.table, n + 1);
  }

  lemma SkipNext(start: Loop, l: Loop, n: nat, log: seq<int>, plan: seq<seq<Op>>)
    requires InRound(start, l, n, log, plan) && n < |l.table| && !l.table[n].pending
    ensures InRound(start, l, n + 1, log, plan)
  {
    assert [] + Pending(l.table, n + 1) == Pending(l.table, n + 1);
  }

  class Looper {
    var numFds: nat
    var hooks: array<Hook>               // max_fds is its length
    var epoll: map<int, Entry>

    ghost function Table(): seq<Hook>
      requires numFds <= hooks.Length
      reads this, hooks
    {
      hooks[..numFds]
    }

    ghost function Watched(): map<int, Registration>
      reads this
    {
      map fd | fd in epoll :: Registration(epoll[fd].mask, epoll[fd].slot)
    }

    ghost function Value(): Loop
      requires numFds <= hooks.Length
      reads this, hooks
    {
      Loop(Table(), Watched(), hooks.Length)
    }

    // Every address is in the present array.
    ghost predicate Valid()
      reads this, hooks
    {
      numFds <= hooks.Length && Sane(Value()) && forall fd :: fd in epoll ==> epoll[fd].base == hooks
    }

    // looper_init
    constructor ()
      ensures Valid() && Table() == [] && epoll == map[] && fresh(hooks)
    {
      numFds, epoll := 0, map[];
      hooks := new Hook[0];
    }

    // epoll_ctl(EPOLL_CTL_MOD) with the address of a hook
    method Modify(fd: int, mask: Mask, slot: nat)
      modifies this`epoll
      ensures Watched() == Modified(old(Watched()), fd, Registration(mask, slot))
      ensures epoll.Keys == old(epoll).Keys
      ensures forall f :: f in epoll ==>
                f in old(epoll) && epoll[f].base == if f == fd then hooks else old(epoll)[f].base
    {
      if fd in epoll {
        epoll := epoll[fd := Entry(mask, hooks, slot)];
      }
    }

    // looper_find: the slot of the first hook of a descriptor, or -1.
    method FindHook(fd: int) returns (slot: int)
      requires numFds <= hooks.Length
      ensures slot == Find(Table(), fd)
    {
      slot := 0;
      while slot < numFds
        invariant 0 <= slot <= numFds
        invariant forall i :: 0 <= i < slot ==> Table()[i].fd != fd
      {
        if hooks[slot].fd == fd {
          assert Table()[slot].fd == fd;
          return;
        }
        slot := slot + 1;
      }
      slot := -1;
    }

    // looper_grow: the hooks move to a larger array and every registration follows.
    method Grow()
      requires Valid()
      modifies this
      ensures Valid() && fresh(hooks) && hooks.Length > numFds == old(numFds)
      ensures Value() == Grown(old(Value()))
    {
      GrownSane(Value());
      Enlarge();
      Repoint();
    }

    // xrenew(l->hooks, new_max)
    method Enlarge()
      requires numFds <= hooks.Length
      modifies this`hooks
      ensures fresh(hooks) && hooks.Length == old(hooks.Length + hooks.Length / 2 + 4) && Table() == old(Table())
    {
      var bigger := new Hook[hooks.Length + hooks.Length / 2 + 4](_ => NewHook(-1, 0));
      forall i | 0 <= i < numFds {
        bigger[i] := hooks[i];
      }
      hooks := bigger;
    }

    // Every registration is made anew.
    method Repoint()
      requires numFds <= hooks.Length && forall fd :: fd in epoll ==> HasOpen(Table(), fd)
      modifies this`epoll
      ensures Watched() == Remapped(Table(), old(Watched()), numFds)
      ensures forall fd :: fd in epoll ==> epoll[fd].base == hooks
    {
      ghost var table, watched := Table(), Watched();
      var n := 0;
      while n < numFds
        invariant 0 <= n <= numFds
        invariant Watched() == Remapped(table, watched, n) && epoll.Keys == watched.Keys
        invariant forall i :: 0 <= i < n && table[i].fd in epoll ==> epoll[table[i].fd].base == hooks
      {
        assert hooks[n] == table[n];
        Modify(hooks[n].fd, hooks[n].wanted, n);
        n := n + 1;
      }
      forall fd | fd in epoll
        ensures epoll[fd].base == hooks
      {
        assert HasOpen(table, fd);
        var i :| 0 <= i < |table| && table[i].fd == fd;
      }
    }

    // looper_add
    method Add(fd: int, user: int)
      requires Valid()
      modifies this, hooks
      ensures Valid() && (hooks == old(hooks) || fresh(hooks))
      ensures Value() == AddFd(old(Value()), fd, user)
    {
      AddSane(Value(), fd, user);
      if numFds >= hooks.Length {
        Grow();
      }
      AddHook(fd, user);
    }

    method AddHook(fd: int, user: int)
      requires numFds < hooks.Length && forall f :: f in epoll ==> epoll[f].base == hooks
      modifies this`numFds, this`epoll, hooks
      ensures numFds <= hooks.Length && Table() == old(Table()) + [NewHook(fd, user)]
      ensures Watched() == if fd in old(Watched()) then old(Watched())
                           else old(Watched())[fd := Registration({}, old(numFds))]
      ensures forall f :: f in epoll ==> epoll[f].base == hooks
    {
      ghost var table := Table();
      hooks[numFds] := NewHook(fd, user);
      if fd !in epoll {
        epoll := epoll[fd := Entry({}, hooks, numFds)];
      }
      numFds := numFds + 1;
      assert Table() == table + [NewHook(fd, user)];
    }

    // looper_del
    method Del(fd: int)
      requires Valid()
      modifies this`epoll, hooks
      ensures Valid() && Value() == DelFd(old(Value()), fd)
    {
      ghost var l := Value();
      DidSane(l, Op.Del(fd));
      var slot := FindHook(fd);
      if slot < 0 {
        return;
      }
      hooks[slot] := hooks[slot].(closing := true);
      epoll := epoll - {fd};
      assert Table() == l.table[slot := l.table[slot].(closing := true)];
    }

    // The stores of looper_enable and looper_disable.
    method Set(slot: nat, wanted: Mask)
      requires slot < numFds <= hooks.Length && forall f :: f in epoll ==> epoll[f].base == hooks
      modifies this`epoll, hooks
      ensures Value() == SetWanted(old(Value()), slot, wanted)
      ensures forall f :: f in epoll ==> epoll[f].base == hooks
    {
      ghost var l := Value();
      hooks[slot] := hooks[slot].(wanted := wanted);
      Modify(hooks[slot].fd, wanted, slot);
      assert Table() == l.table[slot := l.table[slot].(wanted := wanted)];
    }

    // looper_enable
    method Enable(fd: int, events: Mask)
      requires Valid()
      modifies this`epoll, hooks
      ensures Valid() && Value() == EnableFd(old(Value()), fd, events)
    {
      DidSane(Value(), Op.Enable(fd, events));
      var slot := FindHook(fd);
      if slot >= 0 && events - hooks[slot].wanted != {} {
        Set(slot, hooks[slot].wanted + events);
      }
    }

    // looper_disable
    method Disable(fd: int, events: Mask)
      requires Valid()
      modifies this`epoll, hooks
      ensures Valid() && Value() == DisableFd(old(Value()), fd, events)
    {
      DidSane(Value(), Op.Disable(fd, events));
      var slot := FindHook(fd);
      if slot >= 0 && events * hooks[slot].wanted != {} {
        Set(slot, hooks[slot].wanted - events);
      }
    }

    // One call of a callback.
    method Do(op: Op)
      requires Valid()
      modifies this, hooks
      ensures Valid() && (hooks == old(hooks) || fresh(hooks)) && Value() == Did(old(Value()), op)
    {
      match op {
        case Add(fd, user) => Add(fd, user);
        case Del(fd) => Del(fd);
        case Enable(fd, events) => Enable(fd, events);
        case Disable(fd, events) => Disable(fd, events);
      }
    }

    // The calls of one callback, in order.
    method DoAll(ops: seq<Op>)
      requires Valid()
      modifies this, hooks
      ensures Valid() && (hooks == old(hooks) || fresh(hooks)) && Value() == DidAll(old(Value()), ops)
      decreases |ops|
    {
      if ops != [] {
        Do(ops[0]);
        DoAll(ops[1..]);
      }
    }

    // Clear the pending flag of a hook and run its callback.
    method Call(n: nat, ops: seq<Op>)
      requires Valid() && n < numFds
      modifies this, hooks
      ensures Valid() && (hooks == old(hooks) || fresh(hooks)) && Value() == DidAll(Cleared(old(Value()), n), ops)
    {
      ghost var l := Value();
      ClearedSane(l, n);
      hooks[n] := hooks[n].(pending := false);
      assert Table() == Cleared(l, n).table;
      DoAll(ops);
    }

    // The callbacks of a round: plan lists the calls each of them makes. The bound of the
    // loop is read again on every turn, since callbacks add hooks.
    method Dispatch(plan: seq<seq<Op>>) returns (log: seq<int>)
      requires Valid() && |plan| == |Pending(Table(), 0)|
      modifies this, hooks
      ensures Valid() && (hooks == old(hooks) || fresh(hooks))
      ensures Value() == Called(old(Value()), 0, plan) && log == Pending(old(Table()), 0)
    {
      ghost var start := Value();
      log := [];
      var n := 0;
      assert plan[0..] == plan;
      while n < numFds
        invariant Valid() && (hooks == old(hooks) || fresh(hooks))
        invariant InRound(start, Value(), n, log, plan)
        decreases |plan| - |log|, numFds - n
      {
        ghost var l := Value();
        assert hooks[n] == l.table[n];
        if hooks[n].pending {
          CallNext(start, l, n, log, plan);
          var fd, ops := hooks[n].fd, plan[|log|];
          Call(n, ops);
          log := log + [fd];
        } else {
          SkipNext(start, l, n, log, plan);
        }
        n := n + 1;
      }
    }

    // The last hook takes the slot of a closing one and its registration follows.
    method Remove(n: nat)
      requires Valid() && n < numFds && Table()[n].closing
      modifies this`numFds, this`epoll, hooks
      ensures Valid() && Value() == Removed(old(Value()), n)
    {
      ghost var l := Value();
      RemovedSane(l, n);
      hooks[n] := hooks[numFds - 1];
      assert hooks[n] == l.table[numFds - 1];
      numFds := numFds - 1;
      Modify(hooks[n].fd, hooks[n].wanted, n);
      assert Table() == Swept(l.table, n);
    }

    // Remove every hook that was closed; a slot that was filled is looked at again.
    method Sweep()
      requires Valid()
      modifies this`numFds, this`epoll, hooks
      ensures Valid() && Value() == SweptFrom(old(Value()), 0)
    {
      var n := 0;
      while n < numFds
        invariant Valid() && 0 <= n <= numFds
        invariant SweptFrom(Value(), n) == SweptFrom(old(Value()), 0)
        decreases numFds - n
      {
        if !hooks[n].closing {
          n := n + 1;
        } else {
          Remove(n);
        }
      }
    }

    // Mark a hook the kernel reports, through the pointer it holds. In a loop that is not
    // in a good state that can be behind the last hook, where the mark is lost.
    method MarkOne(r: Ready)
      requires Valid() && r.fd in epoll
      modifies hooks
      ensures Valid() && Value() == Pointed(old(Value()), epoll[r.fd].slot, r.events)
    {
      ghost var l := Value();
      var e := epoll[r.fd];
      PointedSane(l, e.slot, r.events);
      assert r.fd in l.epoll && e.slot < hooks.Length;
      e.base[e.slot] := e.base[e.slot].(pending := true, closing := false, events := r.events);
      assert Table() == Pointed(l, e.slot, r.events).table;
    }

    method Mark(ready: seq<Ready>)
      requires Valid() && forall k :: 0 <= k < |ready| ==> ready[k].fd in Watched()
      modifies hooks
      ensures Valid() && Value() == Marked(old(Value()), ready)
    {
      ghost var start := Value();
      var k := 0;
      while k < |ready|
        invariant 0 <= k <= |ready| && Valid() && Value() == Marked(start, ready[..k])
      {
        assert ready[..k + 1][..k] == ready[..k];
        MarkOne(ready[k]);
        k := k + 1;
      }
      assert ready[..k] == ready;
    }

    // One turn of looper_loop. From a good state the callbacks of the reported
    // descriptors run exactly once each, and no others.
    method Round(ready: seq<Ready>, plan: seq<seq<Op>>) returns (log: seq<int>)
      requires Valid() && forall k :: 0 <= k < |ready| ==> ready[k].fd in Watched()
      requires |plan| == |Pending(Marked(Value(), ready).table, 0)|
      modifies this, hooks
      ensures Valid() && (hooks == old(hooks) || fresh(hooks)) && Value() == RoundOf(old(Value()), ready, plan)
      ensures Good(old(Value())) && Reportable(ready, old(Watched())) ==>
                Seqs.NoDup(log) && |log| == |ready| && forall fd :: fd in log <==> Reported(fd, ready)
    {
      if Good(Value()) && Reportable(ready, Watched()) {
        RoundMarks(Value(), ready);
      }
      Mark(ready);
      log := Dispatch(plan);
      Sweep();
    }
  }
}
