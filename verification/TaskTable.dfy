/** The task table and its operations in the form the kernel has them: fields
    updated in place by loops over the table, the queues and the waiter lists.
    Each method is proved equal to the step of `SchedSpec` it performs; `Execute` does
    any step of `SchedRuns` on the table and `Run` any sequence of them, with the run
    theorems as their contracts. */
module TaskTable {
  import opened ByteData
  import opened Wrappers
  import opened Tasks
  import opened SchedSpec
  import opened SchedSafety
  import opened SchedDeath
  import opened SchedRuns

  /** `VecDeque::retain` of everything but `id`. */
  method RetainQueue(q: seq<nat>, id: nat) returns (r: seq<nat>)
    ensures r == Retain(q, id)
    ensures multiset(r) == multiset(q)[id := 0]
  {
    r := [];
    for i := 0 to |q|
      invariant r == Retain(q[..i], id)
    {
      assert q[..i + 1][..i] == q[..i];
      if q[i] != id { r := r + [q[i]]; }
    }
    assert q[..|q|] == q;
    RetainCount(q, id);
  }

  lemma {:induction false} RemoveAllAt(q: Queues, id: nat, k: nat)
    requires k < |q|
    ensures RemoveAll(q, id)[k] == Retain(q[k], id)
  {
    if k > 0 { RemoveAllAt(q[1..], id, k - 1); }
  }

  lemma {:induction false} RemoveAllPrefix(q: Queues, id: nat, r: Queues)
    requires |r| == |q| && forall k :: 0 <= k < |q| ==> r[k] == Retain(q[k], id)
    ensures r == RemoveAll(q, id)
  {
    forall k | 0 <= k < |q| ensures r[k] == RemoveAll(q, id)[k] { RemoveAllAt(q, id, k); }
  }

  /** The table after the pass has reached id `n`. */
  ghost function ReleasedBelow(tasks: Table, tid: nat, n: nat): Table {
    map id | id in tasks :: if id < n then Released(tasks[id], tid) else tasks[id]
  }

  lemma ReleasedBelowNone(tasks: Table, tid: nat)
    ensures ReleasedBelow(tasks, tid, 0) == tasks
  {}

  lemma ReleasedBelowNext(tasks: Table, tid: nat, n: nat)
    ensures var t := ReleasedBelow(tasks, tid, n);
            && (n in t <==> n in tasks) && (n in t ==> t[n] == tasks[n])
            && ReleasedBelow(tasks, tid, n + 1) == if n in tasks then t[n := Released(tasks[n], tid)] else t
  {}

  lemma ExitSendersIs(s: Sched, tid: nat)
    ensures var ids := Select(s.tasks, s.nextId, SendingTo(tid));
            var tasks' := ReleaseAll(s.tasks, tid);
            ExitSenders(s, tid) == s.(tasks := tasks', ready := PushAll(s.ready, tasks', ids),
                                      place := FailEach(s, ids).place, log := FailEach(s, ids).log)
  {
    FailEachFrame(s, Select(s.tasks, s.nextId, SendingTo(tid)));
  }

  lemma ReleasedBelowAll(tasks: Table, tid: nat, n: nat)
    requires forall id :: id in tasks ==> id < n
    ensures ReleasedBelow(tasks, tid, n) == ReleaseAll(tasks, tid)
  {}

  lemma FailEachSnoc(s: Sched, ids: seq<nat>, id: nat)
    requires id in s.tasks && s.tasks[id].state.Sending?
    ensures var s1, s', mid := FailEach(s, ids), FailEach(s, ids + [id]), s.tasks[id].state.mid;
            && s'.place == (if mid < |s1.place| then s1.place[mid := Logged(|s1.log|)] else s1.place)
            && s'.log == s1.log + [Failed(mid, id)]
  {
    assert (ids + [id])[..|ids|] == ids;
  }

  /** A frozen task whose message queue is full. */
  predicate Saturated(t: Task) {
    t.state.Frozen? && |t.pendingMsgs| >= HOTSWAP_MSG_QUEUE_DEPTH
  }

  /** When a send is refused, when it blocks, and what it adds to the accepted messages. */
  lemma SendMeans(s: Sched, caller: nat, target: nat, ptr: nat, len: nat)
    requires |s.place| == |s.accepted|
    ensures var (s', r) := Send(s, caller, target, ptr, len);
            && (r == Refused <==> target !in s.tasks || Saturated(s.tasks[target])) && (r == Refused ==> s' == s)
            && (r == Blocked <==> target in s.tasks && !s.tasks[target].state.Recv? && !s.tasks[target].state.Frozen?)
            && (r != Refused ==> s'.accepted == s.accepted + [Msg(caller, target, len, s.tasks[target].state.Frozen?)])
  {}

  lemma SpawnMeans(s: Sched)
    requires Inv(s)
    ensures Inv(Spawn(s)) && s.nextId !in s.tasks && Queued(Spawn(s).ready) == Queued(s.ready) + multiset{s.nextId}
  {
    SpawnKeeps(s);
    QueuedPush(s.ready, NORMAL, s.nextId);
  }

  /** A thaw queues a frozen task once and touches nothing else that is queued. */
  ghost predicate Stirred(s: Sched, s': Sched, tid: nat) {
    if tid in s.tasks && s.tasks[tid].state.Frozen?
    then Queued(s'.ready) == Queued(s.ready) + multiset{tid} && Queued(s'.ready)[tid] == 1
    else s' == s
  }

  lemma ThawMeans(s: Sched, tid: nat)
    requires Inv(s)
    ensures (Inv(Unfreeze(s, tid)) <==> ThawOk(s, tid)) && Stirred(s, Unfreeze(s, tid), tid)
  {
    ThawNeedsNoWaiter(s, tid);
    if tid in s.tasks && s.tasks[tid].state.Frozen? {
      QueuedPush(s.ready, s.tasks[tid].priority, tid);
      QueueInvMeans(s.tasks, s.ready, tid);
    }
  }

  class Scheduler {
    var tasks: Table
    var zombies: seq<Zombie>
    var nextId: nat
    var ready: Queues
    var current: nat
    var subs: map<nat, seq<nat>>
    var mem: Memory
    var netRx: bool
    var lastSweep: nat
    // History of message deliveries.
    var accepted: seq<Msg>
    var place: seq<Place>
    var log: seq<Outcome>

    function View(): Sched
      reads this
    {
      Sched(tasks, zombies, nextId, ready, current, subs, mem, netRx, lastSweep, accepted, place, log)
    }

    /** What the loops need: every task has an id below the counter. */
    ghost predicate Valid()
      reads this
    {
      && |place| == |accepted|
      && forall id :: id in tasks ==> id < nextId
    }

    constructor (memory: Memory)
      ensures Valid() && View() == Boot(memory) && Inv(View())
    {
      tasks, zombies, nextId := map[], [], 1;
      ready := seq(PRIORITIES, _ => []);
      current, subs, mem, netRx, lastSweep := 0, map[], memory, false, 0;
      accepted, place, log := [], [], [];
      new;
      BootInv(memory);
    }

    // ---- ready queues --------------------------------------------------

    method PushReady(id: nat)
      requires Valid()
      modifies `ready
      ensures Valid() && ready == Tasks.PushReady(old(ready), tasks, id)
    {
      var p := if id in tasks then tasks[id].priority else NORMAL;
      if p < |ready| { ready := ready[p := ready[p] + [id]]; }
    }

    method RemoveFromAll(id: nat)
      requires Valid()
      modifies `ready
      ensures Valid() && ready == RemoveAll(old(ready), id)
      ensures Queued(ready) == Queued(old(ready))[id := 0]
    {
      ghost var q := ready;
      for p := 0 to |ready|
        invariant |ready| == |q|
        invariant forall k :: 0 <= k < p ==> ready[k] == Retain(q[k], id)
        invariant forall k :: p <= k < |q| ==> ready[k] == q[k]
      {
        var r := RetainQueue(ready[p], id);
        ready := ready[p := r];
      }
      RemoveAllPrefix(q, id, ready);
      QueuedRemoveAll(q, id);
    }

    /** Pops the front of the highest non-empty queue. */
    method PickLocal() returns (r: Option<nat>)
      requires Valid()
      modifies `ready
      ensures Valid() && (r, ready) == Pop(old(ready))
    {
      r := None;
      var p := |ready|;
      while p > 0
        invariant 0 <= p <= |ready| && TopBelow(ready, |ready|) == TopBelow(ready, p)
      {
        p := p - 1;
        if ready[p] != [] {
          r := Some(ready[p][0]);
          ready := ready[p := ready[p][1..]];
          return;
        }
      }
    }

    /** Makes a live task Ready and queues it. */
    method MakeReady(id: nat)
      requires Valid() && id in tasks
      modifies `tasks, `ready
      ensures Valid() && View() == Wake(old(View()), id)
    {
      tasks := tasks[id := tasks[id].(state := Ready)];
      PushReady(id);
    }

    method PushEach(ids: seq<nat>)
      requires Valid()
      modifies `ready
      ensures Valid() && ready == PushAll(old(ready), tasks, ids)
    {
      ghost var q := ready;
      for i := 0 to |ids|
        invariant Valid() && ready == PushAll(q, tasks, ids[..i])
      {
        assert ids[..i + 1][..i] == ids[..i];
        PushReady(ids[i]);
      }
      assert ids[..|ids|] == ids;
    }

    method Spawn() returns (id: nat)
      requires Valid()
      modifies this
      ensures Valid() && View() == SchedSpec.Spawn(old(View())) && id == old(nextId)
      ensures Inv(old(View())) ==>
                && Inv(View()) && id !in old(tasks) && id in tasks
                && Queued(ready) == Queued(old(ready)) + multiset{id}
    {
      ghost var s := View();
      if Inv(s) { SpawnMeans(s); }
      id := nextId;
      tasks := tasks[id := NewTask()];
      nextId := nextId + 1;
      PushReady(id);
    }

    // ---- death ---------------------------------------------------------

    method Bury(tid: nat)
      requires Valid()
      modifies this
      ensures Valid() && View() == ExitRemove(old(View()), tid)
    {
      if tid in tasks {
        zombies := zombies + [Zombie(tid, tasks[tid].(waiters := []))];
        tasks := tasks - {tid};
      }
      RemoveFromAll(tid);
    }

    /** One pass over the table: release the senders, forget the caller. */
    method UnblockSenders(tid: nat) returns (toWake: seq<nat>)
      requires Valid()
      modifies `tasks, `place, `log
      ensures Valid() && toWake == Select(old(tasks), nextId, SendingTo(tid))
      ensures tasks == ReleaseAll(old(tasks), tid)
      ensures place == FailEach(old(View()), toWake).place && log == FailEach(old(View()), toWake).log
    {
      ghost var s := View();
      ReleasedBelowNone(s.tasks, tid);
      toWake := [];
      for id := 0 to nextId
        invariant toWake == Select(s.tasks, id, SendingTo(tid))
        invariant tasks == ReleasedBelow(s.tasks, tid, id)
        invariant place == FailEach(s, toWake).place && log == FailEach(s, toWake).log
      {
        toWake := VisitNext(id, tid, toWake, s);
      }
      ReleasedBelowAll(s.tasks, tid, nextId);
      FailEachFrame(s, toWake);
    }

    method VisitNext(id: nat, tid: nat, toWake: seq<nat>, ghost s: Sched) returns (toWake': seq<nat>)
      requires toWake == Select(s.tasks, id, SendingTo(tid)) && tasks == ReleasedBelow(s.tasks, tid, id)
      requires place == FailEach(s, toWake).place && log == FailEach(s, toWake).log
      modifies `tasks, `place, `log
      ensures toWake' == Select(s.tasks, id + 1, SendingTo(tid)) && tasks == ReleasedBelow(s.tasks, tid, id + 1)
      ensures place == FailEach(s, toWake').place && log == FailEach(s, toWake').log
    {
      ReleasedBelowNext(s.tasks, tid, id);
      if id in s.tasks && SendingTo(tid)(id, s.tasks[id]) { FailEachSnoc(s, toWake, id); }
      var hit := VisitSender(id, tid);
      toWake' := if hit then toWake + [id] else toWake;
    }

    method VisitSender(id: nat, tid: nat) returns (hit: bool)
      modifies `tasks, `place, `log
      ensures hit <==> id in old(tasks) && SendingTo(tid)(id, old(tasks)[id])
      ensures tasks == if id in old(tasks) then old(tasks)[id := Released(old(tasks)[id], tid)] else old(tasks)
      ensures !hit ==> place == old(place) && log == old(log)
      ensures hit ==> var mid := old(tasks)[id].state.mid;
                      && place == (if mid < |old(place)| then old(place)[mid := Logged(|old(log)|)] else old(place))
                      && log == old(log) + [Failed(mid, id)]
    {
      hit := id in tasks && tasks[id].state.Sending? && tasks[id].state.target == tid;
      if hit { FailSend(tasks[id].state.mid, id); }
      if id in tasks { ReleaseTask(id, tid); }
    }

    method ReleaseTask(id: nat, tid: nat)
      requires id in tasks
      modifies `tasks
      ensures tasks == old(tasks)[id := Released(old(tasks)[id], tid)]
    {
      var t := tasks[id];
      if t.state.Sending? && t.state.target == tid { t := t.(state := Ready, ret := USIZE_MAX); }
      if t.currentCaller == Some(tid) { t := t.(currentCaller := None); }
      tasks := tasks[id := t];
    }

    method FailSend(mid: nat, id: nat)
      modifies `place, `log
      ensures place == if mid < |old(place)| then old(place)[mid := Logged(|old(log)|)] else old(place)
      ensures log == old(log) + [Failed(mid, id)]
    {
      if mid < |place| { place := place[mid := Logged(|log|)]; }
      log := log + [Failed(mid, id)];
    }

    method ReleaseSenders(tid: nat)
      requires Valid()
      modifies this
      ensures Valid() && View() == ExitSenders(old(View()), tid)
    {
      ghost var s := View();
      var toWake := UnblockSenders(tid);
      FailEachFrame(s, toWake);
      PushEach(toWake);
      ExitSendersIs(s, tid);
    }

    method WakeWaiters(waiters: seq<nat>, reason: nat)
      requires Valid()
      modifies this
      ensures Valid() && View() == ExitWaiters(old(View()), waiters, reason)
    {
      ghost var s := View();
      for i := 0 to |waiters|
        invariant Valid() && View() == ExitWaiters(s, waiters[..i], reason)
      {
        assert waiters[..i + 1][..i] == waiters[..i];
        var w := waiters[i];
        if w in tasks {
          tasks := tasks[w := tasks[w].(state := Ready, replyValue := Some(reason))];
          PushReady(w);
        }
      }
      assert waiters[..|waiters|] == waiters;
    }

    method NotifyWatchers(tid: nat, reason: nat)
      requires Valid()
      modifies this
      ensures Valid() && View() == ExitWatchers(old(View()), tid, reason)
    {
      ghost var s := View();
      var watchers := if tid in subs then subs[tid] else [];
      subs := subs - {tid};
      var woken := [];
      for i := 0 to |watchers|
        invariant Valid() && View() == s.(tasks := tasks, subs := s.subs - {tid})
        invariant (tasks, woken) == NotifyEach(s.tasks, watchers[..i], tid, reason)
      {
        assert watchers[..i + 1][..i] == watchers[..i];
        var w := watchers[i];
        if w in tasks {
          var t := tasks[w];
          if t.state.Recv? {
            tasks := tasks[w := t.(currentCaller := Some(tid), pendingExitReason := Some(reason), state := Ready)];
            woken := woken + [w];
          } else {
            tasks := tasks[w := t.(pendingDeaths := t.pendingDeaths + [(tid, reason)])];
          }
        }
      }
      assert watchers[..|watchers|] == watchers;
      PushEach(woken);
    }

    method ExitTask(tid: nat, reason: nat)
      requires Valid()
      modifies this
      ensures Valid() && View() == Exit(old(View()), tid, reason)
    {
      ghost var s := View();
      var waiters := if tid in tasks then tasks[tid].waiters else [];
      Bury(tid);
      ReleaseSenders(tid);
      WakeWaiters(waiters, reason);
      NotifyWatchers(tid, reason);
    }

    method TakeReapableZombies() returns (reap: seq<Zombie>)
      requires Valid()
      modifies `zombies
      ensures Valid() && (reap, zombies) == Reapable(old(zombies), current)
      ensures multiset(reap) + multiset(zombies) == multiset(old(zombies))
      ensures forall z :: z in reap ==> z.id != current
    {
      ghost var zs := zombies;
      ReapableSpec(zombies, current);
      var keep := [];
      reap := [];
      for i := 0 to |zombies|
        invariant (reap, keep) == Reapable(zombies[..i], current)
      {
        assert zombies[..i + 1][..i] == zombies[..i];
        if zombies[i].id == current { keep := keep + [zombies[i]]; } else { reap := reap + [zombies[i]]; }
      }
      assert zombies[..|zombies|] == zombies;
      zombies := keep;
    }

    // ---- scheduling ----------------------------------------------------

    method SweepTask(t0: Task, now: nat) returns (t: Task, wake: bool)
      modifies `netRx
      ensures (t, wake, netRx) == SweepOne(t0, now, old(netRx))
    {
      t, wake := t0, false;
      var timedOut := false;
      match t.state {
        case Sleeping(until) => wake := now >= until;
        case Recv(_, _, _, Some(d)) => wake := now >= d; timedOut := wake;
        case WaitEvent(wantNet, deadline) =>
          if wantNet && netRx {
            netRx := false;
            t := t.(ret := 1);
            wake := true;
          } else {
            wake := deadline.Some? && now >= deadline.value;
            timedOut := wake;
          }
        case _ =>
      }
      if wake {
        if timedOut { t := t.(ret := 0, deadlineMisses := SatAdd(t.deadlineMisses)); }
        t := t.(state := Ready);
      }
    }

    /** One pass of the timer sweep over the table. */
    method SweepTimers(now: nat)
      requires Valid()
      modifies this
      ensures Valid() && View() == Sweep(old(View()), now)
    {
      ghost var s := View();
      var woken := [];
      for id := 0 to nextId
        invariant View() == s.(tasks := tasks, netRx := netRx)
        invariant (tasks, woken, netRx) == SweepTasks(s.tasks, id, now, s.netRx)
      {
        SweepFrame(s.tasks, id, now, s.netRx);
        if id in tasks {
          var t, wake := SweepTask(tasks[id], now);
          tasks := tasks[id := t];
          if wake { woken := woken + [id]; }
        }
      }
      SweepFrame(s.tasks, nextId, now, s.netRx);
      PushEach(woken);
    }

    method HungTasks(now: nat) returns (hung: seq<nat>)
      requires Valid()
      ensures hung == Select(tasks, nextId, HeartbeatDue(now))
    {
      hung := [];
      for id := 0 to nextId
        invariant hung == Select(tasks, id, HeartbeatDue(now))
      {
        if id in tasks && tasks[id].heartbeat.Some? && now >= tasks[id].heartbeat.value { hung := hung + [id]; }
      }
    }

    /** Kills one more hung task, after the ones in `done`. */
    method KillTask(tid: nat, ghost s: Sched, ghost done: seq<nat>)
      requires Valid() && View() == KillEach(s, done)
      modifies this
      ensures Valid() && View() == KillEach(s, done + [tid])
    {
      assert (done + [tid])[..|done|] == done;
      ExitTask(tid, USIZE_MAX);
      if current == tid { current := 0; }
    }

    method SweepHeartbeats(now: nat)
      requires Valid()
      modifies this
      ensures Valid() && View() == KillHung(old(View()), now)
    {
      var hung := HungTasks(now);
      KillTasks(hung);
    }

    method KillTasks(hung: seq<nat>)
      requires Valid()
      modifies this
      ensures Valid() && View() == KillEach(old(View()), hung)
    {
      ghost var s := View();
      for i := 0 to |hung|
        invariant Valid() && View() == KillEach(s, hung[..i])
      {
        KillTask(hung[i], s, hung[..i]);
        assert hung[..i] + [hung[i]] == hung[..i + 1];
      }
      assert hung[..|hung|] == hung;
    }

    /** The outgoing task: requeue it, kill it, or reset its counter. */
    method PreemptCurrent()
      requires Valid()
      modifies this
      ensures Valid() && View() == Preempt(old(View()))
    {
      var cid := current;
      if cid > 0 && cid in tasks {
        var t := tasks[cid];
        if t.state != Running {
          tasks := tasks[cid := t.(runTicks := 0)];
        } else {
          var kill := false;
          if t.priority >= REAL_TIME {
            t := t.(runTicks := SatAdd(t.runTicks));
            tasks := tasks[cid := t];
            kill := t.runTicks > WATCHDOG_BUDGET_TICKS;
          }
          if kill {
            ExitTask(cid, USIZE_MAX);
            current := 0;
          } else {
            MakeReady(cid);
          }
        }
      }
    }

    method SelectNext()
      requires Valid()
      modifies this
      ensures Valid() && View() == Dispatch(old(View()))
    {
      var next := PickLocal();
      match next {
        case None => current := 0;
        case Some(nid) =>
          if nid in tasks { tasks := tasks[nid := tasks[nid].(state := Running)]; }
          current := nid;
      }
    }

    method PickNext(now: nat)
      requires Valid()
      modifies this
      ensures Valid() && View() == SchedSpec.PickNext(old(View()), now)
    {
      ghost var s := View();
      if now > lastSweep || netRx {
        if now > lastSweep { lastSweep := now; }
        SweepTimers(now);
        SweepHeartbeats(now);
      }
      PreemptCurrent();
      SelectNext();
    }

    // ---- messages ------------------------------------------------------

    /** Copies into a parked receiver's buffer and makes it Ready. */
    method Deliver(from: nat, to: nat, data: seq<Byte>, mid: nat)
      requires Valid() && to in tasks && tasks[to].state.Recv? && mid < |place|
      modifies this
      ensures Valid() && View() == HandOver(old(View()), from, to, data, mid)
    {
      var st := tasks[to].state;
      var sent := data[..Min(|data|, st.bufLen)];
      mem := Store(mem, st.bufPtr, sent);
      place := place[mid := Logged(|log|)];
      log := log + [Delivered(mid, from, to, sent)];
      tasks := tasks[to := tasks[to].(currentCaller := Some(from))];
      MakeReady(to);
    }

    method IpcSend(caller: nat, target: nat, ptr: nat, len: nat) returns (r: SendResult)
      requires Valid()
      modifies this
      ensures Valid() && (View(), r) == Send(old(View()), caller, target, ptr, len)
      ensures r == Refused <==> target !in old(tasks) || Saturated(old(tasks)[target])
      ensures r == Refused ==> View() == old(View())
      ensures r == Blocked <==> target in old(tasks) && !old(tasks)[target].state.Recv? && !old(tasks)[target].state.Frozen?
      ensures r != Refused ==> accepted == old(accepted) + [Msg(caller, target, len, old(tasks)[target].state.Frozen?)]
      ensures Inv(old(View())) && (caller in old(tasks) ==> old(tasks)[caller].state == Running) ==> Inv(View())
    {
      ghost var s := View();
      SendMeans(s, caller, target, ptr, len);
      if Inv(s) && (caller in tasks ==> tasks[caller].state == Running) { SendKeeps(s, caller, target, ptr, len); }
      r := PassMessage(caller, target, ptr, len);
    }

    method PassMessage(caller: nat, target: nat, ptr: nat, len: nat) returns (r: SendResult)
      requires Valid()
      modifies this
      ensures Valid() && (View(), r) == Send(old(View()), caller, target, ptr, len)
    {
      if target !in tasks { return Refused; }
      var t := tasks[target];
      var mid := |accepted|;
      if t.state.Frozen? {
        if |t.pendingMsgs| >= HOTSWAP_MSG_QUEUE_DEPTH { return Refused; }
        var pm := PendingMsg(caller, Bytes(mem, ptr, len), mid);
        tasks := tasks[target := t.(pendingMsgs := t.pendingMsgs + [pm])];
        accepted, place := accepted + [Msg(caller, target, len, true)], place + [InQueue(target)];
        r := Sent;
      } else if t.state.Recv? {
        accepted, place := accepted + [Msg(caller, target, len, false)], place + [Gone];
        Deliver(caller, target, Bytes(mem, ptr, len), mid);
        r := Sent;
      } else {
        accepted, place := accepted + [Msg(caller, target, len, false)], place + [if caller in tasks then InSender(caller) else Gone];
        if caller in tasks { tasks := tasks[caller := tasks[caller].(state := Sending(target, ptr, len, mid))]; }
        r := Blocked;
      }
    }

    /** The first task, in id order, blocked sending to `target`. */
    method FindSender(target: nat) returns (r: Option<nat>)
      requires Valid()
      ensures r == FirstSender(View(), target)
      ensures r.Some? ==> r.value in tasks && tasks[r.value].state.Sending? && tasks[r.value].state.target == target
      ensures r.None? ==> forall id :: id in tasks && tasks[id].state.Sending? ==> tasks[id].state.target != target
    {
      SelectSpec(tasks, nextId, SendingTo(target));
      for id := 0 to nextId
        invariant Select(tasks, id, SendingTo(target)) == []
      {
        if id in tasks && tasks[id].state.Sending? && tasks[id].state.target == target {
          SelectFirst(tasks, nextId, SendingTo(target), id);
          return Some(id);
        }
      }
      return None;
    }

    method TakeMessage(caller: nat, buf: nat, len: nat, sender: nat)
      requires Valid() && sender in tasks && tasks[sender].state.Sending?
      modifies this
      ensures Valid() && View() == TakeFrom(old(View()), caller, buf, len, sender)
    {
      var st := tasks[sender].state;
      var data := Bytes(mem, st.msgPtr, Min(st.msgLen, len));
      mem := Store(mem, buf, data);
      if st.mid < |place| { place := place[st.mid := Logged(|log|)]; }
      log := log + [Delivered(st.mid, sender, caller, data)];
      MakeReady(sender);
      if caller in tasks { tasks := tasks[caller := tasks[caller].(currentCaller := Some(sender))]; }
    }

    method IpcRecv(caller: nat, mask: nat, buf: nat, len: nat) returns (r: nat)
      requires Valid()
      modifies this
      ensures Valid() && (View(), r) == Receive(old(View()), caller, mask, buf, len)
    {
      ghost var s := View();
      var from := FindSender(caller);
      if from.Some? {
        TakeMessage(caller, buf, len, from.value);
        r := from.value;
      } else {
        if caller in tasks { tasks := tasks[caller := tasks[caller].(state := Recv(mask, buf, len, None))]; }
        r := 0;
      }
    }

    method IpcTryRecv(caller: nat, buf: nat, len: nat) returns (r: nat)
      requires Valid()
      modifies this
      ensures Valid() && (View(), r) == TryReceive(old(View()), caller, buf, len)
    {
      ghost var s := View();
      var from := FindSender(caller);
      if from.Some? {
        TakeMessage(caller, buf, len, from.value);
        r := from.value;
      } else {
        r := 0;
      }
    }

    method IpcRecvUntil(caller: nat, mask: nat, buf: nat, len: nat, deadline: nat) returns (r: nat)
      requires Valid()
      modifies this
      ensures Valid() && (View(), r) == ReceiveUntil(old(View()), caller, mask, buf, len, deadline)
    {
      r := IpcRecv(caller, mask, buf, len);
      if r == 0 && caller in tasks && tasks[caller].state.Recv? {
        tasks := tasks[caller := tasks[caller].(state := tasks[caller].state.(deadline := Some(deadline)))];
      }
    }

    /** The `Recv` call: death notices and buffered messages come before the scan. */
    method SysRecv(caller: nat, mask: nat, buf: nat, len: nat) returns (r: nat)
      requires Valid()
      modifies this
      ensures Valid() && (View(), r) == SysReceive(old(View()), caller, mask, buf, len)
    {
      if caller in tasks && tasks[caller].pendingDeaths != [] {
        var t := tasks[caller];
        var (dead, reason) := t.pendingDeaths[0];
        tasks := tasks[caller := t.(pendingDeaths := t.pendingDeaths[1..])];
        mem := StoreReason(mem, buf, len, reason);
        r := dead;
      } else if caller in tasks && tasks[caller].pendingMsgs != [] {
        r := PopPending(caller, buf, len);
      } else {
        r := IpcRecv(caller, mask, buf, len);
      }
    }

    method PopPending(caller: nat, buf: nat, len: nat) returns (r: nat)
      requires Valid() && caller in tasks && tasks[caller].pendingMsgs != [] && tasks[caller].pendingDeaths == []
      modifies this
      ensures Valid() && forall mask :: (View(), r) == SysReceive(old(View()), caller, mask, buf, len)
    {
      var t := tasks[caller];
      var m := t.pendingMsgs[0];
      var data := m.data[..Min(|m.data|, len)];
      tasks := tasks[caller := t.(pendingMsgs := t.pendingMsgs[1..], currentCaller := Some(m.sender))];
      mem := Store(mem, buf, data);
      if m.mid < |place| { place := place[m.mid := Logged(|log|)]; }
      log := log + [Delivered(m.mid, m.sender, caller, data)];
      r := m.sender;
    }

    method IpcReply(caller: nat, result: nat)
      requires Valid()
      modifies this
      ensures Valid() && View() == Reply(old(View()), caller, result)
      ensures Inv(old(View())) ==> (Inv(View()) <==> ReplyOk(old(View()), caller))
    {
      ghost var s := View();
      if Inv(s) { ReplyNeedsBlockedCaller(s, caller, result); }
      if caller !in tasks || tasks[caller].currentCaller.None? { return; }
      var tid := tasks[caller].currentCaller.value;
      if tid in tasks { tasks := tasks[tid := tasks[tid].(state := Ready, replyValue := Some(result))]; }
      PushReady(tid);
      tasks := tasks[caller := tasks[caller].(currentCaller := None)];
    }

    // ---- futex, wait, freeze -------------------------------------------

    method WaitOnFutex(caller: nat, addr: nat, val: nat) returns (ok: bool)
      requires Valid()
      modifies `tasks
      ensures Valid() && (View(), ok) == DoFutexWait(old(View()), caller, addr, val)
    {
      if ReadU32(mem, addr) != val || caller !in tasks { return false; }
      tasks := tasks[caller := tasks[caller].(state := FutexWait(addr))];
      return true;
    }

    method FutexWaiters(addr: nat, count: nat) returns (ids: seq<nat>)
      requires Valid()
      ensures ids == FutexChosen(View(), addr, count)
    {
      ids := [];
      for id := 0 to nextId
        invariant ids == Select(tasks, id, FutexWaitingOn(addr))
        invariant |ids| < count || ids == []
      {
        if id in tasks && tasks[id].state == FutexWait(addr) {
          ids := ids + [id];
          if |ids| >= count {
            SelectPrefix(tasks, id + 1, nextId, FutexWaitingOn(addr));
            return;
          }
        }
      }
    }

    method WakeFutex(addr: nat, count: nat) returns (woken: nat)
      requires Valid()
      modifies this
      ensures Valid() && (View(), woken) == DoFutexWake(old(View()), addr, count)
    {
      ghost var s := View();
      var ids := FutexWaiters(addr, count);
      for i := 0 to |ids|
        invariant Valid() && View() == WakeEach(s, ids[..i])
      {
        assert ids[..i + 1][..i] == ids[..i];
        if ids[i] in tasks {
          MakeReady(ids[i]);
        }
      }
      assert ids[..|ids|] == ids;
      woken := |ids|;
    }

    method Wait(caller: nat, pid: nat) returns (ok: bool)
      requires Valid()
      modifies `tasks
      ensures Valid() && (View(), ok) == DoWait(old(View()), caller, pid)
    {
      ghost var s := View();
      if pid !in tasks { return false; }
      tasks := tasks[pid := tasks[pid].(waiters := tasks[pid].waiters + [caller])];
      if caller in tasks { tasks := tasks[caller := tasks[caller].(state := Waiting(pid))]; }
      return true;
    }

    method Sleep(until: nat)
      requires Valid()
      modifies `tasks
      ensures Valid() && View() == DoSleep(old(View()), until)
    {
      if current in tasks { tasks := tasks[current := tasks[current].(state := Sleeping(until))]; }
    }

    method AwaitEvent(caller: nat, wantNet: bool, deadline: Option<nat>) returns (parked: bool)
      requires Valid()
      modifies `tasks, `netRx
      ensures Valid() && (View(), parked) == DoWaitEvent(old(View()), caller, wantNet, deadline)
    {
      if wantNet && netRx {
        netRx := false;
        return false;
      }
      if caller in tasks { tasks := tasks[caller := tasks[caller].(state := WaitEvent(wantNet, deadline))]; }
      return true;
    }

    method WatchExit(caller: nat, watched: nat)
      requires Valid()
      modifies `tasks, `subs
      ensures Valid() && View() == NotifyOnExit(old(View()), caller, watched)
    {
      if watched in tasks {
        subs := subs[watched := (if watched in subs then subs[watched] else []) + [caller]];
      } else if caller in tasks {
        tasks := tasks[caller := tasks[caller].(pendingDeaths := tasks[caller].pendingDeaths + [(watched, 0)])];
      }
    }

    method ChangePriority(id: nat, p: nat)
      requires Valid()
      modifies `tasks
      ensures Valid() && View() == SetPriority(old(View()), id, p)
    {
      if id in tasks { tasks := tasks[id := tasks[id].(priority := p)]; }
    }

    method Beat(d: Option<nat>)
      requires Valid()
      modifies `tasks
      ensures Valid() && View() == SetHeartbeat(old(View()), current, d)
    {
      if current in tasks { tasks := tasks[current := tasks[current].(heartbeat := d)]; }
    }

    method FreezeTask(tid: nat, swapId: nat) returns (ok: bool)
      requires Valid()
      modifies this
      ensures Valid() && (View(), ok) == Freeze(old(View()), tid, swapId)
      ensures ok <==> tid in old(tasks)
      ensures ok ==> Queued(ready) == Queued(old(ready))[tid := 0]
      ensures Inv(old(View())) ==> Inv(View())
    {
      ghost var s := View();
      if Inv(s) { FreezeKeeps(s, tid, swapId); }
      if tid !in tasks { return false; }
      tasks := tasks[tid := tasks[tid].(state := Frozen(swapId, Awaits(tasks[tid].state)))];
      RemoveFromAll(tid);
      return true;
    }

    method UnfreezeTask(tid: nat)
      requires Valid()
      modifies this
      ensures Valid() && View() == Unfreeze(old(View()), tid)
      ensures Inv(old(View())) ==> (Inv(View()) <==> ThawOk(old(View()), tid)) && Stirred(old(View()), View(), tid)
    {
      ghost var s := View();
      if Inv(s) { ThawMeans(s, tid); }
      if tid in tasks && tasks[tid].state.Frozen? {
        MakeReady(tid);
      }
    }
  }

  // ---- any step, any run -----------------------------------------------

  method ExecuteMessage(sched: Scheduler, l: Label)
    requires sched.Valid() && (l.LSend? || l.LKernelSend? || l.LReply?)
    modifies sched
    ensures sched.Valid() && sched.View() == Step(old(sched.View()), l)
  {
    var caller := sched.current;
    match l {
      case LSend(target, ptr, len) => var _ := sched.IpcSend(caller, target, ptr, len);
      case LKernelSend(target, ptr, len) => var _ := sched.IpcSend(0, target, ptr, len);
      case LReply(result) => sched.IpcReply(caller, result);
    }
  }

  method ExecuteReceive(sched: Scheduler, l: Label)
    requires sched.Valid() && (l.LRecv? || l.LRecvUntil? || l.LTryRecv?)
    modifies sched
    ensures sched.Valid() && sched.View() == Step(old(sched.View()), l)
  {
    var caller := sched.current;
    match l {
      case LRecv(mask, buf, len) => var _ := sched.SysRecv(caller, mask, buf, len);
      case LRecvUntil(mask, buf, len, d) => ExecuteRecvUntil(sched, mask, buf, len, d);
      case LTryRecv(buf, len) => var _ := sched.IpcTryRecv(caller, buf, len);
    }
  }

  method ExecuteRecvUntil(sched: Scheduler, mask: nat, buf: nat, len: nat, d: nat)
    requires sched.Valid()
    modifies sched
    ensures sched.Valid() && sched.View() == Step(old(sched.View()), LRecvUntil(mask, buf, len, d))
  {
    var _ := sched.IpcRecvUntil(sched.current, mask, buf, len, d);
  }

  method ExecuteFutexWake(sched: Scheduler, addr: nat, count: nat)
    requires sched.Valid()
    modifies sched
    ensures sched.Valid() && sched.View() == Step(old(sched.View()), LFutexWake(addr, count))
  {
    var _ := sched.WakeFutex(addr, count);
  }

  method ExecuteBlocking(sched: Scheduler, l: Label)
    requires sched.Valid() && (l.LFutexWait? || l.LFutexWake? || l.LWait? || l.LSleep?)
    modifies sched
    ensures sched.Valid() && sched.View() == Step(old(sched.View()), l)
  {
    var caller := sched.current;
    match l {
      case LFutexWait(addr, val) => var _ := sched.WaitOnFutex(caller, addr, val);
      case LFutexWake(addr, count) => ExecuteFutexWake(sched, addr, count);
      case LWait(pid) => var _ := sched.Wait(caller, pid);
      case LSleep(until) => sched.Sleep(until);
    }
  }

  method ExecuteNote(sched: Scheduler, l: Label)
    requires sched.Valid() && (l.LWaitEvent? || l.LNotifyOnExit? || l.LHeartbeat?)
    modifies sched
    ensures sched.Valid() && sched.View() == Step(old(sched.View()), l)
  {
    var caller := sched.current;
    match l {
      case LWaitEvent(wantNet, d) => var _ := sched.AwaitEvent(caller, wantNet, d);
      case LNotifyOnExit(watched) => sched.WatchExit(caller, watched);
      case LHeartbeat(d) => sched.Beat(d);
    }
  }

  method ExecuteKernel(sched: Scheduler, l: Label)
    requires sched.Valid() && (l.LSpawn? || l.LExit? || l.LPickNext?)
    modifies sched
    ensures sched.Valid() && sched.View() == Step(old(sched.View()), l)
  {
    match l {
      case LSpawn => var _ := sched.Spawn();
      case LExit(tid, reason) => ExecuteExit(sched, tid, reason);
      case LPickNext(now) => ExecutePick(sched, now);
    }
  }

  method ExecuteExit(sched: Scheduler, tid: nat, reason: nat)
    requires sched.Valid()
    modifies sched
    ensures sched.Valid() && sched.View() == Step(old(sched.View()), LExit(tid, reason))
  {
    sched.ExitTask(tid, reason);
  }

  method ExecutePick(sched: Scheduler, now: nat)
    requires sched.Valid()
    modifies sched
    ensures sched.Valid() && sched.View() == Step(old(sched.View()), LPickNext(now))
  {
    sched.PickNext(now);
  }

  method ExecuteSwap(sched: Scheduler, l: Label)
    requires sched.Valid() && (l.LFreeze? || l.LUnfreeze?)
    modifies sched
    ensures sched.Valid() && sched.View() == Step(old(sched.View()), l)
  {
    match l {
      case LFreeze(tid, swapId) => var _ := sched.FreezeTask(tid, swapId);
      case LUnfreeze(tid) => sched.UnfreezeTask(tid);
    }
  }

  method ExecuteAmbient(sched: Scheduler, l: Label)
    requires sched.Valid() && (l.LSetPriority? || l.LNetRx? || l.LWrite? || l.LReap?)
    modifies sched
    ensures sched.Valid() && sched.View() == Step(old(sched.View()), l)
  {
    match l {
      case LSetPriority(id, p) => sched.ChangePriority(id, p);
      case LNetRx => sched.netRx := true;
      case LWrite(addr, b) => sched.mem := Store(sched.mem, addr, [b]);
      case LReap => var _ := sched.TakeReapableZombies();
    }
  }

  /** Any enabled step, done by the loops and updates of the table, is the modelled step
      and keeps every invariant. */
  method Execute(sched: Scheduler, l: Label)
    requires sched.Valid() && Inv(sched.View()) && Enabled(sched.View(), l)
    modifies sched
    ensures sched.Valid() && sched.View() == Step(old(sched.View()), l) && Inv(sched.View())
  {
    StepKeeps(sched.View(), l);
    match l {
      case LSend(_, _, _) | LKernelSend(_, _, _) | LReply(_) => ExecuteMessage(sched, l);
      case LRecv(_, _, _) | LRecvUntil(_, _, _, _) | LTryRecv(_, _) => ExecuteReceive(sched, l);
      case LSpawn | LExit(_, _) | LPickNext(_) => ExecuteKernel(sched, l);
      case LFreeze(_, _) | LUnfreeze(_) => ExecuteSwap(sched, l);
      case LSetPriority(_, _) | LNetRx | LWrite(_, _) | LReap => ExecuteAmbient(sched, l);
      case LWaitEvent(_, _) | LNotifyOnExit(_) | LHeartbeat(_) => ExecuteNote(sched, l);
      case _ => ExecuteBlocking(sched, l);
    }
  }

  /** The state after one label, which counts only if it is enabled. */
  ghost function TryStep(s: Sched, l: Label): Sched {
    if |s.place| == |s.accepted| && Enabled(s, l) then Step(s, l) else s
  }

  ghost function RunSteps(s: Sched, ls: seq<Label>): Sched
    decreases |ls|
  {
    if ls == [] then s else TryStep(RunSteps(s, ls[..|ls| - 1]), ls[|ls| - 1])
  }

  /** A step if it is enabled, on a table reached by the labels taken so far. */
  method Attempt(sched: Scheduler, l: Label, ghost memory: Memory, taken: seq<Label>) returns (taken': seq<Label>)
    requires sched.Valid() && Inv(sched.View()) && Reaches(memory, taken, sched.View())
    modifies sched
    ensures sched.Valid() && Inv(sched.View()) && Reaches(memory, taken', sched.View())
    ensures sched.View() == TryStep(old(sched.View()), l)
    ensures taken' == if Enabled(old(sched.View()), l) then taken + [l] else taken
  {
    taken' := taken;
    if Enabled(sched.View(), l) {
      ReachesNext(memory, taken, sched.View(), l);
      Execute(sched, l);
      taken' := taken + [l];
    }
  }

  /** A table driven from boot by any labels, each taken if it is enabled: the table is in
      a reachable state, every Ready task is queued exactly once and nothing else is,
      only the current task runs, and no message has two outcomes. */
  method Run(memory: Memory, labels: seq<Label>) returns (sched: Scheduler, taken: seq<Label>)
    ensures fresh(sched) && sched.Valid() && sched.View() == RunSteps(Boot(memory), labels)
    ensures Reaches(memory, taken, sched.View())
    ensures forall id: nat ::
              Queued(sched.ready)[id] == if id in sched.tasks && sched.tasks[id].state == Ready then 1 else 0
    ensures forall id :: id in sched.tasks && sched.tasks[id].state == Running ==> id == sched.current
    ensures forall i, j :: 0 <= i < j < |sched.log| ==> sched.log[i].mid != sched.log[j].mid
  {
    sched := new Scheduler(memory);
    BootInv(memory);
    taken := Drive(sched, memory, labels);
    QueuesAreExact(memory, taken, sched.View());
    MessagesAreExact(memory, taken, sched.View());
  }

  method Drive(sched: Scheduler, memory: Memory, labels: seq<Label>) returns (taken: seq<Label>)
    requires sched.Valid() && sched.View() == Boot(memory) && Inv(sched.View())
    modifies sched
    ensures sched.Valid() && sched.View() == RunSteps(Boot(memory), labels)
    ensures Reaches(memory, taken, sched.View())
  {
    taken := [];
    for k := 0 to |labels|
      invariant sched.Valid() && Inv(sched.View())
      invariant sched.View() == RunSteps(Boot(memory), labels[..k]) && Reaches(memory, taken, sched.View())
    {
      assert labels[..k + 1][..k] == labels[..k];
      taken := Attempt(sched, labels[k], memory, taken);
    }
    assert labels[..|labels|] == labels;
  }

  // ---- scans that stop early -------------------------------------------

  lemma {:induction false} SelectPrefix(tasks: Table, k: nat, n: nat, want: (nat, Task) -> bool)
    requires k <= n
    ensures Select(tasks, k, want) <= Select(tasks, n, want)
  {
    if k < n { SelectPrefix(tasks, k, n - 1, want); }
  }

  lemma SelectFirst(tasks: Table, n: nat, want: (nat, Task) -> bool, id: nat)
    requires id < n && id in tasks && want(id, tasks[id]) && Select(tasks, id, want) == []
    ensures Select(tasks, n, want) != [] && Select(tasks, n, want)[0] == id
  {
    SelectPrefix(tasks, id + 1, n, want);
    assert Select(tasks, id + 1, want) == [id];
  }
}
