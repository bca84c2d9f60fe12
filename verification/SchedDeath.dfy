/** Death of a task: what each stage of `exit_task` keeps, and the exactly-once
    delivery of death notices.
    Source: kernel/src/task/scheduler.rs, `exit_task` and `subscribe_death`. */
module SchedDeath {
  import opened ByteData
  import opened Wrappers
  import opened Tasks
  import opened SchedSpec
  import opened SchedSafety

  /** The state between the stages of an exit of `gone`: everything holds, except
      that `rest` are still blocked waiting for it and its watchers are still
      subscribed. */
  ghost predicate Burying(s: Sched, gone: nat, rest: seq<nat>) {
    && Base(s) && SendInv(s) && SubsInvBut(s, gone) && Messages(s) && |s.place| == |s.accepted|
    && gone !in s.tasks
    && WaitInvBut(s, gone, rest)
    && WaitersOk(s, gone, rest)
  }

  // ---- stage 1: bury ---------------------------------------------------

  lemma RemoveBase(s: Sched, tid: nat)
    requires Base(s)
    ensures Base(ExitRemove(s, tid))
  {
    RemoveTask(s.tasks, s.ready, tid);
    if tid !in s.tasks { assert s.tasks - {tid} == s.tasks; }
  }

  lemma RemoveWaits(s: Sched, tid: nat)
    requires Waits(s) && IdInv(s)
    ensures var s' := ExitRemove(s, tid);
            WaitInvBut(s', tid, WaitersOf(s, tid)) && WaitersOk(s', tid, WaitersOf(s, tid))
  {
    var s' := ExitRemove(s, tid);
    WaitsMean(s);
    forall pid | pid in s'.tasks
      ensures WaitersOk(s', pid, s'.tasks[pid].waiters)
    {
      assert WaitersOk(s, pid, s.tasks[pid].waiters);
    }
    if tid in s.tasks { assert WaitersOk(s, tid, s.tasks[tid].waiters); }
  }

  // ---- stage 2: release senders ----------------------------------------

  /** The table with the tasks of `ids` made Ready. */
  ghost function ReleaseSome(tasks: Table, ids: seq<nat>): Table {
    map id | id in tasks :: if id in ids then tasks[id].(state := Ready) else tasks[id]
  }

  ghost function FailedSoFar(s: Sched, ids: seq<nat>): Sched {
    FailEach(s, ids).(tasks := ReleaseSome(s.tasks, ids))
  }

  lemma {:induction false} FailEachFrame(s: Sched, ids: seq<nat>)
    ensures var s' := FailEach(s, ids);
            s' == s.(place := s'.place, log := s'.log) && |s'.place| == |s.place|
    decreases |ids|
  {
    if ids != [] { FailEachFrame(s, ids[..|ids| - 1]); }
  }

  /** Failing one more send. */
  lemma FailOne(s: Sched, ids: seq<nat>)
    requires ids != [] && Distinct(ids) && |s.place| == |s.accepted|
    requires ids[|ids| - 1] in s.tasks && s.tasks[ids[|ids| - 1]].state.Sending?
    requires Messages(FailedSoFar(s, ids[..|ids| - 1]))
    ensures Messages(FailedSoFar(s, ids))
  {
    var k := |ids| - 1;
    var id := ids[k];
    var s0, s' := FailedSoFar(s, ids[..k]), FailedSoFar(s, ids);
    FailEachFrame(s, ids[..k]);
    FailEachFrame(s, ids);
    assert id !in ids[..k];
    var mid := s.tasks[id].state.mid;
    MessagesMean(s0);
    assert SenderHolds(s0, id);
    forall x | x in s'.tasks
      ensures HoldsRest(s0, s', x, mid)
    {
      assert ids == ids[..k] + [id];
      assert SenderHolds(s0, x) && QueueHolds(s0, x);
      var q := s0.tasks[x].pendingMsgs;
      forall j | 0 <= j < |q| ensures q[j].mid != mid { assert PendingOk(s0, x, q[j]); }
    }
    MsgLogKeeps(s0, s', mid, Failed(mid, id));
  }

  lemma {:induction false} FailEachMessages(s: Sched, ids: seq<nat>)
    requires Messages(s) && |s.place| == |s.accepted| && Distinct(ids)
    requires forall k :: 0 <= k < |ids| ==> ids[k] in s.tasks && s.tasks[ids[k]].state.Sending?
    ensures Messages(FailedSoFar(s, ids))
    decreases |ids|
  {
    if ids == [] {
      assert ReleaseSome(s.tasks, []) == s.tasks;
    } else {
      FailEachMessages(s, ids[..|ids| - 1]);
      FailOne(s, ids);
    }
  }

  lemma SendersSelected(s: Sched, tid: nat)
    requires IdInv(s)
    ensures var ids := Select(s.tasks, s.nextId, SendingTo(tid));
            && Distinct(ids)
            && (forall k :: 0 <= k < |ids| ==> ids[k] in s.tasks && s.tasks[ids[k]].state.Sending?)
            && forall id :: id in s.tasks ==> (id in ids <==> s.tasks[id].state.Sending? && s.tasks[id].state.target == tid)
  {
    SelectSpec(s.tasks, s.nextId, SendingTo(tid));
    var ids := Select(s.tasks, s.nextId, SendingTo(tid));
    assert forall k :: 0 <= k < |ids| ==> ids[k] in ids;
  }

  lemma SendersBatch(s: Sched, tid: nat)
    requires IdInv(s)
    ensures BatchOf(s, ExitSenders(s, tid), Select(s.tasks, s.nextId, SendingTo(tid)))
  {
    var s', ids := ExitSenders(s, tid), Select(s.tasks, s.nextId, SendingTo(tid));
    SendersSelected(s, tid);
    FailEachFrame(s, ids);
    forall id | id in s.tasks
      ensures BatchTask(s, s', ids, id)
    {
      assert s'.tasks[id] == Released(s.tasks[id], tid);
    }
  }

  lemma SendersBase(s: Sched, tid: nat)
    requires Base(s)
    ensures Base(ExitSenders(s, tid))
  {
    SendersBatch(s, tid);
    SendersSelected(s, tid);
    BaseBatch(s, ExitSenders(s, tid), Select(s.tasks, s.nextId, SendingTo(tid)));
  }

  lemma SendersMessages(s: Sched, tid: nat)
    requires IdInv(s) && Messages(s) && |s.place| == |s.accepted|
    ensures Messages(ExitSenders(s, tid)) && |ExitSenders(s, tid).place| == |s.place|
  {
    var ids := Select(s.tasks, s.nextId, SendingTo(tid));
    SendersSelected(s, tid);
    FailEachMessages(s, ids);
    FailEachFrame(s, ids);
    MsgSubKeeps(FailedSoFar(s, ids), ExitSenders(s, tid));
  }

  /** After the release nobody sends to the dead task any more. */
  lemma SendersSend(s: Sched, tid: nat)
    requires IdInv(s) && SendInvBut(s, tid)
    ensures SendInv(ExitSenders(s, tid))
  {
    var s' := ExitSenders(s, tid);
    FailEachFrame(s, Select(s.tasks, s.nextId, SendingTo(tid)));
    forall id | id in s'.tasks && s'.tasks[id].state.Sending?
      ensures s'.tasks[id].state.target in s'.tasks
    {
      assert s'.tasks[id].state == s.tasks[id].state && s.tasks[id].state.target != tid;
    }
  }

  lemma SendersWaits(s: Sched, tid: nat, rest: seq<nat>)
    requires IdInv(s) && WaitInvBut(s, tid, rest) && WaitersOk(s, tid, rest)
    ensures WaitInvBut(ExitSenders(s, tid), tid, rest) && WaitersOk(ExitSenders(s, tid), tid, rest)
  {
    var s' := ExitSenders(s, tid);
    FailEachFrame(s, Select(s.tasks, s.nextId, SendingTo(tid)));
    assert forall id :: id in s'.tasks ==> WaitSame(s, s', id);
    WaitKeeps(s, s', tid, rest);
    forall k | 0 <= k < |rest| && rest[k] in s'.tasks
      ensures Awaits(s'.tasks[rest[k]].state) == Some(tid)
    {
      assert WaitSame(s, s', rest[k]);
    }
  }

  /** The state once `gone` is off the table: its senders are still blocked too. */
  ghost predicate Removed(s: Sched, gone: nat, rest: seq<nat>) {
    && Base(s) && SendInvBut(s, gone) && SubsInvBut(s, gone) && Messages(s) && |s.place| == |s.accepted|
    && gone !in s.tasks && WaitInvBut(s, gone, rest) && WaitersOk(s, gone, rest)
  }

  lemma RemoveKeeps(s: Sched, tid: nat)
    requires Inv(s)
    ensures Removed(ExitRemove(s, tid), tid, WaitersOf(s, tid))
  {
    RemoveBase(s, tid);
    RemoveWaits(s, tid);
    MsgSubKeeps(s, ExitRemove(s, tid));
  }

  lemma SendersBurying(s: Sched, tid: nat, rest: seq<nat>)
    requires Removed(s, tid, rest)
    ensures Burying(ExitSenders(s, tid), tid, rest)
  {
    SendersBatch(s, tid);
    FailEachFrame(s, Select(s.tasks, s.nextId, SendingTo(tid)));
    SendersBase(s, tid);
    SendersMessages(s, tid);
    SendersSend(s, tid);
    SendersWaits(s, tid, rest);
  }

  // ---- stage 3: wake waiters -------------------------------------------

  lemma {:induction false} ExitWaitersFrame(s: Sched, ws: seq<nat>, reason: nat)
    ensures var s' := ExitWaiters(s, ws, reason);
            && s'.tasks.Keys == s.tasks.Keys && SameRest(s, s')
            && forall id :: id in s.tasks && id !in ws ==> s'.tasks[id] == s.tasks[id]
    decreases |ws|
  {
    if ws != [] { ExitWaitersFrame(s, ws[..|ws| - 1], reason); }
  }

  /** A waiter that died meanwhile is passed over. */
  lemma SkipWaiter(s: Sched, gone: nat, rest: seq<nat>)
    requires WaitInvBut(s, gone, rest) && WaitersOk(s, gone, rest) && rest != [] && rest[0] !in s.tasks
    ensures WaitInvBut(s, gone, rest[1..]) && WaitersOk(s, gone, rest[1..])
  {
    forall id | id in s.tasks && Awaits(s.tasks[id].state).Some? && id in rest
      ensures id in rest[1..]
    {
      var k :| 0 <= k < |rest| && rest[k] == id;
      assert rest[k] == rest[1..][k - 1];
    }
  }

  /** Waking the first waiter of the rest. */
  lemma WakeWaiter(s: Sched, gone: nat, rest: seq<nat>, reason: nat)
    requires Burying(s, gone, rest) && rest != []
    ensures var w := rest[0];
            Burying(if w in s.tasks then Wake(s.(tasks := s.tasks[w := s.tasks[w].(replyValue := Some(reason))]), w) else s,
                    gone, rest[1..])
  {
    var w := rest[0];
    if w in s.tasks {
      WakeLiveWaiter(s, gone, rest, reason);
    } else {
      SkipWaiter(s, gone, rest);
    }
  }

  lemma WakeLiveWaiter(s: Sched, gone: nat, rest: seq<nat>, reason: nat)
    requires Burying(s, gone, rest) && rest != [] && rest[0] in s.tasks
    ensures var w := rest[0];
            Burying(Wake(s.(tasks := s.tasks[w := s.tasks[w].(replyValue := Some(reason))]), w), gone, rest[1..])
  {
    var w := rest[0];
    var s1 := s.(tasks := s.tasks[w := s.tasks[w].(replyValue := Some(reason))]);
    var s' := Wake(s1, w);
    assert Awaits(s.tasks[w].state) == Some(gone);
    WakeWaiterBase(s, s1, w);
    MsgSubKeeps(s, s');
    WakeWaiterWaits(s, s', gone, rest);
    WakeWaiterSends(s, s', w);
  }

  lemma WakeWaiterBase(s: Sched, s1: Sched, w: nat)
    requires Base(s) && w in s.tasks && Awaits(s.tasks[w].state).Some?
    requires exists r :: s1 == s.(tasks := s.tasks[w := s.tasks[w].(replyValue := r)])
    ensures Base(Wake(s1, w))
  {
    BaseSame(s, s1);
    BaseWake(s1, w);
  }

  lemma WakeWaiterSends(s: Sched, s': Sched, w: nat)
    requires SendInv(s) && s'.tasks.Keys == s.tasks.Keys
    requires forall id :: id in s.tasks ==> s'.tasks[id].state == s.tasks[id].state || s'.tasks[id].state == Ready
    ensures SendInv(s')
  {
    forall id | id in s'.tasks && s'.tasks[id].state.Sending?
      ensures s'.tasks[id].state.target in s'.tasks
    {
      assert s.tasks[id].state == s'.tasks[id].state;
    }
  }

  lemma WakeWaiterWaits(s: Sched, s': Sched, gone: nat, rest: seq<nat>)
    requires WaitInvBut(s, gone, rest) && WaitersOk(s, gone, rest) && rest != [] && rest[0] in s.tasks
    requires gone !in s.tasks
    requires s'.tasks.Keys == s.tasks.Keys && s'.nextId == s.nextId
    requires forall id :: id in s.tasks ==> s'.tasks[id].waiters == s.tasks[id].waiters
    requires forall id :: id in s.tasks ==> s'.tasks[id].state == if id == rest[0] then Ready else s.tasks[id].state
    ensures WaitInvBut(s', gone, rest[1..]) && WaitersOk(s', gone, rest[1..])
  {
    var w := rest[0];
    forall pid | pid in s'.tasks
      ensures WaitersOk(s', pid, s'.tasks[pid].waiters)
    {
      assert WaitersOk(s, pid, s.tasks[pid].waiters);
    }
    forall id | id in s'.tasks && Awaits(s'.tasks[id].state).Some?
      ensures var pid := Awaits(s'.tasks[id].state).value;
              (pid in s'.tasks && id in s'.tasks[pid].waiters) || (pid == gone && id in rest[1..])
    {
      if id in rest {
        var k :| 0 <= k < |rest| && rest[k] == id;
        assert rest[k] == rest[1..][k - 1];
      }
    }
  }

  lemma {:induction false} ExitWaitersKeeps(s: Sched, gone: nat, ws: seq<nat>, k: nat, reason: nat)
    requires Burying(s, gone, ws) && k <= |ws|
    ensures Burying(ExitWaiters(s, ws[..k], reason), gone, ws[k..])
    decreases k
  {
    if k > 0 {
      ExitWaitersKeeps(s, gone, ws, k - 1, reason);
      assert ws[..k][..k - 1] == ws[..k - 1] && ws[k - 1..][1..] == ws[k..];
      WakeWaiter(ExitWaiters(s, ws[..k - 1], reason), gone, ws[k - 1..], reason);
    } else {
      assert ws[0..] == ws;
    }
  }

  // ---- stage 4: notify watchers ----------------------------------------

  lemma {:induction false} NotifyFrame(tasks: Table, ws: seq<nat>, tid: nat, reason: nat)
    ensures var (tasks', woken) := NotifyEach(tasks, ws, tid, reason);
            && tasks'.Keys == tasks.Keys
            && Distinct(woken)
            && (forall k :: 0 <= k < |woken| ==> woken[k] in tasks && tasks[woken[k]].state.Recv?)
            && forall id :: id in tasks ==>
                 && SameFrame(tasks[id], tasks'[id])
                 && tasks'[id].state == if id in woken then Ready else tasks[id].state
    decreases |ws|
  {
    if ws != [] {
      NotifyFrame(tasks, ws[..|ws| - 1], tid, reason);
      var (t1, woken) := NotifyEach(tasks, ws[..|ws| - 1], tid, reason);
      var w := ws[|ws| - 1];
      if w in t1 && t1[w].state.Recv? { assert w !in woken; }
    }
  }

  lemma WatchersBase(s: Sched, tid: nat, reason: nat)
    requires Base(s)
    ensures Base(ExitWatchers(s, tid, reason))
  {
    var (tasks', woken) := NotifyEach(s.tasks, Watchers(s, tid), tid, reason);
    NotifyFrame(s.tasks, Watchers(s, tid), tid, reason);
    BaseBatch(s, ExitWatchers(s, tid, reason), woken);
  }

  lemma WatchersKeep(s: Sched, tid: nat, reason: nat)
    requires Burying(s, tid, [])
    ensures Inv(ExitWatchers(s, tid, reason))
  {
    var s' := ExitWatchers(s, tid, reason);
    NotifyFrame(s.tasks, Watchers(s, tid), tid, reason);
    WatchersBase(s, tid, reason);
    MsgSubKeeps(s, s');
    WaitKeeps(s, s', tid, []);
    WaitsMean(s');
  }

  // ---- the whole exit --------------------------------------------------

  lemma BuryKeeps(s: Sched, tid: nat)
    requires Inv(s)
    ensures Burying(ExitSenders(ExitRemove(s, tid), tid), tid, WaitersOf(s, tid))
  {
    RemoveKeeps(s, tid);
    SendersBurying(ExitRemove(s, tid), tid, WaitersOf(s, tid));
  }

  /** Every death keeps every invariant. */
  lemma ExitKeeps(s: Sched, tid: nat, reason: nat)
    requires Inv(s)
    ensures Inv(Exit(s, tid, reason))
  {
    var ws := WaitersOf(s, tid);
    var s2 := ExitSenders(ExitRemove(s, tid), tid);
    BuryKeeps(s, tid);
    ExitWaitersKeeps(s2, tid, ws, |ws|, reason);
    assert ws[..|ws|] == ws && ws[|ws|..] == [];
    WatchersKeep(ExitWaiters(s2, ws, reason), tid, reason);
  }

  /** What an exit leaves alone. */
  lemma ExitFrame(s: Sched, tid: nat, reason: nat)
    ensures var s' := Exit(s, tid, reason);
            && s'.tasks.Keys == s.tasks.Keys - {tid}
            && s'.current == s.current && s'.nextId == s.nextId && s'.accepted == s.accepted
  {
    var ws := WaitersOf(s, tid);
    var s1 := ExitRemove(s, tid);
    var s2 := ExitSenders(s1, tid);
    FailEachFrame(s1, Select(s1.tasks, s1.nextId, SendingTo(tid)));
    ExitWaitersFrame(s2, ws, reason);
    var s3 := ExitWaiters(s2, ws, reason);
    NotifyFrame(s3.tasks, Watchers(s3, tid), tid, reason);
  }

  // ---- death notices ---------------------------------------------------

  ghost function Copies(n: nat, tid: nat, reason: nat): seq<(nat, nat)> {
    seq(n, _ => (tid, reason))
  }

  /** What a watcher that appears `n` times on the list ends up with: a parked
      receiver is woken by its first subscription, every other subscription is
      one queued entry. */
  ghost predicate NoticesGiven(t: Task, t': Task, n: nat, tid: nat, reason: nat) {
    if n == 0 then t' == t
    else if t.state.Recv? then
      t' == t.(state := Ready, currentCaller := Some(tid), pendingExitReason := Some(reason),
               pendingDeaths := t.pendingDeaths + Copies(n - 1, tid, reason))
    else t' == t.(pendingDeaths := t.pendingDeaths + Copies(n, tid, reason))
  }

  lemma {:induction false} NotifyCounts(tasks: Table, ws: seq<nat>, tid: nat, reason: nat, w: nat)
    requires w in tasks
    ensures w in NotifyEach(tasks, ws, tid, reason).0
    ensures NoticesGiven(tasks[w], NotifyEach(tasks, ws, tid, reason).0[w], multiset(ws)[w], tid, reason)
    decreases |ws|
  {
    if ws != [] {
      var k := |ws| - 1;
      NotifyCounts(tasks, ws[..k], tid, reason, w);
      assert ws == ws[..k] + [ws[k]];
      var n := multiset(ws[..k])[w];
      if ws[k] == w {
        var t1 := NotifyEach(tasks, ws[..k], tid, reason).0[w];
        var was := tasks[w].pendingDeaths;
        assert Copies(n, tid, reason) + [(tid, reason)] == Copies(n + 1, tid, reason);
        assert n > 0 ==> Copies(n - 1, tid, reason) + [(tid, reason)] == Copies(n, tid, reason);
        assert was + Copies(0, tid, reason) == was;
        if n > 0 {
          assert was + Copies(n - 1, tid, reason) + [(tid, reason)] == was + Copies(n, tid, reason);
        }
        assert was + Copies(n, tid, reason) + [(tid, reason)] == was + Copies(n + 1, tid, reason);
      }
    }
  }

  /** A task that is neither sending to nor waiting for the dead one reaches the
      notice stage with its state and notices untouched. */
  lemma ReachesNotices(s: Sched, tid: nat, reason: nat, w: nat)
    requires Inv(s) && w in s.tasks && w != tid
    ensures var s3 := ExitWaiters(ExitSenders(ExitRemove(s, tid), tid), WaitersOf(s, tid), reason);
            && w in s3.tasks && s3.tasks[w].pendingDeaths == s.tasks[w].pendingDeaths
            && s3.tasks[w].pendingExitReason == s.tasks[w].pendingExitReason
            && s3.subs == s.subs
            && (s.tasks[w].state.Recv? ==> s3.tasks[w].state == s.tasks[w].state)
            && (s3.tasks[w].state.Recv? ==> s.tasks[w].state.Recv?)
  {
    var ws := WaitersOf(s, tid);
    var s1 := ExitRemove(s, tid);
    var s2 := ExitSenders(s1, tid);
    FailEachFrame(s1, Select(s1.tasks, s1.nextId, SendingTo(tid)));
    WaitersQuiet(s2, ws, reason, w);
    if s.tasks[w].state.Recv? && tid in s.tasks {
      WaitsMean(s);
      NotListed(s, w, tid);
    }
    ExitWaitersFrame(s2, ws, reason);
  }

  lemma {:induction false} WaitersQuiet(s: Sched, ws: seq<nat>, reason: nat, w: nat)
    requires w in s.tasks
    ensures var s' := ExitWaiters(s, ws, reason);
            && w in s'.tasks && s'.subs == s.subs
            && s'.tasks[w].pendingDeaths == s.tasks[w].pendingDeaths
            && s'.tasks[w].pendingExitReason == s.tasks[w].pendingExitReason
            && (s'.tasks[w].state == s.tasks[w].state || s'.tasks[w].state == Ready)
    decreases |ws|
  {
    if ws != [] { WaitersQuiet(s, ws[..|ws| - 1], reason, w); }
  }

  /** Each death turns every subscription of a live watcher into exactly one
      notice, repeated subscriptions and already-woken watchers included, and
      consumes the subscriptions. */
  lemma ExactlyOneNotice(s: Sched, tid: nat, reason: nat, w: nat)
    requires Inv(s) && w in s.tasks && w != tid
    ensures var s', n := Exit(s, tid, reason), multiset(Watchers(s, tid))[w];
            && w in s'.tasks && tid !in s'.subs && s'.subs == s.subs - {tid}
            && var t, t' := s.tasks[w], s'.tasks[w];
            && t'.pendingDeaths == t.pendingDeaths + Copies(if t.state.Recv? && n > 0 then n - 1 else n, tid, reason)
            && (t.state.Recv? && n > 0 ==>
                  t'.state == Ready && t'.currentCaller == Some(tid) && t'.pendingExitReason == Some(reason))
            && (!t.state.Recv? || n == 0 ==> t'.pendingExitReason == t.pendingExitReason)
  {
    var s3 := ExitWaiters(ExitSenders(ExitRemove(s, tid), tid), WaitersOf(s, tid), reason);
    ReachesNotices(s, tid, reason, w);
    NotifyCounts(s3.tasks, Watchers(s3, tid), tid, reason, w);
    assert s.tasks[w].pendingDeaths + Copies(0, tid, reason) == s.tasks[w].pendingDeaths;
  }

  // ---- failed sends ----------------------------------------------------

  lemma {:induction false} FailEachLogs(s: Sched, ids: seq<nat>, k: nat)
    requires k < |ids| && ids[k] in s.tasks && s.tasks[ids[k]].state.Sending?
    ensures Failed(s.tasks[ids[k]].state.mid, ids[k]) in FailEach(s, ids).log
    decreases |ids|
  {
    var last := |ids| - 1;
    var s1 := FailEach(s, ids[..last]);
    FailEachFrame(s, ids[..last]);
    if k < last {
      FailEachLogs(s, ids[..last], k);
      assert ids[..last][k] == ids[k];
      assert forall e :: e in s1.log ==> e in FailEach(s, ids).log;
    } else {
      var e := Failed(s.tasks[ids[k]].state.mid, ids[k]);
      assert FailEach(s, ids).log == s1.log + [e];
      assert (s1.log + [e])[|s1.log|] == e;
    }
  }

  lemma {:induction false} WaitersSkip(s: Sched, ws: seq<nat>, reason: nat, x: nat)
    requires x in s.tasks && s.tasks[x].state == Ready
    ensures var s' := ExitWaiters(s, ws, reason);
            x in s'.tasks && s'.tasks[x].state == Ready && s'.tasks[x].ret == s.tasks[x].ret && s'.log == s.log
    decreases |ws|
  {
    if ws != [] { WaitersSkip(s, ws[..|ws| - 1], reason, x); }
  }

  lemma SenderReleased(s: Sched, tid: nat, x: nat)
    requires IdInv(s) && x in s.tasks && s.tasks[x].state.Sending? && s.tasks[x].state.target == tid
    ensures var s' := ExitSenders(s, tid);
            && x in s'.tasks && s'.tasks[x].state == Ready && s'.tasks[x].ret == USIZE_MAX
            && Failed(s.tasks[x].state.mid, x) in s'.log
  {
    var ids := Select(s.tasks, s.nextId, SendingTo(tid));
    SendersSelected(s, tid);
    FailEachFrame(s, ids);
    assert x in ids;
    var k :| 0 <= k < |ids| && ids[k] == x;
    FailEachLogs(s, ids, k);
  }

  /** A sender blocked on a task that dies is made Ready with the error value, and
      its message is logged as failed. */
  lemma SenderGetsError(s: Sched, tid: nat, reason: nat, x: nat)
    requires Inv(s) && x in s.tasks && x != tid && s.tasks[x].state.Sending? && s.tasks[x].state.target == tid
    ensures var s' := Exit(s, tid, reason);
            && x in s'.tasks && s'.tasks[x].state == Ready && s'.tasks[x].ret == USIZE_MAX
            && Failed(s.tasks[x].state.mid, x) in s'.log
  {
    var s1 := ExitRemove(s, tid);
    RemoveBase(s, tid);
    SenderReleased(s1, tid, x);
    var s2 := ExitSenders(s1, tid);
    WaitersSkip(s2, WaitersOf(s, tid), reason, x);
    var s3 := ExitWaiters(s2, WaitersOf(s, tid), reason);
    NotifyCounts(s3.tasks, Watchers(s3, tid), tid, reason, x);
  }
}
