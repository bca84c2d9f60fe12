/** Which stack the hart executes on, and when reaping dead tasks spares it.
    Source: kernel/src/task.rs, `yield_cpu`; kernel/src/task/scheduler.rs, `pick_next`
    and `take_reapable_zombies`. */
module HartStack {
  import opened Wrappers
  import opened Tasks
  import opened SchedSpec
  import opened SchedSafety
  import opened SchedDeath
  import opened SchedRuns
  import opened SchedFate

  /** The scheduler and its hart: `on` is the task whose kernel stack the hart is on, and
      `boot` the one whose stack the saved boot context lies on; 0 is the boot stack. */
  datatype Hart = Hart(sched: Sched, on: nat, boot: nat)

  ghost predicate Buried(s: Sched, id: nat) { exists k :: 0 <= k < |s.zombies| && s.zombies[k].id == id }

  /** The task still has a context to save into. */
  ghost predicate Known(s: Sched, id: nat) { id in s.tasks || Buried(s, id) }

  /** The context switch that follows a pick, from the task recorded as current when the
      pick began to choose. With no such task the running context is saved as the boot
      context; without a successor a known task gives way to the boot context. */
  ghost function Switch(h: Hart, current: nat, p: Sched): (nat, nat) {
    match Pop(p.ready).0
    case Some(next) =>
      if current == 0 then (next, h.on)
      else if next != current && Known(p, current) then (next, h.boot)
      else (h.on, h.boot)
    case None => if current != 0 && Known(p, current) then (h.boot, h.boot) else (h.on, h.boot)
  }

  ghost function PickStep(h: Hart, now: nat): Hart {
    var s2 := Swept(h.sched, now);
    var to := Switch(h, s2.current, Preempt(s2));
    Hart(PickNextLocal(s2), to.0, to.1)
  }

  ghost function HartStep(h: Hart, l: Label): Hart
    requires |h.sched.place| == |h.sched.accepted|
  {
    if l.LPickNext? then PickStep(h, l.now) else h.(sched := Step(h.sched, l))
  }

  /** The scheduler underneath makes its own step. */
  lemma HartRefines(h: Hart, l: Label)
    requires |h.sched.place| == |h.sched.accepted|
    ensures HartStep(h, l).sched == Step(h.sched, l)
  {}

  /** The hart is on the stack of its current task, and the boot context is its own. */
  ghost predicate HartOk(h: Hart) {
    && h.on == h.sched.current && h.boot == 0
    && (h.on == 0 || Known(h.sched, h.on))
  }

  predicate Overdue(s: Sched, id: nat, now: nat) {
    id in s.tasks && s.tasks[id].heartbeat.Some? && now >= s.tasks[id].heartbeat.value
  }

  /** The pick finds the running task's own heartbeat overdue. */
  predicate KillsRunning(s: Sched, l: Label) {
    l.LPickNext? && (l.now > s.lastSweep || s.netRx) && Overdue(s, s.current, l.now)
  }

  // ---- deaths ----------------------------------------------------------

  lemma ExitBuries(s: Sched, tid: nat, reason: nat)
    ensures var s' := Exit(s, tid, reason);
            && s'.current == s.current && s'.tasks.Keys == s.tasks.Keys - {tid}
            && s'.zombies == s.zombies + if tid in s.tasks then [Zombie(tid, s.tasks[tid].(waiters := []))] else []
  {
    var ws, s1 := WaitersOf(s, tid), ExitRemove(s, tid);
    FailEachFrame(s1, Select(s1.tasks, s1.nextId, SendingTo(tid)));
    ExitWaitersFrame(ExitSenders(s1, tid), ws, reason);
    ExitFrame(s, tid, reason);
  }

  lemma GrownKnows(s: Sched, s': Sched, id: nat)
    requires Known(s, id) && s.tasks.Keys <= s'.tasks.Keys && s'.zombies == s.zombies
    ensures Known(s', id)
  {
    if id !in s.tasks {
      var k :| 0 <= k < |s.zombies| && s.zombies[k].id == id;
      assert s'.zombies[k].id == id;
    }
  }

  lemma ExitKnows(s: Sched, tid: nat, reason: nat, id: nat)
    requires Known(s, id)
    ensures Known(Exit(s, tid, reason), id)
  {
    var s' := Exit(s, tid, reason);
    ExitBuries(s, tid, reason);
    if id in s.tasks && id == tid { assert s'.zombies[|s.zombies|].id == id; }
    else if id !in s.tasks {
      var k :| 0 <= k < |s.zombies| && s.zombies[k].id == id;
      assert s'.zombies[k].id == id;
    }
  }

  lemma {:induction false} KillEachKnows(s: Sched, ids: seq<nat>, id: nat)
    requires Known(s, id)
    ensures Known(KillEach(s, ids), id)
    decreases |ids|
  {
    if ids != [] {
      KillEachKnows(s, ids[..|ids| - 1], id);
      var s1 := KillEach(s, ids[..|ids| - 1]);
      ExitKnows(s1, ids[|ids| - 1], USIZE_MAX, id);
      ExitBuries(s1, ids[|ids| - 1], USIZE_MAX);
    }
  }

  /** A kill of the current task, and no other, leaves the hart without one. */
  lemma {:induction false} KillEachCurrent(s: Sched, ids: seq<nat>)
    ensures KillEach(s, ids).current == if s.current in ids then 0 else s.current
    decreases |ids|
  {
    if ids != [] {
      var last := |ids| - 1;
      KillEachCurrent(s, ids[..last]);
      KilledCurrent(KillEach(s, ids[..last]), ids[last]);
      assert s.current in ids <==> s.current in ids[..last] || s.current == ids[last];
    }
  }

  lemma KilledCurrent(s: Sched, tid: nat)
    ensures Kill(s, tid).current == (if s.current == tid then 0 else s.current)
  {
    ExitBuries(s, tid, USIZE_MAX);
  }

  lemma KilledTask(s: Sched, tid: nat, id: nat)
    ensures id in Kill(s, tid).tasks <==> id in s.tasks && id != tid
  {
    ExitBuries(s, tid, USIZE_MAX);
  }

  lemma {:induction false} KillEachKills(s: Sched, ids: seq<nat>, id: nat)
    ensures id in KillEach(s, ids).tasks <==> id in s.tasks && id !in ids
    decreases |ids|
  {
    if ids != [] {
      var last := |ids| - 1;
      KillEachKills(s, ids[..last], id);
      KilledTask(KillEach(s, ids[..last]), ids[last], id);
      assert id in ids <==> id in ids[..last] || id == ids[last];
    }
  }

  lemma {:induction false} SweepSparesBeats(tasks: Table, n: nat, now: nat, rx: bool, id: nat)
    requires id in tasks
    ensures var tasks' := SweepTasks(tasks, n, now, rx).0; id in tasks' && tasks'[id].heartbeat == tasks[id].heartbeat
  {
    if n > 0 { SweepSparesBeats(tasks, n - 1, now, rx, id); }
  }

  lemma SweepSparesDue(s: Sched, now: nat, id: nat)
    ensures var s1 := Sweep(s, now);
            s1.tasks.Keys == s.tasks.Keys && s1.zombies == s.zombies && (Overdue(s1, id, now) <==> Overdue(s, id, now))
  {
    SweepFrame(s.tasks, s.nextId, now, s.netRx);
    if id in s.tasks { SweepSparesBeats(s.tasks, s.nextId, now, s.netRx, id); }
  }

  lemma HungCurrent(s: Sched, now: nat)
    requires IdInv(s)
    ensures KillHung(s, now).current == if Overdue(s, s.current, now) then 0 else s.current
    ensures Overdue(s, s.current, now) ==> s.current !in KillHung(s, now).tasks
  {
    var due := Select(s.tasks, s.nextId, HeartbeatDue(now));
    SelectSpec(s.tasks, s.nextId, HeartbeatDue(now));
    KillEachCurrent(s, due);
    KillEachKills(s, due, s.current);
  }

  /** The sweep and the kills take the current task from the hart if and only if its own
      heartbeat was overdue. */
  lemma SweptCurrent(s: Sched, now: nat)
    requires IdInv(s) && (s.current == 0 || Known(s, s.current))
    ensures var s2 := Swept(s, now);
            && s2.current == (if KillsRunning(s, LPickNext(now)) then 0 else s.current)
            && (s.current == 0 || Known(s2, s.current))
            && (KillsRunning(s, LPickNext(now)) ==> s.current !in s2.tasks)
  {
    if now > s.lastSweep || s.netRx {
      var s0 := if now > s.lastSweep then s.(lastSweep := now) else s;
      var s1 := Sweep(s0, now);
      SweepSparesDue(s0, now, s.current);
      HungCurrent(s1, now);
      if s.current != 0 {
        GrownKnows(s, s1, s.current);
        KillEachKnows(s1, Select(s1.tasks, s1.nextId, HeartbeatDue(now)), s.current);
      }
    }
  }

  lemma PreemptKnows(s: Sched, id: nat)
    requires Known(s, id)
    ensures Known(Preempt(s), id)
  {
    var cid := s.current;
    if cid != 0 && cid in s.tasks && s.tasks[cid].state == Running && s.tasks[cid].priority >= REAL_TIME
       && SatAdd(s.tasks[cid].runTicks) > WATCHDOG_BUDGET_TICKS {
      var s1 := s.(tasks := s.tasks[cid := s.tasks[cid].(runTicks := SatAdd(s.tasks[cid].runTicks))]);
      GrownKnows(s, s1, id);
      ExitKnows(s1, cid, USIZE_MAX, id);
      GrownKnows(Exit(s1, cid, USIZE_MAX), Preempt(s), id);
    } else {
      GrownKnows(s, Preempt(s), id);
    }
  }

  // ---- every step ------------------------------------------------------

  lemma DispatchKnows(p: Sched)
    requires Base(p) && NothingRuns(p)
    ensures var s', next := Dispatch(p), Pop(p.ready).0;
            && s'.current == (if next.Some? then next.value else 0)
            && (next.Some? ==> next.value in s'.tasks && 0 < next.value && next.value in p.tasks)
  {
    DispatchBase(p);
  }

  /** A pick keeps the hart on the stack of its current task if and only if it does not
      kill that task for its heartbeat. */
  lemma PickKeepsStack(h: Hart, now: nat)
    requires Inv(h.sched) && HartOk(h)
    ensures HartOk(PickStep(h, now)) <==> !KillsRunning(h.sched, LPickNext(now))
  {
    var s := h.sched;
    var s2 := Swept(s, now);
    SweptKeeps(s, now);
    SweptCurrent(s, now);
    PreemptKeeps(s2);
    DispatchKnows(Preempt(s2));
    if s.current != 0 { PreemptKnows(s2, s.current); }
  }

  lemma ReapKnows(s: Sched)
    requires Known(s, s.current)
    ensures Known(s.(zombies := Reapable(s.zombies, s.current).1), s.current)
  {
    if s.current !in s.tasks {
      var k :| 0 <= k < |s.zombies| && s.zombies[k].id == s.current;
      ReapableSpec(s.zombies, s.current);
      var (reap, keep) := Reapable(s.zombies, s.current);
      assert s.zombies[k] in multiset(s.zombies) && s.zombies[k] !in multiset(reap);
      assert s.zombies[k] in keep;
    }
  }

  lemma OtherStepKnows(s: Sched, l: Label)
    requires |s.place| == |s.accepted| && !l.LPickNext? && Known(s, s.current)
    ensures Step(s, l).current == s.current && Known(Step(s, l), s.current)
  {
    if l.LExit? {
      ExitKnows(s, l.tid, l.reason, s.current);
      ExitBuries(s, l.tid, l.reason);
    } else if l.LReap? {
      ReapKnows(s);
    } else {
      NobodyDies(s, l);
      GrownKnows(s, Step(s, l), s.current);
    }
  }

  /** The hart stays on the stack of its current task through any step if and only if the
      step is not a pick that kills this task for its heartbeat. */
  lemma StackFollowsTask(h: Hart, l: Label)
    requires Inv(h.sched) && HartOk(h)
    ensures HartOk(HartStep(h, l)) <==> !KillsRunning(h.sched, l)
  {
    if l.LPickNext? { PickKeepsStack(h, l.now); }
    else if h.on != 0 { OtherStepKnows(h.sched, l); }
    else { IdleStays(h.sched, l); }
  }

  lemma IdleStays(s: Sched, l: Label)
    requires |s.place| == |s.accepted| && !l.LPickNext?
    ensures Step(s, l).current == s.current
  {
    if l.LExit? { ExitBuries(s, l.tid, l.reason); } else { NobodyDies(s, l); }
  }

  // ---- reaping ---------------------------------------------------------

  /** A reap now frees the stack of task `id`. */
  ghost predicate Frees(s: Sched, id: nat) { exists z :: z in Reapable(s.zombies, s.current).0 && z.id == id }

  /** Reaping does not free the stack the hart is on. */
  lemma ReapingSpares(h: Hart)
    requires HartOk(h)
    ensures !Frees(h.sched, h.on) && h.boot == 0
  {
    ReapableSpec(h.sched.zombies, h.sched.current);
  }

  /** A pick that kills the running task for its heartbeat leaves that task's stack in
      use, or the boot context on it, and the next reap frees it. */
  lemma HeartbeatKillFreesStackInUse(h: Hart, now: nat)
    requires Inv(h.sched) && HartOk(h) && KillsRunning(h.sched, LPickNext(now))
    ensures var h' := PickStep(h, now); (h'.on == h.on || h'.boot == h.on) && Frees(h'.sched, h.on)
  {
    SweptKeeps(h.sched, now);
    SweptCurrent(h.sched, now);
    LeftBehind(h, Swept(h.sched, now));
  }

  lemma LeftBehind(h: Hart, s: Sched)
    requires Inv(s) && s.current == 0 && 0 != h.on && h.on !in s.tasks && Buried(s, h.on)
    ensures Switch(h, 0, s).0 == h.on || Switch(h, 0, s).1 == h.on
    ensures Preempt(s) == s && Frees(Dispatch(s), h.on)
  {
    PreemptKeeps(s);
    DispatchKnows(s);
    var k :| 0 <= k < |s.zombies| && s.zombies[k].id == h.on;
    ReapedBack(s.zombies, Dispatch(s).current, k);
  }

  lemma ReapedBack(zs: seq<Zombie>, current: nat, k: nat)
    requires k < |zs| && zs[k].id != current
    ensures zs[k] in Reapable(zs, current).0
  {
    ReapableSpec(zs, current);
    var (reap, keep) := Reapable(zs, current);
    assert zs[k] in multiset(reap) + multiset(keep);
  }

  // ---- runs ------------------------------------------------------------

  /** Reached by steps none of which kills the running task for its heartbeat. */
  ghost predicate Keeps(mem: Memory, run: seq<Label>, h: Hart)
    decreases |run|
  {
    if run == [] then h == Hart(Boot(mem), 0, 0)
    else
      var k := |run| - 1;
      exists prev: Hart ::
        && Keeps(mem, run[..k], prev) && |prev.sched.place| == |prev.sched.accepted|
        && Enabled(prev.sched, run[k]) && !KillsRunning(prev.sched, run[k]) && h == HartStep(prev, run[k])
  }

  lemma {:induction false} KeptStack(mem: Memory, run: seq<Label>, h: Hart)
    requires Keeps(mem, run, h)
    ensures Inv(h.sched) && HartOk(h)
    decreases |run|
  {
    if run == [] {
      BootInv(mem);
    } else {
      var k := |run| - 1;
      var prev :| Keeps(mem, run[..k], prev) && |prev.sched.place| == |prev.sched.accepted|
                  && Enabled(prev.sched, run[k]) && !KillsRunning(prev.sched, run[k]) && h == HartStep(prev, run[k]);
      KeptStack(mem, run[..k], prev);
      StepKeeps(prev.sched, run[k]);
      HartRefines(prev, run[k]);
      StackFollowsTask(prev, run[k]);
    }
  }

  /** On every run in which no pick kills the running task for its heartbeat: a reap at
      any moment spares the stack the hart is on. */
  lemma StackNeverReaped(mem: Memory, run: seq<Label>, h: Hart)
    requires Keeps(mem, run, h)
    ensures !Frees(h.sched, h.on) && h.boot == 0
  {
    KeptStack(mem, run, h);
    ReapingSpares(h);
  }
}
