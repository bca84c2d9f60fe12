/** Safety of the scheduler and IPC state machine over every run on one hart:
    queue consistency, message accounting and death notices. */
module SchedSafety {
  import opened ByteData
  import opened Wrappers
  import opened Tasks
  import opened SchedSpec

  // ---- invariants ------------------------------------------------------

  ghost predicate IdInv(s: Sched) {
    && 0 < s.nextId && s.current < s.nextId
    && (forall id :: id in s.tasks ==> 0 < id < s.nextId)
    && (forall k :: 0 <= k < |s.zombies| ==> s.zombies[k].id < s.nextId && s.zombies[k].id !in s.tasks)
  }

  /** Only the hart's current task can be Running. */
  ghost predicate RunInv(s: Sched) {
    forall id :: id in s.tasks && s.tasks[id].state == Running ==> id == s.current
  }

  ghost predicate Base(s: Sched) {
    QueueInv(s.tasks, s.ready) && IdInv(s) && RunInv(s)
  }

  /** No live task is Sending to a dead one; `gone` is a task being buried. */
  ghost predicate SendInvBut(s: Sched, gone: nat) {
    forall id :: id in s.tasks && s.tasks[id].state.Sending? ==>
                   s.tasks[id].state.target in s.tasks || s.tasks[id].state.target == gone
  }

  ghost predicate SendInv(s: Sched) {
    forall id :: id in s.tasks && s.tasks[id].state.Sending? ==> s.tasks[id].state.target in s.tasks
  }

  /** Live tasks on `pid`'s waiter list are blocked in Wait for it, or were when they
      were frozen. */
  ghost predicate WaitersOk(s: Sched, pid: nat, waiters: seq<nat>) {
    && Distinct(waiters)
    && forall k :: 0 <= k < |waiters| ==>
                     && waiters[k] < s.nextId
                     && (waiters[k] in s.tasks ==> Awaits(s.tasks[waiters[k]].state) == Some(pid))
  }

  ghost predicate WaitListsOk(s: Sched) {
    forall pid :: pid in s.tasks ==> WaitersOk(s, pid, s.tasks[pid].waiters)
  }

  ghost predicate WaitInvBut(s: Sched, gone: nat, rest: seq<nat>) {
    && WaitListsOk(s)
    && forall id :: id in s.tasks && Awaits(s.tasks[id].state).Some? ==>
                      var pid := Awaits(s.tasks[id].state).value;
                      (pid in s.tasks && id in s.tasks[pid].waiters) || (pid == gone && id in rest)
  }

  ghost predicate WaitInv(s: Sched) {
    && WaitListsOk(s)
    && forall id :: id in s.tasks && Awaits(s.tasks[id].state).Some? ==>
                      var pid := Awaits(s.tasks[id].state).value;
                      pid in s.tasks && id in s.tasks[pid].waiters
  }

  /** Death subscriptions only watch live tasks. */
  ghost predicate SubsInvBut(s: Sched, gone: nat) {
    forall w :: w in s.subs ==> w in s.tasks || w == gone
  }

  ghost predicate SubsInv(s: Sched) {
    forall w :: w in s.subs ==> w in s.tasks
  }

  /** A blocked sender holds exactly the message it was accepted with. */
  ghost predicate SenderHolds(s: Sched, id: nat) {
    id in s.tasks && s.tasks[id].state.Sending? ==>
      var st := s.tasks[id].state;
      st.mid < |s.place| && st.mid < |s.accepted| && s.place[st.mid] == InSender(id) && s.accepted[st.mid] == Msg(id, st.target, st.msgLen, false)
  }

  ghost predicate PendingOk(s: Sched, id: nat, m: PendingMsg) {
    && m.mid < |s.place| && m.mid < |s.accepted| && s.place[m.mid] == InQueue(id)
    && s.accepted[m.mid] == Msg(m.sender, id, |m.data|, true)
  }

  /** A frozen task's queue: bounded, in acceptance order, each entry its own. */
  ghost predicate QueueHolds(s: Sched, id: nat) {
    id in s.tasks ==>
      var q := s.tasks[id].pendingMsgs;
      && |q| <= HOTSWAP_MSG_QUEUE_DEPTH
      && (forall k :: 0 <= k < |q| ==> PendingOk(s, id, q[k]))
      && forall j, k :: 0 <= j < k < |q| ==> q[j].mid < q[k].mid
  }

  /** Every logged outcome is the only one of its message, was accepted from
      that sender, and carries at most what was sent. */
  ghost predicate LogHolds(s: Sched, i: nat) {
    i < |s.log| ==>
      var e := s.log[i];
      && e.mid < |s.place| && e.mid < |s.accepted| && s.place[e.mid] == Logged(i)
      && e.from == s.accepted[e.mid].sender
      && (e.Delivered? ==> |e.data| <= s.accepted[e.mid].len)
      && (e.Delivered? && !s.accepted[e.mid].queued ==> e.to == s.accepted[e.mid].target)
  }

  ghost predicate MsgInv(s: Sched) {
    && |s.place| == |s.accepted|
    && (forall id :: SenderHolds(s, id))
    && (forall id :: QueueHolds(s, id))
    && (forall i :: LogHolds(s, i))
  }

  // The quantified parts are carried behind a counter that the verifier does not
  // count down by itself; `WaitsMean` and `MessagesMean` open them.

  ghost predicate WaitsTo(s: Sched, depth: nat) {
    if depth == 0 then WaitInv(s) else WaitsTo(s, depth - 1)
  }

  ghost predicate Waits(s: Sched) { WaitsTo(s, s.nextId + 3) }

  ghost predicate MessagesTo(s: Sched, depth: nat) {
    if depth == 0 then MsgInv(s) else MessagesTo(s, depth - 1)
  }

  ghost predicate Messages(s: Sched) { MessagesTo(s, s.nextId + 3) }

  lemma {:induction false} WaitsToMeans(s: Sched, depth: nat)
    ensures WaitsTo(s, depth) <==> WaitInv(s)
  {
    if depth > 0 { WaitsToMeans(s, depth - 1); }
  }

  lemma WaitsMean(s: Sched)
    ensures Waits(s) <==> WaitInv(s)
  {
    WaitsToMeans(s, s.nextId + 3);
  }

  lemma {:induction false} MessagesToMeans(s: Sched, depth: nat)
    ensures MessagesTo(s, depth) <==> MsgInv(s)
  {
    if depth > 0 { MessagesToMeans(s, depth - 1); }
  }

  lemma MessagesMean(s: Sched)
    ensures Messages(s) <==> MsgInv(s)
  {
    MessagesToMeans(s, s.nextId + 3);
  }

  /** What every reachable state satisfies. */
  ghost predicate Inv(s: Sched) {
    Base(s) && SendInv(s) && Waits(s) && SubsInv(s) && Messages(s) && |s.place| == |s.accepted|
  }

  // ---- small steps -----------------------------------------------------

  /** Parts of a task the invariants look at, besides its state. */
  ghost predicate SameFrame(t: Task, t': Task) {
    t'.waiters == t.waiters && t'.pendingMsgs == t.pendingMsgs && t'.priority == t.priority
  }

  /** Same bookkeeping outside the table, queues and current task. */
  ghost predicate SameRest(s: Sched, s': Sched) {
    && s'.zombies == s.zombies && s'.nextId == s.nextId && s'.current == s.current && s'.subs == s.subs
    && s'.accepted == s.accepted && s'.place == s.place && s'.log == s.log
  }

  /** A step that only touches fields the invariants ignore. */
  ghost predicate Cosmetic(s: Sched, s': Sched) {
    && SameRest(s, s') && s'.ready == s.ready && s'.tasks.Keys == s.tasks.Keys
    && forall id :: id in s.tasks ==> SameFrame(s.tasks[id], s'.tasks[id]) && s'.tasks[id].state == s.tasks[id].state
  }

  lemma CosmeticKeepsBase(s: Sched, s': Sched)
    requires Base(s) && Cosmetic(s, s')
    ensures Base(s')
  {
    assert ReadySet(s'.tasks) == ReadySet(s.tasks);
  }

  lemma CosmeticKeeps(s: Sched, s': Sched)
    requires Inv(s) && Cosmetic(s, s')
    ensures Inv(s')
  {
    CosmeticKeepsBase(s, s');
    MsgSubKeeps(s, s');
    WaitsKeep(s, s');
  }

  // Message accounting.

  /** Nothing new is held: a sender or a queue of `s'` is one of `s`. */
  ghost predicate MsgSub(s: Sched, s': Sched) {
    && s'.accepted == s.accepted && s'.place == s.place && s'.log == s.log
    && forall id :: id in s'.tasks ==> HoldsNoMore(s, s', id)
  }

  ghost predicate HoldsNoMore(s: Sched, s': Sched, id: nat)
    requires id in s'.tasks
  {
    && (s'.tasks[id].state.Sending? ==> id in s.tasks && s.tasks[id].state == s'.tasks[id].state)
    && (s'.tasks[id].pendingMsgs == [] || (id in s.tasks && s'.tasks[id].pendingMsgs == s.tasks[id].pendingMsgs))
  }

  lemma MsgSubKeeps(s: Sched, s': Sched)
    requires Messages(s) && MsgSub(s, s')
    ensures Messages(s')
  {
    MessagesMean(s);
    MessagesMean(s');
    forall id
      ensures SenderHolds(s', id) && QueueHolds(s', id)
    {
      assert SenderHolds(s, id) && QueueHolds(s, id);
      assert id in s'.tasks ==> HoldsNoMore(s, s', id);
      if id in s'.tasks && s'.tasks[id].pendingMsgs != [] {
        var q := s'.tasks[id].pendingMsgs;
        forall k | 0 <= k < |q| ensures PendingOk(s', id, q[k]) { assert PendingOk(s, id, q[k]); }
      }
    }
    forall i ensures LogHolds(s', i) { assert LogHolds(s, i); }
  }

  /** Accepting a message that nobody holds yet. */
  lemma MsgAcceptKeeps(s: Sched, m: Msg, p: Place)
    requires Messages(s)
    ensures Messages(Accept(s, m, p))
  {
    var s' := Accept(s, m, p);
    MessagesMean(s);
    MessagesMean(s');
    forall id
      ensures SenderHolds(s', id) && QueueHolds(s', id)
    {
      assert SenderHolds(s, id) && QueueHolds(s, id);
      if id in s'.tasks {
        var q := s'.tasks[id].pendingMsgs;
        forall k | 0 <= k < |q| ensures PendingOk(s', id, q[k]) { assert PendingOk(s, id, q[k]); }
      }
    }
    forall i ensures LogHolds(s', i) { assert LogHolds(s, i); }
  }

  /** `s'` holds what `s` holds, except message `mid`. */
  ghost predicate HoldsRest(s: Sched, s': Sched, id: nat, mid: nat)
    requires id in s'.tasks
  {
    && id in s.tasks
    && (s'.tasks[id].state.Sending? ==> s.tasks[id].state == s'.tasks[id].state && s'.tasks[id].state.mid != mid)
    && (s'.tasks[id].pendingMsgs == s.tasks[id].pendingMsgs
        || (s.tasks[id].pendingMsgs != [] && s'.tasks[id].pendingMsgs == s.tasks[id].pendingMsgs[1..]))
    && forall k :: 0 <= k < |s'.tasks[id].pendingMsgs| ==> s'.tasks[id].pendingMsgs[k].mid != mid
  }

  /** The outcome of message `mid` is logged, and its holder lets go of it. */
  lemma MsgLogKeeps(s: Sched, s': Sched, mid: nat, e: Outcome)
    requires Messages(s) && mid < |s.place| == |s.accepted| && !s.place[mid].Logged?
    requires s'.accepted == s.accepted && s'.place == s.place[mid := Logged(|s.log|)] && s'.log == s.log + [e]
    requires e.mid == mid && e.from == s.accepted[mid].sender
    requires e.Delivered? ==>
               |e.data| <= s.accepted[mid].len && (!s.accepted[mid].queued ==> e.to == s.accepted[mid].target)
    requires forall id :: id in s'.tasks ==> HoldsRest(s, s', id, mid)
    ensures Messages(s')
  {
    MessagesMean(s);
    MessagesMean(s');
    forall id
      ensures SenderHolds(s', id) && QueueHolds(s', id)
    {
      assert SenderHolds(s, id) && QueueHolds(s, id);
      if id in s'.tasks {
        assert HoldsRest(s, s', id, mid);
        var q, q0 := s'.tasks[id].pendingMsgs, s.tasks[id].pendingMsgs;
        var d := |q0| - |q|;
        forall k | 0 <= k < |q|
          ensures PendingOk(s', id, q[k])
        {
          assert q[k] == q0[k + d] && PendingOk(s, id, q0[k + d]);
        }
      }
    }
    forall i ensures LogHolds(s', i) { assert LogHolds(s, i); }
  }

  // Waiting and sending.

  ghost predicate WaitSame(s: Sched, s': Sched, id: nat)
    requires id in s'.tasks
  {
    && id in s.tasks && s'.tasks[id].waiters == s.tasks[id].waiters
    && Awaits(s'.tasks[id].state) == Awaits(s.tasks[id].state)
  }

  /** A step that neither starts nor ends a Wait. */
  lemma WaitKeeps(s: Sched, s': Sched, gone: nat, rest: seq<nat>)
    requires WaitInvBut(s, gone, rest) && s'.nextId == s.nextId && s'.tasks.Keys == s.tasks.Keys
    requires forall id :: id in s'.tasks ==> WaitSame(s, s', id)
    ensures WaitInvBut(s', gone, rest)
  {
    forall pid | pid in s'.tasks
      ensures WaitersOk(s', pid, s'.tasks[pid].waiters)
    {
      assert WaitSame(s, s', pid) && WaitersOk(s, pid, s.tasks[pid].waiters);
      var ws := s'.tasks[pid].waiters;
      forall k | 0 <= k < |ws| && ws[k] in s'.tasks
        ensures Awaits(s'.tasks[ws[k]].state) == Some(pid)
      {
        assert WaitSame(s, s', ws[k]);
      }
    }
    forall id | id in s'.tasks && Awaits(s'.tasks[id].state).Some?
      ensures var pid := Awaits(s'.tasks[id].state).value;
              (pid in s'.tasks && id in s'.tasks[pid].waiters) || (pid == gone && id in rest)
    {
      assert WaitSame(s, s', id);
      var pid := Awaits(s'.tasks[id].state).value;
      if pid in s'.tasks { assert WaitSame(s, s', pid); }
    }
  }

  /** A step between whole states that neither starts nor ends a Wait. */
  lemma WaitsKeep(s: Sched, s': Sched)
    requires Waits(s) && IdInv(s) && s'.nextId == s.nextId && s'.tasks.Keys == s.tasks.Keys
    requires forall id :: id in s'.tasks ==> WaitSame(s, s', id)
    ensures Waits(s')
  {
    WaitsMean(s);
    WaitsMean(s');
    WaitKeeps(s, s', 0, []);
  }

  // Wake and park.

  lemma BaseWake(s: Sched, id: nat)
    requires Base(s) && id in s.tasks && s.tasks[id].state != Ready
    ensures Base(Wake(s, id))
  {
    var s' := Wake(s, id);
    assert ReadySet(s'.tasks) == ReadySet(s.tasks) + {id};
    WakeOne(s.tasks, s'.tasks, s.ready, id);
  }

  /** The current task blocks. */
  lemma BasePark(s: Sched, id: nat, st: TaskState)
    requires Base(s) && id in s.tasks && s.tasks[id].state == Running && st != Ready
    ensures Base(Park(s, id, st))
  {
    var s' := Park(s, id, st);
    assert ReadySet(s'.tasks) == ReadySet(s.tasks);
  }

  /** Waking any task that is not Ready and on no waiter list keeps every invariant. */
  lemma WakeKeeps(s: Sched, id: nat)
    requires Inv(s) && id in s.tasks && s.tasks[id].state != Ready && Awaits(s.tasks[id].state).None?
    ensures Inv(Wake(s, id))
  {
    var s' := Wake(s, id);
    BaseWake(s, id);
    MsgSubKeeps(s, s');
    WaitsKeep(s, s');
  }

  /** Blocking the current task, other than in a send or a wait. */
  lemma ParkKeeps(s: Sched, id: nat, st: TaskState)
    requires Inv(s) && id in s.tasks && s.tasks[id].state == Running
    requires st != Ready && !st.Sending? && Awaits(st).None?
    ensures Inv(Park(s, id, st))
  {
    var s' := Park(s, id, st);
    BasePark(s, id, st);
    MsgSubKeeps(s, s');
    WaitsKeep(s, s');
  }

  // ---- spawn -----------------------------------------------------------

  lemma SpawnWaits(s: Sched)
    requires Waits(s) && IdInv(s)
    ensures Waits(Spawn(s))
  {
    var s' := Spawn(s);
    WaitsMean(s);
    WaitsMean(s');
    forall pid | pid in s'.tasks
      ensures WaitersOk(s', pid, s'.tasks[pid].waiters)
    {
      if pid != s.nextId { assert WaitersOk(s, pid, s.tasks[pid].waiters); }
    }
  }

  lemma SpawnKeeps(s: Sched)
    requires Inv(s)
    ensures Inv(Spawn(s))
  {
    var s' := Spawn(s);
    assert ReadySet(s'.tasks) == ReadySet(s.tasks) + {s.nextId};
    WakeOne(s.tasks, s'.tasks, s.ready, s.nextId);
    MsgSubKeeps(s, s');
    SpawnWaits(s);
  }

  lemma SetPriorityBase(s: Sched, id: nat, p: nat)
    requires Base(s) && p < PRIORITIES
    ensures Base(SetPriority(s, id, p))
  {
    assert ReadySet(SetPriority(s, id, p).tasks) == ReadySet(s.tasks);
  }

  lemma SetPriorityKeeps(s: Sched, id: nat, p: nat)
    requires Inv(s) && p < PRIORITIES
    ensures Inv(SetPriority(s, id, p))
  {
    SetPriorityBase(s, id, p);
    StatesKept(s, SetPriority(s, id, p));
  }

  /** A step that neither starts nor ends a send or a wait. */
  ghost predicate Quiet(t: Task, t': Task) {
    && t'.waiters == t.waiters && t'.pendingMsgs == t.pendingMsgs
    && (t'.state == t.state || (Awaits(t'.state) == Awaits(t.state) && !t'.state.Sending?))
  }

  lemma QuietKeeps(s: Sched, s': Sched)
    requires Inv(s) && Base(s') && s'.tasks.Keys == s.tasks.Keys && s'.nextId == s.nextId && s'.subs == s.subs
    requires s'.accepted == s.accepted && s'.place == s.place && s'.log == s.log
    requires forall id :: id in s.tasks ==> Quiet(s.tasks[id], s'.tasks[id])
    ensures Inv(s')
  {
    forall id | id in s'.tasks
      ensures HoldsNoMore(s, s', id) && WaitSame(s, s', id)
    {
      assert Quiet(s.tasks[id], s'.tasks[id]);
    }
    QuietSends(s, s');
    MsgSubKeeps(s, s');
    WaitsKeep(s, s');
  }

  lemma QuietSends(s: Sched, s': Sched)
    requires SendInv(s) && s'.tasks.Keys == s.tasks.Keys
    requires forall id :: id in s.tasks ==> Quiet(s.tasks[id], s'.tasks[id])
    ensures SendInv(s')
  {
    forall id | id in s'.tasks && s'.tasks[id].state.Sending?
      ensures s'.tasks[id].state.target in s'.tasks
    {
      assert Quiet(s.tasks[id], s'.tasks[id]);
    }
  }

  /** The rest of the invariant only looks at states, waiter lists and queues. */
  lemma StatesKept(s: Sched, s': Sched)
    requires Inv(s) && SameRest(s, s') && s'.tasks.Keys == s.tasks.Keys
    requires forall id :: id in s.tasks ==>
               && s'.tasks[id].state == s.tasks[id].state && s'.tasks[id].waiters == s.tasks[id].waiters
               && s'.tasks[id].pendingMsgs == s.tasks[id].pendingMsgs
    ensures SendInv(s') && Waits(s') && SubsInv(s') && Messages(s') && |s'.place| == |s'.accepted|
  {
    MsgSubKeeps(s, s');
    WaitsKeep(s, s');
  }

  // ---- send ------------------------------------------------------------

  /** Nobody holds message `mid`. */
  ghost predicate Unheld(s: Sched, mid: nat) {
    && mid < |s.place| && !s.place[mid].Logged? && !s.place[mid].InSender? && !s.place[mid].InQueue?
  }

  /** Writing memory and logging an outcome. */
  lemma LogKeeps(s: Sched, s': Sched, mid: nat, e: Outcome)
    requires Inv(s) && mid < |s.place| && !s.place[mid].Logged?
    requires s' == s.(mem := s'.mem, place := s.place[mid := Logged(|s.log|)], log := s.log + [e])
    requires e.mid == mid && e.from == s.accepted[mid].sender
    requires e.Delivered? ==>
               |e.data| <= s.accepted[mid].len && (!s.accepted[mid].queued ==> e.to == s.accepted[mid].target)
    requires forall id :: id in s'.tasks ==> HoldsRest(s, s', id, mid)
    ensures Inv(s')
  {
    MsgLogKeeps(s, s', mid, e);
    WaitsKeep(s, s');
  }

  lemma UnheldMeans(s: Sched, s': Sched, mid: nat)
    requires Messages(s) && Unheld(s, mid) && s'.tasks == s.tasks
    ensures forall id :: id in s'.tasks ==> HoldsRest(s, s', id, mid)
  {
    MessagesMean(s);
    forall id | id in s'.tasks
      ensures HoldsRest(s, s', id, mid)
    {
      assert SenderHolds(s, id) && QueueHolds(s, id);
      var q := s.tasks[id].pendingMsgs;
      forall k | 0 <= k < |q| ensures q[k].mid != mid { assert PendingOk(s, id, q[k]); }
    }
  }

  lemma HandOverKeeps(s: Sched, from: nat, to: nat, data: seq<Byte>, mid: nat)
    requires Inv(s) && to in s.tasks && s.tasks[to].state.Recv? && Unheld(s, mid)
    requires s.accepted[mid].sender == from && |data| == s.accepted[mid].len
    requires !s.accepted[mid].queued ==> s.accepted[mid].target == to
    ensures Inv(HandOver(s, from, to, data, mid))
  {
    var t := s.tasks[to];
    var n := Min(|data|, t.state.bufLen);
    var s1 := s.(mem := Store(s.mem, t.state.bufPtr, data[..n]),
                 tasks := s.tasks[to := t.(currentCaller := Some(from))],
                 place := s.place[mid := Logged(|s.log|)],
                 log := s.log + [Delivered(mid, from, to, data[..n])]);
    var s0 := s.(tasks := s1.tasks);
    CosmeticKeeps(s, s0);
    UnheldMeans(s0, s1, mid);
    LogKeeps(s0, s1, mid, Delivered(mid, from, to, data[..n]));
    WakeKeeps(s1, to);
  }

  lemma SendQueuedMessages(s: Sched, caller: nat, target: nat, ptr: nat, len: nat)
    requires Messages(s) && |s.place| == |s.accepted| && target in s.tasks && s.tasks[target].state.Frozen?
    requires |s.tasks[target].pendingMsgs| < HOTSWAP_MSG_QUEUE_DEPTH
    ensures Messages(Send(s, caller, target, ptr, len).0)
  {
    var s' := Send(s, caller, target, ptr, len).0;
    MessagesMean(s);
    MessagesMean(s');
    forall id
      ensures SenderHolds(s', id) && QueueHolds(s', id)
    {
      assert SenderHolds(s, id) && QueueHolds(s, id);
      if id in s'.tasks {
        var q, q0 := s'.tasks[id].pendingMsgs, s.tasks[id].pendingMsgs;
        forall k | 0 <= k < |q|
          ensures PendingOk(s', id, q[k])
        {
          if k < |q0| { assert q[k] == q0[k] && PendingOk(s, id, q0[k]); }
        }
        forall j, k | 0 <= j < k < |q|
          ensures q[j].mid < q[k].mid
        {
          assert q[j] == q0[j] && PendingOk(s, id, q0[j]);
        }
      }
    }
    forall i ensures LogHolds(s', i) { assert LogHolds(s, i); }
  }

  lemma SendQueuedKeeps(s: Sched, caller: nat, target: nat, ptr: nat, len: nat)
    requires Inv(s) && target in s.tasks && s.tasks[target].state.Frozen?
    requires |s.tasks[target].pendingMsgs| < HOTSWAP_MSG_QUEUE_DEPTH
    ensures Inv(Send(s, caller, target, ptr, len).0)
  {
    var s' := Send(s, caller, target, ptr, len).0;
    SendQueuedMessages(s, caller, target, ptr, len);
    assert ReadySet(s'.tasks) == ReadySet(s.tasks);
    WaitsKeep(s, s');
  }

  lemma SendBlockedMessages(s: Sched, caller: nat, target: nat, ptr: nat, len: nat)
    requires Messages(s) && |s.place| == |s.accepted| && caller in s.tasks
    ensures var mid := |s.accepted|;
            Messages(Park(Accept(s, Msg(caller, target, len, false), InSender(caller)), caller, Sending(target, ptr, len, mid)))
  {
    var mid := |s.accepted|;
    var s' := Park(Accept(s, Msg(caller, target, len, false), InSender(caller)), caller, Sending(target, ptr, len, mid));
    MessagesMean(s);
    MessagesMean(s');
    forall id
      ensures SenderHolds(s', id) && QueueHolds(s', id)
    {
      assert SenderHolds(s, id) && QueueHolds(s, id);
      if id in s'.tasks {
        var q := s'.tasks[id].pendingMsgs;
        forall k | 0 <= k < |q| ensures PendingOk(s', id, q[k]) { assert PendingOk(s, id, q[k]); }
      }
    }
    forall i ensures LogHolds(s', i) { assert LogHolds(s, i); }
  }

  lemma SendBlockedKeeps(s: Sched, caller: nat, target: nat, ptr: nat, len: nat)
    requires Inv(s) && target in s.tasks
    requires caller in s.tasks && s.tasks[caller].state == Running
    ensures var mid := |s.accepted|;
            Inv(Park(Accept(s, Msg(caller, target, len, false), InSender(caller)), caller, Sending(target, ptr, len, mid)))
  {
    var mid := |s.accepted|;
    var s1 := Accept(s, Msg(caller, target, len, false), InSender(caller));
    var s' := Park(s1, caller, Sending(target, ptr, len, mid));
    BasePark(s1, caller, Sending(target, ptr, len, mid));
    SendBlockedMessages(s, caller, target, ptr, len);
    WaitsKeep(s, s');
  }

  lemma AcceptKeeps(s: Sched, m: Msg, p: Place)
    requires Inv(s)
    ensures Inv(Accept(s, m, p))
  {
    MsgAcceptKeeps(s, m, p);
    WaitsKeep(s, Accept(s, m, p));
  }

  /** Every branch of send, from a running task or from the kernel itself. */
  lemma SendKeeps(s: Sched, caller: nat, target: nat, ptr: nat, len: nat)
    requires Inv(s) && (caller in s.tasks ==> s.tasks[caller].state == Running)
    ensures Inv(Send(s, caller, target, ptr, len).0)
  {
    if target in s.tasks {
      var t := s.tasks[target];
      match t.state
      case Frozen(_, _) =>
        if |t.pendingMsgs| < HOTSWAP_MSG_QUEUE_DEPTH { SendQueuedKeeps(s, caller, target, ptr, len); }
      case Recv(_, _, _, _) =>
        var m := Msg(caller, target, len, false);
        AcceptKeeps(s, m, Gone);
        HandOverKeeps(Accept(s, m, Gone), caller, target, Bytes(s.mem, ptr, len), |s.accepted|);
      case _ =>
        if caller in s.tasks {
          SendBlockedKeeps(s, caller, target, ptr, len);
        } else {
          AcceptKeeps(s, Msg(caller, target, len, false), Gone);
        }
    }
  }

  // ---- receive ---------------------------------------------------------

  lemma FirstSenderSpec(s: Sched, target: nat)
    requires IdInv(s)
    ensures var f := FirstSender(s, target);
            && (f.Some? ==>
                  && f.value in s.tasks && s.tasks[f.value].state.Sending? && s.tasks[f.value].state.target == target
                  && forall id :: id in s.tasks && id < f.value ==>
                                    !(s.tasks[id].state.Sending? && s.tasks[id].state.target == target))
            && (f.None? ==> forall id :: id in s.tasks ==> !(s.tasks[id].state.Sending? && s.tasks[id].state.target == target))
  {
    SelectSpec(s.tasks, s.nextId, SendingTo(target));
    var c := Select(s.tasks, s.nextId, SendingTo(target));
    forall id | id in s.tasks
      ensures SendingTo(target)(id, s.tasks[id]) ==> id in c
    {}
    if c != [] { assert c[0] in c; }
  }

  /** Once its sender is released, nobody else holds that message. */
  lemma ReleasedMeans(s: Sched, w: Sched, s': Sched, sender: nat)
    requires Messages(s) && sender in s.tasks && s.tasks[sender].state.Sending?
    requires w == Wake(s, sender) && s'.tasks == w.tasks
    ensures var mid := s.tasks[sender].state.mid;
            && mid < |s.place| && mid < |s.accepted| && s.place[mid] == InSender(sender)
            && s.accepted[mid] == Msg(sender, s.tasks[sender].state.target, s.tasks[sender].state.msgLen, false)
            && forall id :: id in s'.tasks ==> HoldsRest(w, s', id, mid)
  {
    MessagesMean(s);
    assert SenderHolds(s, sender);
    var mid := s.tasks[sender].state.mid;
    forall id | id in s'.tasks
      ensures HoldsRest(w, s', id, mid)
    {
      assert SenderHolds(s, id) && QueueHolds(s, id);
      var q := s.tasks[id].pendingMsgs;
      forall k | 0 <= k < |q| ensures q[k].mid != mid { assert PendingOk(s, id, q[k]); }
    }
  }

  lemma TakeFromKeeps(s: Sched, caller: nat, buf: nat, len: nat, sender: nat)
    requires Inv(s) && sender in s.tasks && s.tasks[sender].state.Sending? && s.tasks[sender].state.target == caller
    ensures Inv(TakeFrom(s, caller, buf, len, sender))
  {
    var st := s.tasks[sender].state;
    ReleasedMeans(s, Wake(s, sender), Wake(s, sender), sender);
    var data := Bytes(s.mem, st.msgPtr, Min(st.msgLen, len));
    TakenKeeps(s, caller, sender, Store(s.mem, buf, data), Delivered(st.mid, sender, caller, data));
    CosmeticKeeps(Taken(s, sender, Store(s.mem, buf, data), Delivered(st.mid, sender, caller, data)),
                  TakeFrom(s, caller, buf, len, sender));
  }

  /** The sender awake, its message in memory and logged. */
  ghost function Taken(s: Sched, sender: nat, mem: Memory, e: Outcome): Sched
    requires sender in s.tasks && s.tasks[sender].state.Sending? && s.tasks[sender].state.mid < |s.place|
  {
    var mid := s.tasks[sender].state.mid;
    Wake(s, sender).(mem := mem, place := s.place[mid := Logged(|s.log|)], log := s.log + [e])
  }

  lemma TakenKeeps(s: Sched, caller: nat, sender: nat, mem: Memory, e: Outcome)
    requires Inv(s) && sender in s.tasks && s.tasks[sender].state.Sending? && s.tasks[sender].state.target == caller
    requires var st := s.tasks[sender].state;
             st.mid < |s.place| && e.Delivered? && e == Delivered(st.mid, sender, caller, e.data) && |e.data| <= st.msgLen
    ensures Inv(Taken(s, sender, mem, e))
  {
    var w := Wake(s, sender);
    WakeKeeps(s, sender);
    ReleasedMeans(s, w, w, sender);
    ReleasedMeans(s, w, Taken(s, sender, mem, e), sender);
    LogKeeps(w, Taken(s, sender, mem, e), s.tasks[sender].state.mid, e);
  }

  lemma ReceiveKeeps(s: Sched, caller: nat, mask: nat, buf: nat, len: nat)
    requires Inv(s) && caller in s.tasks && s.tasks[caller].state == Running
    ensures Inv(Receive(s, caller, mask, buf, len).0)
  {
    FirstSenderSpec(s, caller);
    var from := FirstSender(s, caller);
    if from.Some? { TakeFromKeeps(s, caller, buf, len, from.value); }
    else { ParkKeeps(s, caller, Recv(mask, buf, len, None)); }
  }

  lemma TryReceiveKeeps(s: Sched, caller: nat, buf: nat, len: nat)
    requires Inv(s)
    ensures Inv(TryReceive(s, caller, buf, len).0)
  {
    FirstSenderSpec(s, caller);
    var from := FirstSender(s, caller);
    if from.Some? { TakeFromKeeps(s, caller, buf, len, from.value); }
  }

  /** Same states and priorities: same queues will do. */
  lemma BaseSame(s: Sched, s': Sched)
    requires Base(s) && s'.tasks.Keys == s.tasks.Keys && s'.ready == s.ready
    requires s'.zombies == s.zombies && s'.nextId == s.nextId && s'.current == s.current
    requires forall id :: id in s.tasks ==>
               s'.tasks[id].state == s.tasks[id].state && s'.tasks[id].priority == s.tasks[id].priority
    ensures Base(s')
  {
    assert ReadySet(s'.tasks) == ReadySet(s.tasks);
  }

  /** `s'` makes exactly the tasks of `ids` Ready and queues them in that order. */
  ghost predicate BatchOf(s: Sched, s': Sched, ids: seq<nat>) {
    && s'.tasks.Keys == s.tasks.Keys && s'.ready == PushAll(s.ready, s'.tasks, ids)
    && s'.zombies == s.zombies && s'.nextId == s.nextId && s'.current == s.current
    && (forall id :: id in s.tasks ==> BatchTask(s, s', ids, id))
  }

  ghost predicate BatchTask(s: Sched, s': Sched, ids: seq<nat>, id: nat)
    requires id in s.tasks && id in s'.tasks
  {
    SameFrame(s.tasks[id], s'.tasks[id]) && s'.tasks[id].state == if id in ids then Ready else s.tasks[id].state
  }

  lemma BaseBatch(s: Sched, s': Sched, ids: seq<nat>)
    requires Base(s) && BatchOf(s, s', ids) && Distinct(ids)
    requires forall k :: 0 <= k < |ids| ==> ids[k] in s.tasks && s.tasks[ids[k]].state != Ready
    ensures Base(s')
  {
    assert forall id :: id in s.tasks ==> BatchTask(s, s', ids, id);
    assert ReadySet(s'.tasks) == ReadySet(s.tasks) + Members(ids);
    WakeBatch(s.tasks, s'.tasks, s.ready, ids);
  }

  lemma PopPendingMessages(s: Sched, s': Sched, caller: nat, m: PendingMsg, e: Outcome)
    requires Messages(s) && |s.place| == |s.accepted|
    requires caller in s.tasks && s.tasks[caller].pendingMsgs != [] && m == s.tasks[caller].pendingMsgs[0]
    requires s'.tasks.Keys == s.tasks.Keys && s'.accepted == s.accepted
    requires forall id :: id in s.tasks ==>
               && s'.tasks[id].state == s.tasks[id].state
               && s'.tasks[id].pendingMsgs == if id == caller then s.tasks[id].pendingMsgs[1..] else s.tasks[id].pendingMsgs
    requires m.mid < |s.place| ==> s'.place == s.place[m.mid := Logged(|s.log|)]
    requires s'.log == s.log + [e] && e.Delivered? && e.mid == m.mid && e.from == m.sender && |e.data| <= |m.data|
    ensures Messages(s')
  {
    MessagesMean(s);
    assert QueueHolds(s, caller) && PendingOk(s, caller, m);
    forall id | id in s'.tasks
      ensures HoldsRest(s, s', id, m.mid)
    {
      assert SenderHolds(s, id) && QueueHolds(s, id);
      var q := s'.tasks[id].pendingMsgs;
      forall k | 0 <= k < |q|
        ensures q[k].mid != m.mid
      {
        if id != caller { assert PendingOk(s, id, q[k]); }
      }
    }
    MsgLogKeeps(s, s', m.mid, e);
  }

  lemma SysReceiveKeeps(s: Sched, caller: nat, mask: nat, buf: nat, len: nat)
    requires Inv(s) && caller in s.tasks && s.tasks[caller].state == Running
    ensures Inv(SysReceive(s, caller, mask, buf, len).0)
  {
    var s' := SysReceive(s, caller, mask, buf, len).0;
    var t := s.tasks[caller];
    if t.pendingDeaths != [] {
      CosmeticKeeps(s, s');
    } else if t.pendingMsgs != [] {
      var m := t.pendingMsgs[0];
      BaseSame(s, s');
      PopPendingMessages(s, s', caller, m, Delivered(m.mid, m.sender, caller, m.data[..Min(|m.data|, len)]));
      WaitsKeep(s, s');
    } else {
      ReceiveKeeps(s, caller, mask, buf, len);
    }
  }

  lemma ReceiveUntilKeeps(s: Sched, caller: nat, mask: nat, buf: nat, len: nat, deadline: nat)
    requires Inv(s) && caller in s.tasks && s.tasks[caller].state == Running
    ensures Inv(ReceiveUntil(s, caller, mask, buf, len, deadline).0)
  {
    FirstSenderSpec(s, caller);
    var from := FirstSender(s, caller);
    if from.Some? {
      ReceiveKeeps(s, caller, mask, buf, len);
    } else {
      ParkKeeps(s, caller, Recv(mask, buf, len, Some(deadline)));
      var s1 := Park(s, caller, Recv(mask, buf, len, None));
      assert s1.tasks[caller := s1.tasks[caller].(state := Recv(mask, buf, len, Some(deadline)))]
          == s.tasks[caller := s.tasks[caller].(state := Recv(mask, buf, len, Some(deadline)))];
    }
  }

  // ---- futex, wait, events ---------------------------------------------

  lemma {:induction false} WakeEachFrame(s: Sched, ids: seq<nat>)
    ensures var s' := WakeEach(s, ids);
            && s'.tasks.Keys == s.tasks.Keys
            && forall id :: id in s.tasks && id !in ids ==> s'.tasks[id] == s.tasks[id]
    decreases |ids|
  {
    if ids != [] { WakeEachFrame(s, ids[..|ids| - 1]); }
  }

  lemma {:induction false} WakeEachKeeps(s: Sched, ids: seq<nat>)
    requires Inv(s) && Distinct(ids)
    requires forall k :: 0 <= k < |ids| ==> ids[k] in s.tasks && s.tasks[ids[k]].state.FutexWait?
    ensures Inv(WakeEach(s, ids))
    decreases |ids|
  {
    if ids != [] {
      var k := |ids| - 1;
      WakeEachKeeps(s, ids[..k]);
      WakeEachFrame(s, ids[..k]);
      WakeKeeps(WakeEach(s, ids[..k]), ids[k]);
    }
  }

  lemma FutexChosenSpec(s: Sched, addr: nat, count: nat)
    ensures var ids := FutexChosen(s, addr, count);
            Distinct(ids) && forall k :: 0 <= k < |ids| ==> ids[k] in s.tasks && s.tasks[ids[k]].state == FutexWait(addr)
  {
    SelectSpec(s.tasks, s.nextId, FutexWaitingOn(addr));
    var c := Select(s.tasks, s.nextId, FutexWaitingOn(addr));
    assert forall k :: 0 <= k < |c| ==> c[k] in c;
  }

  /** The lowest-numbered waiters are chosen, `count` of them if there are so
      many, but at least one where anyone waits. */
  lemma FutexChosenFirst(s: Sched, addr: nat, count: nat)
    requires IdInv(s)
    ensures var ids, most := FutexChosen(s, addr, count), if count == 0 then 1 else count;
            && |ids| <= most
            && forall x :: x in s.tasks && s.tasks[x].state == FutexWait(addr) && x !in ids ==>
                             |ids| == most && forall k :: 0 <= k < |ids| ==> ids[k] < x
  {
    var c := Select(s.tasks, s.nextId, FutexWaitingOn(addr));
    var ids := FutexChosen(s, addr, count);
    SelectSpec(s.tasks, s.nextId, FutexWaitingOn(addr));
    forall x | x in s.tasks && s.tasks[x].state == FutexWait(addr) && x !in ids
      ensures |ids| < |c| && forall k :: 0 <= k < |ids| ==> ids[k] < x
    {
      assert x in c;
      var j :| 0 <= j < |c| && c[j] == x;
      assert forall k :: 0 <= k < |ids| ==> ids[k] == c[k] && ids[k] in ids;
    }
  }

  lemma FutexWakeKeeps(s: Sched, addr: nat, count: nat)
    requires Inv(s)
    ensures Inv(DoFutexWake(s, addr, count).0)
  {
    FutexChosenSpec(s, addr, count);
    WakeEachKeeps(s, FutexChosen(s, addr, count));
  }

  /** A running task is on nobody's waiter list. */
  lemma NotListed(s: Sched, id: nat, pid: nat)
    requires WaitListsOk(s) && id in s.tasks && Awaits(s.tasks[id].state).None? && pid in s.tasks
    ensures id !in s.tasks[pid].waiters
  {
    assert WaitersOk(s, pid, s.tasks[pid].waiters);
  }

  lemma WaitWaiters(s: Sched, s': Sched, caller: nat, pid: nat, p: nat)
    requires WaitListsOk(s) && IdInv(s) && caller in s.tasks && s.tasks[caller].state == Running && pid in s.tasks
    requires s' == DoWait(s, caller, pid).0 && p in s.tasks
    ensures WaitersOk(s', p, s'.tasks[p].waiters)
  {
    var ws := s.tasks[p].waiters;
    assert WaitersOk(s, p, ws);
    NotListed(s, caller, p);
    assert s'.tasks[p].waiters == if p == pid then ws + [caller] else ws;
  }

  lemma WaitWaits(s: Sched, caller: nat, pid: nat)
    requires Waits(s) && IdInv(s) && caller in s.tasks && s.tasks[caller].state == Running && pid in s.tasks
    ensures Waits(DoWait(s, caller, pid).0)
  {
    var s' := DoWait(s, caller, pid).0;
    WaitsMean(s);
    WaitsMean(s');
    forall p | p in s'.tasks
      ensures WaitersOk(s', p, s'.tasks[p].waiters)
    {
      WaitWaiters(s, s', caller, pid, p);
    }
    forall id | id in s'.tasks && Awaits(s'.tasks[id].state).Some?
      ensures var q := Awaits(s'.tasks[id].state).value; q in s'.tasks && id in s'.tasks[q].waiters
    {
      if id != caller {
        var q := Awaits(s.tasks[id].state).value;
        assert id in s.tasks[q].waiters;
      }
    }
  }

  lemma DoWaitKeeps(s: Sched, caller: nat, pid: nat)
    requires Inv(s) && caller in s.tasks && s.tasks[caller].state == Running
    ensures Inv(DoWait(s, caller, pid).0)
  {
    if pid in s.tasks {
      var s1 := s.(tasks := s.tasks[pid := s.tasks[pid].(waiters := s.tasks[pid].waiters + [caller])]);
      var s' := Park(s1, caller, Waiting(pid));
      BaseSame(s, s1);
      BasePark(s1, caller, Waiting(pid));
      MsgSubKeeps(s, s');
      WaitWaits(s, caller, pid);
    }
  }
}
