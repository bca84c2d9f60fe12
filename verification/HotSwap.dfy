/** The five-step hot-swap of a cell, run beside every other task.
    Source: kernel/src/cell/hotswap.rs. */
module HotSwap {
  import opened ByteData
  import opened Wrappers
  import opened Tasks
  import opened SchedSpec
  import opened SchedSafety
  import opened SchedDeath
  import opened SchedRuns
  import opened SchedFate
  import TaskTable

  const HOTSWAP_EXIT: nat := 0xAAAA_AAAA

  /** A delivered message: its position in the drained queue, its entry in the log. */
  datatype Hit = Hit(pos: nat, entry: nat)

  /** Where the swap stands. */
  datatype Swap =
    | NoSwap
    | Soft(old_: nat, swapId: nat)
    | Hard(old_: nat, swapId: nat)
    | Spawned(old_: nat, new_: nat)
    | Draining(old_: nat, new_: nat, queue: seq<PendingMsg>, pos: nat, hits: seq<Hit>, missed: nat)
    | Finished(old_: nat, new_: nat)
    | Aborted(old_: nat, spawned: bool)

  /** `released` is history: a step of another task took the old cell out of its freeze. */
  datatype System = System(sched: Sched, swap: Swap, released: bool)

  datatype SwapLabel =
    | Other(l: Label)
    | Begin(cell: nat, id: nat)
    | SnapshotFails
    | HardFreeze
    | SpawnFails
    | SpawnOk
    | RestoreFails
    | TakeQueue
    | DrainOne
    | Terminate

  // ---- the drain -------------------------------------------------------

  /** The messages of a taken queue are now held by the swap itself. */
  function MarkDrain(place: seq<Place>, queue: seq<PendingMsg>): (r: seq<Place>)
    ensures |r| == |place|
    decreases |queue|
  {
    if queue == [] then place
    else
      var p := MarkDrain(place, queue[..|queue| - 1]);
      var m := queue[|queue| - 1].mid;
      if m < |p| then p[m := InDrain] else p
  }

  function QueueOf(s: Sched, id: nat): seq<PendingMsg> {
    if id in s.tasks then s.tasks[id].pendingMsgs else []
  }

  /** Takes the queue of the frozen task. */
  function Take(s: Sched, id: nat): Sched {
    if id in s.tasks
    then s.(tasks := s.tasks[id := s.tasks[id].(pendingMsgs := [])], place := MarkDrain(s.place, s.tasks[id].pendingMsgs))
    else s
  }

  predicate InRecv(s: Sched, id: nat) { id in s.tasks && s.tasks[id].state.Recv? }

  /** One turn of the drain loop: deliver if the new cell is in Recv, else skip. */
  function Drain(s: Sched, to: nat, m: PendingMsg): Sched
    requires m.mid < |s.place|
  {
    if InRecv(s, to) then HandOver(s, m.sender, to, m.data, m.mid)
    else s.(place := s.place[m.mid := Gone])
  }

  /** A delivery of the drain does to the tasks, the queues and memory what an
      ordinary send of the same bytes by the original sender would do. */
  lemma DrainIsSend(s: Sched, to: nat, m: PendingMsg, ptr: nat)
    requires |s.place| == |s.accepted| && m.mid < |s.place| && InRecv(s, to) && Bytes(s.mem, ptr, |m.data|) == m.data
    ensures var (s', r) := Send(s, m.sender, to, ptr, |m.data|);
            && r == Sent
            && Drain(s, to, m).tasks == s'.tasks && Drain(s, to, m).ready == s'.ready && Drain(s, to, m).mem == s'.mem
  {}

  /** The record of one turn. */
  function Advance(s: Sched, w: Swap): Swap
    requires w.Draining?
  {
    if InRecv(s, w.new_) then w.(pos := w.pos + 1, hits := w.hits + [Hit(w.pos, |s.log|)])
    else w.(pos := w.pos + 1, missed := w.missed + 1)
  }

  // ---- steps -----------------------------------------------------------

  /** The cell being swapped is alive and frozen. */
  predicate OldFrozen(s: Sched, w: Swap) { !w.NoSwap? && w.old_ in s.tasks && s.tasks[w.old_].state.Frozen? }

  /** Between `s` and `s'` it stopped being frozen. */
  predicate LetGo(s: Sched, s': Sched, w: Swap) { OldFrozen(s, w) && w.old_ in s'.tasks && !OldFrozen(s', w) }

  predicate CanStep(y: System, l: SwapLabel) {
    var s := y.sched;
    match l
    case Other(k) => Enabled(s, k) && !k.LFreeze? && !k.LUnfreeze?
    case Begin(cell, _) => (y.swap.NoSwap? || y.swap.Finished? || y.swap.Aborted?) && cell in s.tasks && !s.tasks[cell].state.Frozen?
    case SnapshotFails => y.swap.Soft?
    case HardFreeze => y.swap.Soft?
    case SpawnFails => y.swap.Hard? && ThawOk(s, y.swap.old_)
    case SpawnOk => y.swap.Hard?
    case RestoreFails => y.swap.Spawned?
    case TakeQueue => y.swap.Spawned?
    case DrainOne => y.swap.Draining? && y.swap.pos < |y.swap.queue| && y.swap.queue[y.swap.pos].mid < |s.place|
    case Terminate => y.swap.Draining? && y.swap.pos == |y.swap.queue|
  }

  ghost function Next(y: System, l: SwapLabel): System
    requires CanStep(y, l) && |y.sched.place| == |y.sched.accepted|
  {
    var s, w, r := y.sched, y.swap, y.released;
    match l
    case Other(k) => System(Step(s, k), w, r || LetGo(s, Step(s, k), w))
    case Begin(cell, id) => System(s, Soft(cell, id), false)
    case SnapshotFails => System(s, Aborted(w.old_, false), r)
    case HardFreeze => System(Freeze(s, w.old_, w.swapId).0, Hard(w.old_, w.swapId), r)
    case SpawnFails => System(Unfreeze(s, w.old_), Aborted(w.old_, false), r)
    case SpawnOk => System(Spawn(s), Spawned(w.old_, s.nextId), r)
    case RestoreFails => System(s, Aborted(w.old_, true), r)
    case TakeQueue => System(Take(s, w.old_), Draining(w.old_, w.new_, QueueOf(s, w.old_), 0, [], 0), r)
    case DrainOne => System(Drain(s, w.new_, w.queue[w.pos]), Advance(s, w), r)
    case Terminate => System(Exit(s, w.old_, HOTSWAP_EXIT), Finished(w.old_, w.new_), r)
  }

  // ---- invariant -------------------------------------------------------

  /** A message the drain has not reached yet: accepted for the old task, in nobody
      else's hands. */
  ghost predicate Held(s: Sched, old_: nat, m: PendingMsg) {
    && m.mid < |s.place| && m.mid < |s.accepted| && s.place[m.mid] == InDrain
    && s.accepted[m.mid] == Msg(m.sender, old_, |m.data|, true)
  }

  /** A delivery of the drain, as the log has it. */
  ghost predicate HitOk(s: Sched, new_: nat, queue: seq<PendingMsg>, pos: nat, h: Hit) {
    && h.pos < pos && h.pos < |queue| && h.entry < |s.log|
    && var m, e := queue[h.pos], s.log[h.entry];
    && e.Delivered? && e.mid == m.mid && e.from == m.sender && e.to == new_ && e.data <= m.data
  }

  ghost predicate DrainOk(s: Sched, w: Swap)
    requires w.Draining?
  {
    && |w.queue| <= HOTSWAP_MSG_QUEUE_DEPTH && w.pos <= |w.queue|
    && (forall j, k :: 0 <= j < k < |w.queue| ==> w.queue[j].mid < w.queue[k].mid)
    && (forall k :: w.pos <= k < |w.queue| ==> Held(s, w.old_, w.queue[k]))
    && |w.hits| + w.missed == w.pos
    && (forall k :: 0 <= k < |w.hits| ==> HitOk(s, w.new_, w.queue, w.pos, w.hits[k]))
    && (forall j, k :: 0 <= j < k < |w.hits| ==> w.hits[j].pos < w.hits[k].pos && w.hits[j].entry < w.hits[k].entry)
  }

  /** The old task is frozen or gone. */
  ghost predicate Stopped(s: Sched, id: nat) { id in s.tasks ==> s.tasks[id].state.Frozen? }

  ghost predicate SwapOk(s: Sched, w: Swap, released: bool) {
    match w
    case NoSwap => !released
    case Soft(old_, _) => old_ < s.nextId && !released && !OldFrozen(s, w)
    case Hard(old_, _) => old_ < s.nextId && (released || Stopped(s, old_))
    case Spawned(old_, new_) => old_ < new_ < s.nextId && (released || Stopped(s, old_))
    case Draining(old_, new_, _, _, _, _) => old_ < new_ < s.nextId && (released || Stopped(s, old_)) && DrainOk(s, w)
    case Finished(old_, new_) => old_ < new_ < s.nextId && old_ !in s.tasks
    case Aborted(old_, spawned) => old_ < s.nextId && if spawned then released || Stopped(s, old_) else !OldFrozen(s, w)
  }

  ghost predicate SysInv(y: System) { Inv(y.sched) && SwapOk(y.sched, y.swap, y.released) }

  // ---- other tasks run -------------------------------------------------

  lemma DrainOkKeeps(s: Sched, s': Sched, w: Swap)
    requires CareTaken(s, s') && w.Draining? && DrainOk(s, w) && |s'.place| == |s'.accepted|
    ensures DrainOk(s', w)
  {
    forall k | w.pos <= k < |w.queue|
      ensures Held(s', w.old_, w.queue[k])
    {
      assert Held(s, w.old_, w.queue[k]);
      assert StillDraining(s, s', w.queue[k].mid);
    }
    forall k | 0 <= k < |w.hits|
      ensures HitOk(s', w.new_, w.queue, w.pos, w.hits[k])
    {
      assert HitOk(s, w.new_, w.queue, w.pos, w.hits[k]);
    }
  }

  /** Which steps of other tasks take the old cell out of its freeze: a reply to it, and
      the end of a task it was waiting for when it was frozen. */
  lemma ReleasedBy(y: System, k: Label)
    requires SysInv(y) && CanStep(y, Other(k)) && OldFrozen(y.sched, y.swap) && !y.released
    ensures var s, s', old_ := y.sched, Step(y.sched, k), y.swap.old_;
            Next(y, Other(k)).released <==>
            && old_ in s'.tasks
            && ((k.LReply? && ReplyTarget(s, s.current) == Some(old_)) || Orphaned(s.tasks[old_], s'))
  {
    FrozenStays(y.sched, k, y.swap.old_);
  }

  lemma ReplyDrain(s: Sched, s': Sched, w: Swap)
    requires w.Draining? && SameRest(s, s') && DrainOk(s, w)
    ensures DrainOk(s', w)
  {
    forall k | w.pos <= k < |w.queue|
      ensures Held(s', w.old_, w.queue[k])
    {
      assert Held(s, w.old_, w.queue[k]);
    }
    forall k | 0 <= k < |w.hits|
      ensures HitOk(s', w.new_, w.queue, w.pos, w.hits[k])
    {
      assert HitOk(s, w.new_, w.queue, w.pos, w.hits[k]);
    }
  }

  lemma ReplyStepKeeps(y: System, result: nat)
    requires SysInv(y) && CanStep(y, Other(LReply(result)))
    ensures SysInv(Next(y, Other(LReply(result))))
  {
    var s := y.sched;
    ReplyKeeps(s, s.current, result);
    ReplyFrame(s, s.current, result);
    ReplyKeepsSwap(s, Reply(s, s.current, result), y.swap, y.released);
  }

  lemma ReplyKeepsSwap(s: Sched, s': Sched, w: Swap, released: bool)
    requires SwapOk(s, w, released) && SameRest(s, s') && s'.tasks.Keys == s.tasks.Keys
    requires forall id :: id in s.tasks ==> s'.tasks[id].state == s.tasks[id].state || s'.tasks[id].state == Ready
    ensures SwapOk(s', w, released || LetGo(s, s', w))
  {
    if w.Draining? { ReplyDrain(s, s', w); }
  }

  lemma OthersKeepSwap(s: Sched, s': Sched, w: Swap, released: bool)
    requires CareTaken(s, s') && SwapOk(s, w, released) && |s'.place| == |s'.accepted|
    ensures SwapOk(s', w, released || LetGo(s, s', w))
  {
    if !w.NoSwap? { assert NotReborn(s, s', w.old_) && Fate(s, s', w.old_); }
    if w.Draining? { DrainOkKeeps(s, s', w); }
  }

  lemma OtherKeeps(y: System, k: Label)
    requires SysInv(y) && CanStep(y, Other(k))
    ensures SysInv(Next(y, Other(k)))
  {
    if k.LReply? {
      ReplyStepKeeps(y, k.result);
    } else {
      var s, s' := y.sched, Step(y.sched, k);
      StepKeeps(s, k);
      StepCareful(s, k);
      CarefulMeans(s, s');
      OthersKeepSwap(s, s', y.swap, y.released);
    }
  }

  // ---- taking the queue ------------------------------------------------

  lemma {:induction false} MarkDrainAt(place: seq<Place>, queue: seq<PendingMsg>, m: nat)
    requires m < |place|
    ensures MarkDrain(place, queue)[m] ==
            if exists k :: 0 <= k < |queue| && queue[k].mid == m then InDrain else place[m]
    decreases |queue|
  {
    if queue != [] {
      var last := |queue| - 1;
      MarkDrainAt(place, queue[..last], m);
      if exists k :: 0 <= k < |queue| && queue[k].mid == m {
        var k :| 0 <= k < |queue| && queue[k].mid == m;
        if k < last { assert queue[..last][k].mid == m; }
      }
    }
  }

  /** Nobody but the frozen task holds what is on its queue. */
  lemma MarkDrainSpares(s: Sched, id: nat, m: nat)
    requires MsgInv(s) && id in s.tasks && m < |s.place| && s.place[m] != InQueue(id)
    ensures MarkDrain(s.place, s.tasks[id].pendingMsgs)[m] == s.place[m]
  {
    var q := s.tasks[id].pendingMsgs;
    MarkDrainAt(s.place, q, m);
    assert QueueHolds(s, id);
    forall k | 0 <= k < |q| ensures q[k].mid != m { assert PendingOk(s, id, q[k]); }
  }

  lemma TakeMessages(s: Sched, id: nat)
    requires Messages(s) && id in s.tasks
    ensures Messages(Take(s, id))
  {
    var s' := Take(s, id);
    MessagesMean(s);
    MessagesMean(s');
    forall x
      ensures SenderHolds(s', x) && QueueHolds(s', x)
    {
      assert SenderHolds(s, x) && QueueHolds(s, x);
      if x in s.tasks && s.tasks[x].state.Sending? { MarkDrainSpares(s, id, s.tasks[x].state.mid); }
      if x in s.tasks && x != id {
        var q := s.tasks[x].pendingMsgs;
        forall k | 0 <= k < |q|
          ensures PendingOk(s', x, q[k])
        {
          assert PendingOk(s, x, q[k]);
          MarkDrainSpares(s, id, q[k].mid);
        }
      }
    }
    forall i: nat
      ensures LogHolds(s', i)
    {
      assert LogHolds(s, i);
      if i < |s.log| { MarkDrainSpares(s, id, s.log[i].mid); }
    }
  }

  lemma TakeKeeps(s: Sched, id: nat)
    requires Inv(s)
    ensures Inv(Take(s, id))
  {
    if id in s.tasks {
      var s' := Take(s, id);
      BaseSame(s, s');
      TakeMessages(s, id);
      WaitsKeep(s, s');
    }
  }

  /** What is taken: at most 64 messages, in acceptance order, each held. */
  lemma TakenQueue(s: Sched, id: nat)
    requires Inv(s)
    ensures var q, s' := QueueOf(s, id), Take(s, id);
            && |q| <= HOTSWAP_MSG_QUEUE_DEPTH
            && (forall j, k :: 0 <= j < k < |q| ==> q[j].mid < q[k].mid)
            && forall k :: 0 <= k < |q| ==> Held(s', id, q[k])
  {
    MessagesMean(s);
    if id in s.tasks {
      var q := s.tasks[id].pendingMsgs;
      assert QueueHolds(s, id);
      forall k | 0 <= k < |q|
        ensures Held(Take(s, id), id, q[k])
      {
        assert PendingOk(s, id, q[k]);
        MarkDrainAt(s.place, q, q[k].mid);
      }
    }
  }

  // ---- one drain turn --------------------------------------------------

  lemma SkipKeeps(s: Sched, mid: nat)
    requires Inv(s) && mid < |s.place| && s.place[mid] == InDrain
    ensures Inv(s.(place := s.place[mid := Gone]))
  {
    var s' := s.(place := s.place[mid := Gone]);
    MessagesMean(s);
    MessagesMean(s');
    forall x
      ensures SenderHolds(s', x) && QueueHolds(s', x)
    {
      assert SenderHolds(s, x) && QueueHolds(s, x);
      if x in s.tasks {
        var q := s.tasks[x].pendingMsgs;
        forall k | 0 <= k < |q| ensures PendingOk(s', x, q[k]) { assert PendingOk(s, x, q[k]); }
      }
    }
    forall i ensures LogHolds(s', i) { assert LogHolds(s, i); }
    WaitsKeep(s, s');
  }

  /** One turn: nothing but the receiver and this message's record changes. */
  lemma DrainKeeps(s: Sched, old_: nat, to: nat, m: PendingMsg)
    requires Inv(s) && Held(s, old_, m)
    ensures Inv(Drain(s, to, m))
  {
    if InRecv(s, to) { HandOverKeeps(s, m.sender, to, m.data, m.mid); }
    else { SkipKeeps(s, m.mid); }
  }

  lemma DrainFrame(s: Sched, to: nat, m: PendingMsg)
    requires m.mid < |s.place|
    ensures var s' := Drain(s, to, m);
            && s'.tasks.Keys == s.tasks.Keys && s'.nextId == s.nextId && s'.accepted == s.accepted
            && |s'.place| == |s.place| && s.log <= s'.log
            && (forall id :: id in s.tasks && id != to ==> s'.tasks[id] == s.tasks[id])
            && (forall x: nat :: x < |s.place| && x != m.mid ==> s'.place[x] == s.place[x])
            && (InRecv(s, to) ==>
                  && |s'.log| == |s.log| + 1
                  && s'.log[|s.log|] == Delivered(m.mid, m.sender, to, m.data[..Min(|m.data|, s.tasks[to].state.bufLen)]))
            && (!InRecv(s, to) ==> s'.log == s.log && s'.tasks == s.tasks)
  {}

  lemma DrainStepKeeps(y: System)
    requires SysInv(y) && CanStep(y, DrainOne)
    ensures SysInv(Next(y, DrainOne))
  {
    var s, w := y.sched, y.swap;
    var m := w.queue[w.pos];
    assert Held(s, w.old_, m);
    DrainKeeps(s, w.old_, w.new_, m);
    DrainStepOk(s, w, y.released);
  }

  lemma DrainStepOk(s: Sched, w: Swap, released: bool)
    requires w.Draining? && SwapOk(s, w, released) && w.pos < |w.queue| && w.queue[w.pos].mid < |s.place|
    ensures SwapOk(Drain(s, w.new_, w.queue[w.pos]), Advance(s, w), released)
  {
    DrainFrame(s, w.new_, w.queue[w.pos]);
    if InRecv(s, w.new_) { HitKeeps(s, w); } else { MissKeeps(s, w); }
  }

  /** The messages behind the current one stay held. */
  lemma RestHeld(s: Sched, w: Swap)
    requires w.Draining? && DrainOk(s, w) && w.pos < |w.queue| && w.queue[w.pos].mid < |s.place|
    ensures forall k :: w.pos < k < |w.queue| ==> Held(Drain(s, w.new_, w.queue[w.pos]), w.old_, w.queue[k])
  {
    DrainFrame(s, w.new_, w.queue[w.pos]);
    forall k | w.pos < k < |w.queue|
      ensures Held(Drain(s, w.new_, w.queue[w.pos]), w.old_, w.queue[k])
    {
      assert Held(s, w.old_, w.queue[k]) && w.queue[w.pos].mid < w.queue[k].mid;
    }
  }

  lemma MissKeeps(s: Sched, w: Swap)
    requires w.Draining? && DrainOk(s, w) && w.pos < |w.queue| && w.queue[w.pos].mid < |s.place| && !InRecv(s, w.new_)
    ensures DrainOk(Drain(s, w.new_, w.queue[w.pos]), w.(pos := w.pos + 1, missed := w.missed + 1))
  {
    RestHeld(s, w);
    var s' := Drain(s, w.new_, w.queue[w.pos]);
    forall k | 0 <= k < |w.hits|
      ensures HitOk(s', w.new_, w.queue, w.pos + 1, w.hits[k])
    {
      assert HitOk(s, w.new_, w.queue, w.pos, w.hits[k]);
    }
  }

  lemma HitKeeps(s: Sched, w: Swap)
    requires w.Draining? && DrainOk(s, w) && w.pos < |w.queue| && w.queue[w.pos].mid < |s.place| && InRecv(s, w.new_)
    ensures DrainOk(Drain(s, w.new_, w.queue[w.pos]), w.(pos := w.pos + 1, hits := w.hits + [Hit(w.pos, |s.log|)]))
  {
    RestHeld(s, w);
    DrainFrame(s, w.new_, w.queue[w.pos]);
    var s', hits := Drain(s, w.new_, w.queue[w.pos]), w.hits + [Hit(w.pos, |s.log|)];
    forall k | 0 <= k < |hits|
      ensures HitOk(s', w.new_, w.queue, w.pos + 1, hits[k])
    {
      if k < |w.hits| { assert HitOk(s, w.new_, w.queue, w.pos, w.hits[k]); }
    }
    forall j, k | 0 <= j < k < |hits|
      ensures hits[j].pos < hits[k].pos && hits[j].entry < hits[k].entry
    {
      assert hits[j] == w.hits[j] && HitOk(s, w.new_, w.queue, w.pos, w.hits[j]);
    }
  }

  // ---- every step ------------------------------------------------------

  lemma FreezeStepKeeps(y: System)
    requires SysInv(y) && CanStep(y, HardFreeze)
    ensures SysInv(Next(y, HardFreeze))
  {
    FreezeKeeps(y.sched, y.swap.old_, y.swap.swapId);
  }

  lemma SpawnStepKeeps(y: System, l: SwapLabel)
    requires SysInv(y) && CanStep(y, l) && (l.SpawnFails? || l.SpawnOk?)
    ensures SysInv(Next(y, l))
  {
    if l.SpawnOk? { SpawnKeeps(y.sched); } else { UnfreezeKeeps(y.sched, y.swap.old_); }
  }

  lemma TakeStepKeeps(y: System)
    requires SysInv(y) && CanStep(y, TakeQueue)
    ensures SysInv(Next(y, TakeQueue))
  {
    TakeKeeps(y.sched, y.swap.old_);
    TakenQueue(y.sched, y.swap.old_);
  }

  lemma EndStepKeeps(y: System)
    requires SysInv(y) && CanStep(y, Terminate)
    ensures SysInv(Next(y, Terminate))
  {
    ExitKeeps(y.sched, y.swap.old_, HOTSWAP_EXIT);
    ExitFrame(y.sched, y.swap.old_, HOTSWAP_EXIT);
  }

  lemma NextKeeps(y: System, l: SwapLabel)
    requires SysInv(y) && CanStep(y, l)
    ensures SysInv(Next(y, l))
  {
    match l
    case Other(k) => OtherKeeps(y, k);
    case HardFreeze => FreezeStepKeeps(y);
    case SpawnFails | SpawnOk => SpawnStepKeeps(y, l);
    case TakeQueue => TakeStepKeeps(y);
    case DrainOne => DrainStepKeeps(y);
    case Terminate => EndStepKeeps(y);
    case _ =>
  }

  ghost predicate Runs(mem: Memory, run: seq<SwapLabel>, y: System)
    decreases |run|
  {
    if run == [] then y == System(Boot(mem), NoSwap, false)
    else
      var k := |run| - 1;
      exists prev: System ::
        && Runs(mem, run[..k], prev)
        && |prev.sched.place| == |prev.sched.accepted| && CanStep(prev, run[k]) && y == Next(prev, run[k])
  }

  lemma {:induction false} RunInvariant(mem: Memory, run: seq<SwapLabel>, y: System)
    requires Runs(mem, run, y)
    ensures SysInv(y)
    decreases |run|
  {
    if run == [] {
      BootInv(mem);
    } else {
      var k := |run| - 1;
      var prev :| Runs(mem, run[..k], prev) && |prev.sched.place| == |prev.sched.accepted|
                  && CanStep(prev, run[k]) && y == Next(prev, run[k]);
      RunInvariant(mem, run[..k], prev);
      NextKeeps(prev, run[k]);
    }
  }

  // ---- what a swap guarantees ------------------------------------------

  /** On every run: from the freeze on, for as long as no step of another task releases
      it, and in any case once the swap is finished, the old task is frozen or gone, so
      it is on no ready queue and never runs. */
  lemma OldNeverRunsAgain(mem: Memory, run: seq<SwapLabel>, y: System)
    requires Runs(mem, run, y) && (y.released ==> y.swap.Finished?)
    requires y.swap.Hard? || y.swap.Spawned? || y.swap.Draining? || y.swap.Finished? || (y.swap.Aborted? && y.swap.spawned)
    ensures Stopped(y.sched, y.swap.old_) && Queued(y.sched.ready)[y.swap.old_] == 0
    ensures y.sched.current == y.swap.old_ && y.swap.old_ in y.sched.tasks ==>
              y.sched.tasks[y.swap.old_].state != Running
  {
    RunInvariant(mem, run, y);
  }

  /** On every run: a swap that fails before the new task exists leaves the old task
      unfrozen (or dead of its own accord). */
  lemma AbortRestores(mem: Memory, run: seq<SwapLabel>, y: System)
    requires Runs(mem, run, y) && y.swap.Aborted? && !y.swap.spawned
    ensures !OldFrozen(y.sched, y.swap)
  {
    RunInvariant(mem, run, y);
  }

  /** On every run: the drain delivers, in queue order and each at most once, a
      subsequence of a queue of at most 64 messages; exactly the turns that found
      the new cell outside Recv are missing. */
  lemma DrainInOrder(mem: Memory, run: seq<SwapLabel>, y: System)
    requires Runs(mem, run, y) && y.swap.Draining?
    ensures var s, w := y.sched, y.swap;
            && |w.queue| <= 64 && |w.hits| == w.pos - w.missed
            && (forall k :: 0 <= k < |w.hits| ==> HitOk(s, w.new_, w.queue, w.pos, w.hits[k]))
            && (forall j, k :: 0 <= j < k < |w.hits| ==> w.hits[j].pos < w.hits[k].pos && w.hits[j].entry < w.hits[k].entry)
            && (forall i, j :: 0 <= i < j < |s.log| ==> s.log[i].mid != s.log[j].mid)
  {
    RunInvariant(mem, run, y);
    var s := y.sched;
    MessagesMean(s);
    forall i, j | 0 <= i < j < |s.log|
      ensures s.log[i].mid != s.log[j].mid
    {
      assert LogHolds(s, i) && LogHolds(s, j);
    }
  }

  lemma {:induction false} FullPositions(hits: seq<Hit>, n: nat, k: nat)
    requires |hits| == n && k < n
    requires forall j :: 0 <= j < n ==> hits[j].pos < n
    requires forall i, j :: 0 <= i < j < n ==> hits[i].pos < hits[j].pos
    ensures hits[k].pos == k
  {
    AtLeast(hits, k);
    FromAbove(hits, n, k);
  }

  lemma {:induction false} AtLeast(hits: seq<Hit>, k: nat)
    requires k < |hits| && forall i, j :: 0 <= i < j < |hits| ==> hits[i].pos < hits[j].pos
    ensures hits[k].pos >= k
  {
    if k > 0 { AtLeast(hits, k - 1); }
  }

  lemma {:induction false} FromAbove(hits: seq<Hit>, n: nat, k: nat)
    requires |hits| == n && k < n
    requires forall j :: 0 <= j < n ==> hits[j].pos < n
    requires forall i, j :: 0 <= i < j < n ==> hits[i].pos < hits[j].pos
    ensures hits[k].pos <= k
    decreases n - k
  {
    if k + 1 < n { FromAbove(hits, n, k + 1); }
  }

  /** If the new cell was in Recv at every turn, every queued message was delivered,
      in order. */
  lemma DrainsAll(mem: Memory, run: seq<SwapLabel>, y: System, k: nat)
    requires Runs(mem, run, y) && y.swap.Draining? && y.swap.missed == 0 && k < y.swap.pos
    ensures |y.swap.hits| == y.swap.pos && y.swap.hits[k].pos == k
    ensures HitOk(y.sched, y.swap.new_, y.swap.queue, y.swap.pos, y.swap.hits[k])
  {
    DrainInOrder(mem, run, y);
    assert forall j :: 0 <= j < |y.swap.hits| ==> HitOk(y.sched, y.swap.new_, y.swap.queue, y.swap.pos, y.swap.hits[j]);
    FullPositions(y.swap.hits, y.swap.pos, k);
  }

  // ---- limits ----------------------------------------------------------

  /** The whole queue drained with no other step in between. */
  function DrainEach(s: Sched, to: nat, queue: seq<PendingMsg>): (r: Sched)
    requires forall k :: 0 <= k < |queue| ==> queue[k].mid < |s.place|
    ensures |r.place| == |s.place|
    decreases |queue|
  {
    if queue == [] then s
    else
      var s1 := DrainEach(s, to, queue[..|queue| - 1]);
      Drain(s1, to, queue[|queue| - 1])
  }

  /** Run back to back, the loop delivers the first message only: the delivery takes
      the new cell out of Recv, and every later message is skipped. */
  lemma {:induction false} BackToBackDeliversOne(s: Sched, to: nat, queue: seq<PendingMsg>)
    requires forall k :: 0 <= k < |queue| ==> queue[k].mid < |s.place|
    ensures var s' := DrainEach(s, to, queue);
            && (queue == [] || !InRecv(s, to) ==> s'.log == s.log && s'.tasks == s.tasks)
            && (queue != [] && InRecv(s, to) ==>
                  && !InRecv(s', to) && |s'.log| == |s.log| + 1
                  && s'.log[|s.log|].mid == queue[0].mid)
    decreases |queue|
  {
    if queue != [] {
      var last := |queue| - 1;
      BackToBackDeliversOne(s, to, queue[..last]);
      DrainFrame(DrainEach(s, to, queue[..last]), to, queue[last]);
    }
  }

  /** Freezing a task that is blocked in Wait does not hold it: when the task it waits
      for exits, it is made Ready all the same. Otherwise the exit leaves it frozen. */
  lemma FreezeHoldsUnlessWaiting(s: Sched, tid: nat, swapId: nat, pid: nat, reason: nat)
    requires Inv(s) && tid in s.tasks && pid in s.tasks && pid != tid
    ensures var s' := Exit(Freeze(s, tid, swapId).0, pid, reason);
            && tid in s'.tasks
            && (s'.tasks[tid].state.Frozen? <==> Awaits(s.tasks[tid].state) != Some(pid))
  {
    var f := Freeze(s, tid, swapId).0;
    WaitsMean(s);
    assert WaitersOk(s, pid, s.tasks[pid].waiters);
    ExitMeetsFrozen(f, tid, pid, reason);
  }

  // ---- in the kernel's own form ----------------------------------------

  /** The drain loop over the live task table. */
  method DrainQueue(sched: TaskTable.Scheduler, to: nat, queue: seq<PendingMsg>)
    requires sched.Valid() && forall k :: 0 <= k < |queue| ==> queue[k].mid < |sched.place|
    modifies sched
    ensures sched.Valid() && sched.View() == DrainEach(old(sched.View()), to, queue)
  {
    ghost var s := sched.View();
    for i := 0 to |queue|
      invariant sched.Valid() && |sched.place| == |s.place|
      invariant sched.View() == DrainEach(s, to, queue[..i])
    {
      assert queue[..i + 1][..i] == queue[..i];
      var m := queue[i];
      if to in sched.tasks && sched.tasks[to].state.Recv? {
        sched.Deliver(m.sender, to, m.data, m.mid);
      } else {
        sched.place := sched.place[m.mid := Gone];
      }
    }
    assert queue[..|queue|] == queue;
  }

  // ---- decimal swap ids ------------------------------------------------

  const ZERO: Byte := 48
  const MAX_U64_DIGITS: nat := 20
  const U64_LIMIT: nat := 0x1_0000_0000_0000_0000

  function Pow10(n: nat): (r: nat)
    ensures r > 0
  {
    if n == 0 then 1 else 10 * Pow10(n - 1)
  }

  /** `v` followed by `n` zeros. */
  function Scaled(v: nat, n: nat): nat { if n == 0 then v else 10 * Scaled(v, n - 1) }

  predicate AllDigits(s: seq<Byte>) {
    forall k :: 0 <= k < |s| ==> ZERO <= s[k] < ZERO + 10
  }

  /** The number a string of ASCII digits denotes. */
  function DecimalValue(s: seq<Byte>): nat
    requires AllDigits(s)
  {
    if s == [] then 0 else Scaled(s[0] - ZERO, |s| - 1) + DecimalValue(s[1..])
  }

  lemma {:induction false} SplitDigit(q: nat, r: nat, n: nat)
    ensures Scaled(q, n + 1) + Scaled(r, n) == Scaled(10 * q + r, n)
  {
    if n > 0 { SplitDigit(q, r, n - 1); }
  }

  lemma {:induction false} NothingLeft(n: nat)
    ensures Scaled(0, n) == 0
  {
    if n > 0 { NothingLeft(n - 1); }
  }

  /** Writing the last digit `r` of `v` in front of `s` moves it from what is left to
      what is written. */
  lemma WriteDigit(v: nat, q: nat, r: nat, s: seq<Byte>)
    requires AllDigits(s) && v == 10 * q + r && r < 10
    ensures AllDigits([ZERO + r] + s)
    ensures Scaled(q, |s| + 1) + DecimalValue([ZERO + r] + s) == Scaled(v, |s|) + DecimalValue(s)
  {
    var t := [ZERO + r] + s;
    assert t[1..] == s;
    assert DecimalValue(t) == Scaled(r, |s|) + DecimalValue(s);
    SplitDigit(q, r, |s|);
  }

  lemma U64Fits(n: nat)
    requires n == MAX_U64_DIGITS
    ensures U64_LIMIT <= Pow10(n)
  {
    assert Pow10(10) == 10_000_000_000;
    assert Pow10(20) == 100_000_000_000_000_000_000;
  }

  /** Moves the digits at `end` to the front, front to back. */
  method MoveToFront(buf: array<Byte>, end: nat)
    requires end <= buf.Length
    modifies buf
    ensures buf[..buf.Length - end] == old(buf[end..])
  {
    ghost var digits := buf[end..];
    for i := 0 to buf.Length - end
      invariant forall k :: 0 <= k < i ==> buf[k] == digits[k]
      invariant forall k :: i <= k < |digits| ==> buf[end + k] == digits[k]
    {
      buf[i] := buf[end + i];
    }
  }

  /** Writes the digits of a positive value right to left, ending at the buffer's end. */
  method WriteDigits(val: nat, buf: array<Byte>) returns (end: nat)
    requires 0 < val < Pow10(buf.Length)
    modifies buf
    ensures end < buf.Length && AllDigits(buf[end..]) && DecimalValue(buf[end..]) == val && buf[end] != ZERO
  {
    var v: nat, n := val, buf.Length;
    end := n;
    while v > 0
      invariant end <= n && AllDigits(buf[end..]) && v < Pow10(end)
      invariant Scaled(v, n - end) + DecimalValue(buf[end..]) == val
      invariant v == 0 ==> end < n && buf[end] != ZERO
    {
      ghost var tail := buf[end..];
      WriteDigit(v, v / 10, v % 10, tail);
      end := end - 1;
      buf[end] := ZERO + v % 10;
      assert buf[end..] == [ZERO + v % 10] + tail;
      v := v / 10;
    }
    NothingLeft(n - end);
  }

  /** Formats any 64-bit value: the digits denote it and have no superfluous leading
      zero, and twenty places are always enough. */
  method FmtU64Decimal(val: nat, buf: array<Byte>) returns (len: nat)
    requires buf.Length == MAX_U64_DIGITS && val < U64_LIMIT
    modifies buf
    ensures 1 <= len <= buf.Length && AllDigits(buf[..len]) && DecimalValue(buf[..len]) == val
    ensures buf[0] == ZERO ==> len == 1
  {
    if val == 0 {
      buf[0] := ZERO;
      assert buf[..1] == [ZERO];
      return 1;
    }
    U64Fits(buf.Length);
    var end := WriteDigits(val, buf);
    ghost var digits := buf[end..];
    MoveToFront(buf, end);
    len := buf.Length - end;
    assert buf[..len] == digits && buf[0] == digits[0];
  }
}
