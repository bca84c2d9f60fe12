/** Virtual machines of a task, and the interrupts queued for their virtual CPUs
    across entries into the guest.
    Source: kernel/src/hypervisor/registry.rs; list registers as in chapter 5 of
    ARM IHI 0048 (GICv2) and hal/arch/arm/src/aarch64/vgic.rs. */
module VirtIrq {
  import opened ByteData
  import opened Wrappers

  const MAX_LRS: nat := 4
  const MAX_INTID: nat := 1019

  // ---- list registers --------------------------------------------------

  /** Group 1, Pending, with the interrupt id in the low ten bits. */
  function LoadWord(intid: nat): nat { 0x5000_0000 + intid % 0x400 }

  /** Bits 28 and 29: 0 empty, 1 pending, 2 active, 3 both. */
  function StateBits(lr: nat): nat { lr / 0x1000_0000 % 4 }

  function Intid(lr: nat): nat { lr % 0x400 }

  /** The empty-status bit of a list register. */
  predicate Empty(lr: nat) { StateBits(lr) == 0 }

  /** What the hardware may leave in the registers after the guest ran: any state, the
      same interrupt ids. */
  ghost predicate GuestRan(loaded: seq<nat>, after: seq<nat>) {
    |after| == |loaded| && forall n :: 0 <= n < |loaded| ==> Intid(after[n]) == Intid(LoadWord(loaded[n]))
  }

  /** What the exit path puts back in front of `rest`, having seen `n` registers. */
  function PutBack(after: seq<nat>, n: nat, rest: seq<nat>): seq<nat>
    requires n <= |after|
  {
    if n == 0 then rest
    else
      var q := PutBack(after, n - 1, rest);
      if Empty(after[n - 1]) then q else [Intid(after[n - 1])] + q
  }

  /** The interrupts the guest finished with. */
  function Finished(loaded: seq<nat>, after: seq<nat>, n: nat): multiset<nat>
    requires n <= |loaded| && n <= |after|
  {
    if n == 0 then multiset{}
    else Finished(loaded, after, n - 1) + if Empty(after[n - 1]) then multiset{loaded[n - 1]} else multiset{}
  }

  ghost predicate IdsOk(q: seq<nat>) { forall k :: 0 <= k < |q| ==> q[k] <= MAX_INTID }

  lemma LoadedId(intid: nat)
    requires intid <= MAX_INTID
    ensures Intid(LoadWord(intid)) == intid
  {}

  lemma AddBoth(a: multiset<nat>, b: multiset<nat>, c: multiset<nat>, d: multiset<nat>, x: nat)
    requires a + b == c + d
    ensures (multiset{x} + a) + b == (c + multiset{x}) + d && a + (b + multiset{x}) == (c + multiset{x}) + d
  {
    assert (multiset{x} + a) + b == multiset{x} + (a + b);
    assert a + (b + multiset{x}) == multiset{x} + (a + b);
    assert (c + multiset{x}) + d == multiset{x} + (c + d);
  }

  lemma {:induction false} PutBackConserves(loaded: seq<nat>, after: seq<nat>, n: nat, rest: seq<nat>)
    requires GuestRan(loaded, after) && n <= |loaded| && IdsOk(loaded)
    ensures multiset(PutBack(after, n, rest)) + Finished(loaded, after, n) == multiset(loaded[..n]) + multiset(rest)
  {
    if n > 0 {
      var x, q := loaded[n - 1], PutBack(after, n - 1, rest);
      PutBackConserves(loaded, after, n - 1, rest);
      assert loaded[..n] == loaded[..n - 1] + [x];
      LoadedId(x);
      assert Intid(after[n - 1]) == x;
      AddBoth(multiset(q), Finished(loaded, after, n - 1), multiset(loaded[..n - 1]), multiset(rest), x);
      assert multiset([x] + q) == multiset{x} + multiset(q);
    }
  }

  lemma {:induction false} PutBackIds(loaded: seq<nat>, after: seq<nat>, n: nat, rest: seq<nat>)
    requires GuestRan(loaded, after) && n <= |loaded| && IdsOk(loaded) && IdsOk(rest)
    ensures IdsOk(PutBack(after, n, rest))
  {
    if n > 0 {
      PutBackIds(loaded, after, n - 1, rest);
      LoadedId(loaded[n - 1]);
      assert Intid(after[n - 1]) == loaded[n - 1];
    }
  }

  // ---- virtual CPUs ----------------------------------------------------

  /** A virtual CPU's queue, with the history of what was injected and finished. */
  datatype Vcpu = Vcpu(queue: seq<nat>, injected: multiset<nat>, finished: multiset<nat>)

  /** No interrupt is lost or duplicated. */
  ghost predicate Conserved(v: Vcpu) {
    v.injected == v.finished + multiset(v.queue) && IdsOk(v.queue)
  }

  datatype Vm = Vm(vcpus: seq<Vcpu>)

  type Key = (nat, nat)

  /** One entry into the guest: load what fits, re-queue the rest, run, and put back
      every register the guest did not finish with. */
  method EnterGuest(queue: seq<nat>, after: seq<nat>) returns (queue': seq<nat>, done: multiset<nat>)
    requires IdsOk(queue)
    requires GuestRan(queue[..Min(|queue|, MAX_LRS)], after)
    ensures multiset(queue') + done == multiset(queue)
    ensures IdsOk(queue')
    ensures queue' == PutBack(after, |after|, queue[Min(|queue|, MAX_LRS)..])
    ensures done == Finished(queue[..Min(|queue|, MAX_LRS)], after, |after|)
  {
    var loaded := Min(|queue|, MAX_LRS);
    queue' := Requeue(queue);
    ghost var rest := queue';
    EntryConserves(queue, after);
    done := multiset{};
    for n := 0 to loaded
      invariant queue' == PutBack(after, n, rest) && done == Finished(queue[..loaded], after, n)
    {
      if !Empty(after[n]) {
        queue' := [Intid(after[n])] + queue';
      } else {
        done := done + multiset{queue[n]};
      }
    }
  }

  /** What does not fit into the list registers goes back on the queue first. */
  method Requeue(queue: seq<nat>) returns (rest: seq<nat>)
    ensures rest == queue[Min(|queue|, MAX_LRS)..]
  {
    rest := [];
    if |queue| > MAX_LRS {
      for k := MAX_LRS to |queue|
        invariant rest == queue[MAX_LRS..k]
      {
        rest := rest + [queue[k]];
      }
    }
  }

  lemma EntryConserves(queue: seq<nat>, after: seq<nat>)
    requires IdsOk(queue) && GuestRan(queue[..Min(|queue|, MAX_LRS)], after)
    ensures var n := Min(|queue|, MAX_LRS);
            && |after| == n && IdsOk(PutBack(after, n, queue[n..]))
            && multiset(PutBack(after, n, queue[n..])) + Finished(queue[..n], after, n) == multiset(queue)
  {
    var n := Min(|queue|, MAX_LRS);
    PutBackConserves(queue[..n], after, n, queue[n..]);
    PutBackIds(queue[..n], after, n, queue[n..]);
    assert queue == queue[..n] + queue[n..];
    assert queue[..n][..n] == queue[..n];
  }

  // ---- the registry ----------------------------------------------------

  ghost function IdsOf(vms: map<Key, Vm>, owner: nat): set<Key> {
    set k | k in vms && k.0 == owner
  }

  /** The ids of an owner's machines are 1, 2, ... without gaps. */
  ghost predicate Dense(vms: map<Key, Vm>) {
    forall owner: nat, id: nat :: (owner, id) in vms <==> 1 <= id <= |IdsOf(vms, owner)|
  }

  ghost predicate AllConserved(vms: map<Key, Vm>) {
    forall k, i :: k in vms && 0 <= i < |vms[k].vcpus| ==> Conserved(vms[k].vcpus[i])
  }

  lemma IdsAdd(vms: map<Key, Vm>, owner: nat, id: nat, vm: Vm, o: nat)
    requires (owner, id) !in vms
    ensures |IdsOf(vms[(owner, id) := vm], o)| == |IdsOf(vms, o)| + if o == owner then 1 else 0
  {
    var vms' := vms[(owner, id) := vm];
    if o == owner {
      assert IdsOf(vms', o) == IdsOf(vms, o) + {(owner, id)};
    } else {
      assert IdsOf(vms', o) == IdsOf(vms, o);
    }
  }

  lemma IdsSame(vms: map<Key, Vm>, vms': map<Key, Vm>, o: nat)
    requires vms'.Keys == vms.Keys
    ensures IdsOf(vms', o) == IdsOf(vms, o)
  {}

  class VmRegistry {
    var vms: map<Key, Vm>

    ghost predicate Valid()
      reads this
    {
      Dense(vms) && AllConserved(vms)
    }

    constructor ()
      ensures Valid() && vms == map[]
    {
      vms := map[];
      new;
      assert forall o :: IdsOf(vms, o) == {};
    }

    /** The number of machines an owner has. */
    method CountOf(owner: nat) returns (n: nat)
      ensures n == |IdsOf(vms, owner)|
    {
      var keys := vms.Keys;
      n := 0;
      ghost var seen: set<Key> := {};
      while keys != {}
        invariant keys <= vms.Keys && seen == set k | k in vms.Keys - keys && k.0 == owner
        invariant n == |seen|
        decreases keys
      {
        var k :| k in keys;
        keys := keys - {k};
        if k.0 == owner {
          n := n + 1;
          seen := seen + {k};
        }
      }
      assert seen == IdsOf(vms, owner);
    }

    /** A new machine gets an id no live machine of its owner has. */
    method CreateVm(owner: nat) returns (id: nat)
      requires Valid()
      modifies this
      ensures Valid() && (owner, id) !in old(vms) && vms == old(vms)[(owner, id) := Vm([])]
    {
      var n := CountOf(owner);
      id := n + 1;
      assert (owner, id) !in vms;
      forall o: nat ensures |IdsOf(vms[(owner, id) := Vm([])], o)| == |IdsOf(vms, o)| + if o == owner then 1 else 0 {
        IdsAdd(vms, owner, id, Vm([]), o);
      }
      vms := vms[(owner, id) := Vm([])];
    }

    /** Changing one machine in place keeps the ids. */
    method Replace(k: Key, vm: Vm)
      requires Valid() && k in vms && forall i :: 0 <= i < |vm.vcpus| ==> Conserved(vm.vcpus[i])
      modifies this
      ensures Valid() && vms == old(vms)[k := vm]
    {
      ghost var vms0 := vms;
      vms := vms[k := vm];
      forall o: nat ensures IdsOf(vms, o) == IdsOf(vms0, o) { IdsSame(vms0, vms, o); }
    }

    method CreateVcpu(owner: nat, vmId: nat) returns (r: Option<nat>)
      requires Valid()
      modifies this
      ensures Valid() && (r.None? <==> (owner, vmId) !in old(vms)) && (r.None? ==> vms == old(vms))
      ensures r.Some? ==> r.value == |old(vms)[(owner, vmId)].vcpus| + 1
                          && vms == old(vms)[(owner, vmId) := Vm(old(vms)[(owner, vmId)].vcpus + [Vcpu([], multiset{}, multiset{})])]
    {
      var k := (owner, vmId);
      if k !in vms { return None; }
      var vcpus := vms[k].vcpus;
      Replace(k, Vm(vcpus + [Vcpu([], multiset{}, multiset{})]));
      return Some(|vcpus| + 1);
    }

    /** Queues an interrupt; an unknown virtual CPU is ignored, as in the source. */
    method InjectIrq(owner: nat, vmId: nat, vcpuId: nat, intid: nat) returns (found: bool)
      requires Valid() && intid <= MAX_INTID
      modifies this
      ensures Valid() && (found <==> (owner, vmId) in old(vms))
      ensures found ==>
                var vm, i := old(vms)[(owner, vmId)], if vcpuId == 0 then 0 else vcpuId - 1;
                if i < |vm.vcpus| then
                  var v := vm.vcpus[i];
                  var v' := v.(queue := v.queue + [intid], injected := v.injected + multiset{intid});
                  vms == old(vms)[(owner, vmId) := Vm(vm.vcpus[i := v'])]
                else vms == old(vms)
      ensures !found ==> vms == old(vms)
    {
      var k := (owner, vmId);
      if k !in vms { return false; }
      var vm, i := vms[k], if vcpuId == 0 then 0 else vcpuId - 1;
      if i < |vm.vcpus| {
        var v := vm.vcpus[i];
        assert Conserved(v);
        Replace(k, Vm(vm.vcpus[i := v.(queue := v.queue + [intid], injected := v.injected + multiset{intid})]));
      }
      return true;
    }

    /** Runs a virtual CPU; `after` is what the guest leaves in the list registers. */
    method RunVcpu(owner: nat, vmId: nat, vcpuId: nat, after: seq<nat>) returns (found: bool)
      requires Valid()
      requires (owner, vmId) in vms && (if vcpuId == 0 then 0 else vcpuId - 1) < |vms[(owner, vmId)].vcpus| ==>
                 var q := vms[(owner, vmId)].vcpus[if vcpuId == 0 then 0 else vcpuId - 1].queue;
                 GuestRan(q[..Min(|q|, MAX_LRS)], after)
      modifies this
      ensures Valid() && vms.Keys == old(vms).Keys
      ensures found <==> (owner, vmId) in old(vms) && (if vcpuId == 0 then 0 else vcpuId - 1) < |old(vms)[(owner, vmId)].vcpus|
      ensures !found ==> vms == old(vms)
      ensures found ==>
                var vm, i := old(vms)[(owner, vmId)], if vcpuId == 0 then 0 else vcpuId - 1;
                var v := vm.vcpus[i];
                var n := Min(|v.queue|, MAX_LRS);
                var v' := v.(queue := PutBack(after, n, v.queue[n..]),
                             finished := v.finished + Finished(v.queue[..n], after, n));
                vms == old(vms)[(owner, vmId) := Vm(vm.vcpus[i := v'])]
    {
      var k := (owner, vmId);
      if k !in vms { return false; }
      var vm, i := vms[k], if vcpuId == 0 then 0 else vcpuId - 1;
      if i >= |vm.vcpus| { return false; }
      var v := vm.vcpus[i];
      assert Conserved(v);
      var queue', done := EnterGuest(v.queue, after);
      Replace(k, Vm(vm.vcpus[i := v.(queue := queue', finished := v.finished + done)]));
      return true;
    }

    /** The death of an owner takes all its machines and nobody else's. */
    method ReapVms(dead: nat)
      requires Valid()
      modifies this
      ensures Valid() && vms == map k | k in old(vms) && k.0 != dead :: old(vms)[k]
    {
      ghost var vms0 := vms;
      vms := map k | k in vms && k.0 != dead :: vms[k];
      forall o: nat
        ensures IdsOf(vms, o) == if o == dead then {} else IdsOf(vms0, o)
      {}
    }
  }
}
