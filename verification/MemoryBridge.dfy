/**
 XeMemory::SubmissionMemoryBridge: the submission queue's resource holds, kept as use counts
 in the virtual memory manager.
 */
module MemoryBridge {
  import opened Arithmetic
  import opened VirtualMemory

  datatype Resource = Resource(id: nat, owner: nat, generation: nat, address: nat, bytes: nat,
                               readable: bool, pinned: bool)

  /** The resource that describes allocation `i`. */
  function ResourceOf(i: nat, a: Allocation): Resource {
    Resource(i + 1, a.owner, a.generation, a.address, a.bytes, true, true)
  }

  predicate Usable(a: Allocation, allowRetiring: bool) {
    a.state == Bound || (allowRetiring && a.state == Retiring)
  }

  /** The allocation a resource names exactly, or none. */
  predicate Resolves(ready: bool, slots: seq<Allocation>, r: Resource, allowRetiring: bool) {
    && r.id != 0 && r.owner != 0 && r.generation != 0 && r.pinned && r.readable
    && ready && r.id - 1 < |slots|
    && var a := slots[r.id - 1];
    && a.generation == r.generation && a.owner == r.owner && Usable(a, allowRetiring)
    && a.address == r.address && a.bytes == r.bytes && PinFits(a.pin, a.bytes)
  }

  /** There is a use to give back. */
  predicate Matches(ready: bool, slots: seq<Allocation>, r: Resource) {
    Resolves(ready, slots, r, true) && slots[r.id - 1].uses > 0
  }

  /** A resource can be held: it resolves to a bound allocation whose use count has room. */
  predicate Takeable(ready: bool, slots: seq<Allocation>, r: Resource) {
    Resolves(ready, slots, r, false) && slots[r.id - 1].uses + 1 < U32
  }

  /** Every hold names a bound allocation exactly, and every use count is the number of holds on it. */
  ghost predicate HoldsOk(slots: seq<Allocation>, holds: multiset<Resource>) {
    && (forall r <- holds ::
          0 < r.id <= |slots| && Usable(slots[r.id - 1], true) && r == ResourceOf(r.id - 1, slots[r.id - 1]))
    && (forall i | 0 <= i < |slots| :: slots[i].uses == holds[ResourceOf(i, slots[i])])
  }

  /** Only the state and the last use differ. */
  predicate InPlace(a: Allocation, b: Allocation) {
    b == a.(state := b.state, lastUse := b.lastUse)
  }

  lemma SameCount(slots: seq<Allocation>, i: nat, a: Allocation, holds: multiset<Resource>)
    requires HoldsOk(slots, holds) && i < |slots| && Steady(slots[i], a)
    ensures a.uses == holds[ResourceOf(i, a)]
  {
    var r := ResourceOf(i, a);
    assert a.uses == slots[i].uses == holds[ResourceOf(i, slots[i])];
    assert r in holds ==> r == ResourceOf(r.id - 1, slots[r.id - 1]);
  }

  /** The allocation that the resource names has one use fewer. */
  predicate GivenBack(before: seq<Allocation>, after: seq<Allocation>, r: Resource) {
    0 < r.id <= |before| && before[r.id - 1].uses > 0 && after == Counted(before, r.id - 1, -1)
  }

  /** Nothing but a hold moves a use count, and a held allocation stays where it is. */
  lemma StepKeepsHolds(before: seq<Allocation>, after: seq<Allocation>, holds: multiset<Resource>, n: nat)
    requires HoldsOk(before, holds) && TableStep(before, after, n)
    ensures HoldsOk(after, holds)
    ensures forall r <- holds :: InPlace(before[r.id - 1], after[r.id - 1])
  {
    forall r | r in holds
      ensures 0 < r.id <= |after| && Usable(after[r.id - 1], true) && r == ResourceOf(r.id - 1, after[r.id - 1])
      ensures InPlace(before[r.id - 1], after[r.id - 1])
    {
      assert before[r.id - 1].uses == holds[r] > 0;
      assert SlotStep(before[r.id - 1], after[r.id - 1], n);
    }
    forall i | 0 <= i < |after|
      ensures after[i].uses == holds[ResourceOf(i, after[i])]
    {
      assert SlotStep(before[i], after[i], n);
      SameCount(before, i, after[i], holds);
    }
  }

  lemma CountUp(slots: seq<Allocation>, holds: multiset<Resource>, i: nat)
    requires HoldsOk(slots, holds) && i < |slots| && slots[i].state == Bound
    ensures HoldsOk(slots[i := slots[i].(uses := slots[i].uses + 1)], holds + multiset{ResourceOf(i, slots[i])})
  {
    var r := ResourceOf(i, slots[i]);
    var u, holds' := slots[i := slots[i].(uses := slots[i].uses + 1)], holds + multiset{r};
    forall q | q in holds'
      ensures 0 < q.id <= |u| && Usable(u[q.id - 1], true) && q == ResourceOf(q.id - 1, u[q.id - 1])
    {
      assert q in holds || q == r;
    }
  }

  lemma CountDown(slots: seq<Allocation>, holds: multiset<Resource>, r: Resource)
    requires HoldsOk(slots, holds) && r in holds
    ensures 0 < r.id <= |slots| && slots[r.id - 1].uses > 0
    ensures HoldsOk(slots[r.id - 1 := slots[r.id - 1].(uses := slots[r.id - 1].uses - 1)], holds - multiset{r})
  {
    var i := r.id - 1;
    assert slots[i].uses == holds[r];
    var u, holds' := slots[i := slots[i].(uses := slots[i].uses - 1)], holds - multiset{r};
    forall q | q in holds'
      ensures 0 < q.id <= |u| && Usable(u[q.id - 1], true) && q == ResourceOf(q.id - 1, u[q.id - 1])
    {
      assert q in holds;
    }
  }

  /** One use count moved. */
  function Counted(slots: seq<Allocation>, i: nat, change: int): seq<Allocation>
    requires i < |slots| && 0 <= slots[i].uses + change
  {
    slots[i := slots[i].(uses := slots[i].uses + change)]
  }

  /** Nothing but use counts differs. */
  predicate UsesOnly(before: seq<Allocation>, after: seq<Allocation>) {
    |before| == |after| && forall i | 0 <= i < |before| :: after[i] == before[i].(uses := after[i].uses)
  }

  lemma UsesOnlyTransitive(a: seq<Allocation>, b: seq<Allocation>, c: seq<Allocation>)
    requires UsesOnly(a, b) && UsesOnly(b, c)
    ensures UsesOnly(a, c)
  {
  }

  /** What is held keeps its pin. */
  ghost predicate PinsKept(before: seq<Allocation>, after: seq<Allocation>, holds: multiset<Resource>) {
    |before| == |after| && forall r <- holds :: 0 < r.id <= |before| && after[r.id - 1].pin == before[r.id - 1].pin
  }

  lemma UsesKeepPins(before: seq<Allocation>, after: seq<Allocation>, holds: multiset<Resource>)
    requires HoldsOk(before, holds) && UsesOnly(before, after)
    ensures PinsKept(before, after, holds)
  {
  }

  class Bridge {
    const vm: VirtualMemory
    var faulted: bool
    var lastRelease: Status
    /** The holds taken through this bridge and not yet given back. */
    ghost var holds: multiset<Resource>

    ghost predicate Valid()
      reads this, vm
    {
      vm.Valid() && HoldsOk(vm.slots, holds) && !faulted && lastRelease == Ok
    }

    constructor (vm: VirtualMemory)
      requires vm.Valid() && forall i | 0 <= i < |vm.slots| :: vm.slots[i].uses == 0
      ensures this.vm == vm && Valid() && holds == multiset{}
    {
      this.vm := vm;
      faulted, lastRelease, holds := false, Ok, multiset{};
    }

    /** A resource is offered only for a bound allocation, and then it resolves. */
    method Offer(owner: nat, h: Handle) returns (ok: bool, out: Resource)
      requires Valid()
      ensures ok <==> vm.Lookup(owner, h) == Ok && vm.slots[h.slot].state == Bound
      ensures ok ==> Resolves(vm.ready, vm.slots, out, false) && out == ResourceOf(h.slot, vm.slots[h.slot])
    {
      hide HoldsOk, TableOk;
      out := Resource(0, 0, 0, 0, 0, false, false);
      if vm.Lookup(owner, h) != Ok { return false, out; }
      SlotFacts(vm.slots, vm.first, vm.limit, vm.nextGeneration, h.slot);
      if faulted || vm.slots[h.slot].state != Bound || !PinFits(vm.slots[h.slot].pin, vm.slots[h.slot].bytes) {
        return false, out;
      }
      return true, Resource(h.slot + 1, owner, h.generation, vm.slots[h.slot].address, vm.slots[h.slot].bytes, true,
                            true);
    }

    method Retain(r: Resource) returns (ok: bool)
      requires Valid()
      modifies this`holds, vm`slots
      ensures Valid()
      ensures holds == if ok then old(holds) + multiset{r} else old(holds)
      ensures ok <==> Takeable(vm.ready, old(vm.slots), r)
      ensures !ok ==> vm.slots == old(vm.slots)
      ensures UsesOnly(old(vm.slots), vm.slots)
      ensures ok ==> 0 < r.id <= |old(vm.slots)| && vm.slots == Counted(old(vm.slots), r.id - 1, 1)
    {
      hide HoldsOk, VirtualMemory.Valid, VirtualMemory.Backed;
      if faulted || !Resolves(vm.ready, vm.slots, r, false) { return false; }
      CountUp(vm.slots, holds, r.id - 1);
      vm.SlotFine(r.id - 1);
      var status := vm.RetainUse(r.owner, Handle(r.id - 1, r.generation));
      ok := status == Ok;
      if ok { holds := holds + multiset{r}; }
    }

    /** What is held can be found and given back. */
    lemma Answers(r: Resource)
      requires Valid() && r in holds
      ensures Matches(vm.ready, vm.slots, r)
    {
      hide HoldsOk, TableOk;
      CountDown(vm.slots, holds, r);
      HeldResolves(vm.ready, vm.slots, vm.first, vm.limit, vm.nextGeneration, holds, r);
    }

    /** The release callback: one use fewer, or, if there is none to give back, a fault that stays. */
    method Drop(r: Resource)
      requires vm.Valid()
      modifies this`faulted, this`lastRelease, vm`slots
      ensures if Matches(vm.ready, old(vm.slots), r)
              then faulted == old(faulted) && lastRelease == old(lastRelease) && GivenBack(old(vm.slots), vm.slots, r)
              else faulted && lastRelease != Ok && vm.slots == old(vm.slots)
      ensures vm.Valid()
    {
      hide VirtualMemory.Valid;
      var status := Invalid;
      if Resolves(vm.ready, vm.slots, r, true) {
        status := vm.ReleaseUse(r.owner, Handle(r.id - 1, r.generation));
      }
      if status != Ok { lastRelease, faulted := status, true; }
    }

    /** Giving back a hold that was taken always works: the bridge never faults. */
    method Release(r: Resource)
      requires Valid() && r in holds
      modifies this`holds, this`faulted, this`lastRelease, vm`slots
      ensures Valid() && holds == old(holds) - multiset{r} && UsesOnly(old(vm.slots), vm.slots)
      ensures GivenBack(old(vm.slots), vm.slots, r)
    {
      hide HoldsOk, VirtualMemory.Valid, Matches;
      CountDown(vm.slots, holds, r);
      Answers(r);
      Drop(r);
      holds := holds - multiset{r};
    }

    /** Any operation of the manager's other clients. */
    method Client(op: Op)
      requires Valid() && !op.RetainOp? && !op.ReleaseOp?
      modifies vm
      ensures Valid() && TableStep(old(vm.slots), vm.slots, old(vm.nextGeneration)) && vm.ready == old(vm.ready)
      ensures PinsKept(old(vm.slots), vm.slots, holds)
      ensures forall r <- holds ::
                && 0 < r.id <= |vm.slots| == |old(vm.slots)| && Usable(vm.slots[r.id - 1], true)
                && InPlace(old(vm.slots)[r.id - 1], vm.slots[r.id - 1])
    {
      hide HoldsOk, TableStep;
      ghost var before, n := vm.slots, vm.nextGeneration;
      vm.Perform(op);
      StepKeepsHolds(before, vm.slots, holds, n);
      HoldsInRange(before, vm.slots, holds, n);
    }
  }

  lemma HoldsInRange(before: seq<Allocation>, after: seq<Allocation>, holds: multiset<Resource>, n: nat)
    requires HoldsOk(before, holds) && HoldsOk(after, holds) && TableStep(before, after, n)
    ensures |before| == |after| && forall r <- holds :: 0 < r.id <= |after| && Usable(after[r.id - 1], true)
  {
  }

  lemma SlotFacts(slots: seq<Allocation>, first: nat, limit: nat, nextGeneration: nat, i: nat)
    requires TableOk(slots, first, limit, nextGeneration) && i < |slots|
    ensures SlotOk(slots[i], first, limit, nextGeneration)
  {
  }

  lemma HeldResolves(ready: bool, slots: seq<Allocation>, first: nat, limit: nat, nextGeneration: nat,
                     holds: multiset<Resource>, r: Resource)
    requires HoldsOk(slots, holds) && r in holds && TableOk(slots, first, limit, nextGeneration)
    requires (!ready ==> slots == [])
    ensures Resolves(ready, slots, r, true)
  {
    assert SlotOk(slots[r.id - 1], first, limit, nextGeneration);
  }
}
