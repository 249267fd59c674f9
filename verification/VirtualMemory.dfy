/**
 XeMemory::VirtualMemory: address reservation, pinning, binding and retirement of GPU
 allocations in caller-owned slots.
 */
module VirtualMemory {
  import opened Arithmetic
  import opened PteFormat

  datatype Status = Ok | Invalid | NoSpace | NotFound | WrongOwner | Busy | Unavailable | BackendFailure | Quarantine
  datatype State = Free | Excluded | Reserved | Pinned | Bound | Retiring | Quarantined

  datatype Handle = Handle(slot: nat, generation: nat)
  datatype Fence = Fence(timeline: nat, value: nat)
  datatype Pin = Pin(cookie: nat, list: nat, pages: seq<nat>)

  datatype Allocation = Allocation(state: State, owner: nat, generation: nat, address: nat, bytes: nat, uses: nat,
                                   pin: Pin, lastUse: Fence)
  {
    function End(): nat { address + bytes }
  }

  const NO_PIN: Pin := Pin(0, 0, [])
  const NO_FENCE: Fence := Fence(0, 0)
  const EMPTY: Allocation := Allocation(Free, 0, 0, 0, 0, 0, NO_PIN, NO_FENCE)

  predicate PinFits(p: Pin, bytes: nat) {
    p.cookie != 0 && p.list != 0 && |p.pages| == bytes / PAGE
  }

  // ------------------------------------------------------------ address search

  predicate Clashes(a: Allocation, address: nat, bytes: nat) {
    a.state != Free && address < a.End() && a.address < address + bytes
  }

  predicate Vacant(slots: seq<Allocation>, address: nat, bytes: nat) {
    forall i | 0 <= i < |slots| :: !Clashes(slots[i], address, bytes)
  }

  /** An aligned address in the window that meets no live allocation. */
  predicate Placement(slots: seq<Allocation>, first: nat, limit: nat, address: nat, bytes: nat, alignment: nat)
    requires alignment > 0
  {
    address % alignment == 0 && first <= address && address + bytes <= limit && Vacant(slots, address, bytes)
  }

  /** `alignUp`: nothing when the sum leaves 64 bits. */
  function CheckedAlign(value: nat, alignment: nat): Option<nat>
    requires alignment > 0
  {
    if value + alignment - 1 >= U64 then None else Some(AlignUp(value, alignment))
  }

  /** Past the end of every allocation that meets `candidate`, or `candidate` if none does. */
  method Past(slots: seq<Allocation>, candidate: nat, bytes: nat) returns (next: nat)
    requires bytes > 0
    ensures next == candidate <==> Vacant(slots, candidate, bytes)
    ensures next != candidate ==>
              candidate < next && exists w | 0 <= w < |slots| ::
                Clashes(slots[w], candidate, bytes) && next == slots[w].End()
  {
    next := candidate;
    for j := 0 to |slots|
      invariant next == candidate <==> forall i | 0 <= i < j :: !Clashes(slots[i], candidate, bytes)
      invariant next != candidate ==>
                candidate < next && exists w | 0 <= w < |slots| ::
                  Clashes(slots[w], candidate, bytes) && next == slots[w].End()
    {
      if Clashes(slots[j], candidate, bytes) && slots[j].End() > next { next := slots[j].End(); }
    }
  }

  /** Between a clash and the end of the clashing allocation there is no placement. */
  lemma NoneSkipped(slots: seq<Allocation>, candidate: nat, bytes: nat, next: nat, x: nat)
    requires bytes > 0 && candidate <= x < next && exists w | 0 <= w < |slots| ::
              Clashes(slots[w], candidate, bytes) && next == slots[w].End()
    ensures !Vacant(slots, x, bytes)
  {
    var w :| 0 <= w < |slots| && Clashes(slots[w], candidate, bytes) && next == slots[w].End();
    assert Clashes(slots[w], x, bytes);
  }

  /** An address below 2^48 cannot be aligned past 64 bits into the window. */
  lemma OverflowMeansNone(value: nat, alignment: nat, x: nat)
    requires 0 < alignment < U64 && value <= VA_LIMIT && value + alignment - 1 >= U64 && value <= x
    requires x % alignment == 0
    ensures x > VA_LIMIT
  {
    MultipleAtLeast(x, alignment);
  }

  /** Lowest fit, or a proof that nothing fits. */
  method Search(slots: seq<Allocation>, first: nat, limit: nat, bytes: nat, alignment: nat)
    returns (found: bool, address: nat)
    requires bytes > 0 && 0 < alignment < U64 && first <= limit <= VA_LIMIT
    requires forall i | 0 <= i < |slots| && slots[i].state != Free :: slots[i].End() <= limit
    ensures found ==> Placement(slots, first, limit, address, bytes, alignment)
    ensures found ==> forall x: nat | x < address :: !Placement(slots, first, limit, x, bytes, alignment)
    ensures !found ==> forall x: nat :: !Placement(slots, first, limit, x, bytes, alignment)
  {
    hide AlignUp;
    var candidate := CheckedAlign(first, alignment);
    AlignUpLeast(first, alignment);
    ghost var low := first;
    while true
      invariant first <= low <= limit
      invariant candidate == CheckedAlign(low, alignment)
      invariant forall x: nat | x < low :: !Placement(slots, first, limit, x, bytes, alignment)
      decreases limit - low
    {
      AlignUpLeast(low, alignment);
      if candidate.None? {
        forall x: nat ensures !Placement(slots, first, limit, x, bytes, alignment) {
          if low <= x && x % alignment == 0 { OverflowMeansNone(low, alignment, x); }
        }
        return false, 0;
      }
      address := candidate.value;
      if address + bytes > limit { return false, 0; }
      var next := Past(slots, address, bytes);
      if next == address { return true, address; }
      forall x: nat | x < next
        ensures !Placement(slots, first, limit, x, bytes, alignment)
      {
        if address <= x { NoneSkipped(slots, address, bytes, next, x); }
      }
      low := next;
      candidate := CheckedAlign(next, alignment);
    }
  }

  // ------------------------------------------------------------ invariant

  predicate SlotOk(a: Allocation, first: nat, limit: nat, nextGeneration: nat) {
    if a.state == Free then a == EMPTY
    else
      && 0 < a.generation < nextGeneration && first <= a.address && a.bytes > 0 && a.End() <= limit
      && a.address % PAGE == 0 && a.bytes % PAGE == 0
      && (a.state == Excluded <==> a.owner == 0)
      && (a.uses > 0 ==> a.state == Bound || a.state == Retiring)
      && (a.state in {Pinned, Bound, Retiring} ==> PinFits(a.pin, a.bytes))
      && a.uses < U32
  }

  /** A later point on the same timeline, or the first point on any. */
  predicate Follows(last: Fence, fence: Fence) {
    fence.timeline != 0 && fence.value > last.value && (last.timeline == 0 || last.timeline == fence.timeline)
  }

  predicate Apart(a: Allocation, b: Allocation) {
    a.state != Free && b.state != Free ==>
      a.generation != b.generation && (a.End() <= b.address || b.End() <= a.address)
  }

  predicate TableOk(slots: seq<Allocation>, first: nat, limit: nat, nextGeneration: nat) {
    && first <= limit <= VA_LIMIT && 0 < nextGeneration < U64
    && (forall i | 0 <= i < |slots| :: SlotOk(slots[i], first, limit, nextGeneration))
    && (forall i, j | 0 <= i < j < |slots| :: Apart(slots[i], slots[j]))
  }

  // ------------------------------------------------------------ histories

  /** What any operation may do to one slot: quarantine is final, and whatever carries an
      old generation is the allocation that got it. */
  predicate Lasting(a: Allocation, b: Allocation, nextGeneration: nat) {
    && (a.state == Quarantined ==> b == a)
    && (b.state != Free && b.generation < nextGeneration ==>
          a.state != Free && b.generation == a.generation && b.owner == a.owner && b.address == a.address &&
          b.bytes == a.bytes && (b.state == Excluded <==> a.state == Excluded))
  }

  /** What an operation other than a hold may do to it: uses stay, and a slot in use keeps its place and its pin. */
  predicate Steady(a: Allocation, b: Allocation) {
    && (a.uses > 0 ==> b == a.(state := b.state, lastUse := b.lastUse) && (b.state == Bound || b.state == Retiring))
    && (a.uses == 0 ==> b.uses == 0)
  }

  predicate SlotStep(a: Allocation, b: Allocation, nextGeneration: nat) {
    Lasting(a, b, nextGeneration) && Steady(a, b)
  }

  predicate TableLasting(before: seq<Allocation>, after: seq<Allocation>, nextGeneration: nat) {
    |before| == |after| && forall i | 0 <= i < |before| :: Lasting(before[i], after[i], nextGeneration)
  }

  lemma LastingTransitive(a: seq<Allocation>, b: seq<Allocation>, c: seq<Allocation>, n: nat, m: nat)
    requires TableLasting(a, b, n) && TableLasting(b, c, m) && n <= m
    ensures TableLasting(a, c, n)
  {
    forall i | 0 <= i < |a| ensures Lasting(a[i], c[i], n) { assert Lasting(a[i], b[i], n) && Lasting(b[i], c[i], m); }
  }

  lemma StepIsLasting(a: seq<Allocation>, b: seq<Allocation>, n: nat)
    requires TableStep(a, b, n)
    ensures TableLasting(a, b, n)
  {
    forall i | 0 <= i < |a| ensures Lasting(a[i], b[i], n) { assert SlotStep(a[i], b[i], n); }
  }

  predicate TableStep(before: seq<Allocation>, after: seq<Allocation>, nextGeneration: nat) {
    |before| == |after| && forall i | 0 <= i < |before| :: SlotStep(before[i], after[i], nextGeneration)
  }

  /** A live slot changes without moving: same identity, same place. */
  lemma Change(slots: seq<Allocation>, first: nat, limit: nat, nextGeneration: nat, i: nat, a: Allocation)
    requires TableOk(slots, first, limit, nextGeneration) && i < |slots| && slots[i].state != Free
    requires a.state != Free ==>
              a.generation == slots[i].generation && a.address == slots[i].address && a.bytes == slots[i].bytes
    requires SlotOk(a, first, limit, nextGeneration)
    ensures TableOk(slots[i := a], first, limit, nextGeneration)
    ensures SlotStep(slots[i], a, nextGeneration) ==> TableStep(slots, slots[i := a], nextGeneration)
  {
    hide SlotOk;
    var u := slots[i := a];
    forall j, k | 0 <= j < k < |u| ensures Apart(u[j], u[k]) { assert Apart(slots[j], slots[k]); }
    forall j | 0 <= j < |slots| && slots[j].uses > 0 ensures slots[j].state == Bound || slots[j].state == Retiring {
      UsesMeanBound(slots[j], first, limit, nextGeneration);
    }
  }

  lemma UsesMeanBound(a: Allocation, first: nat, limit: nat, nextGeneration: nat)
    requires SlotOk(a, first, limit, nextGeneration)
    ensures a.uses > 0 ==> a.state == Bound || a.state == Retiring
  {
  }

  /** A new allocation in a free slot. */
  lemma Add(slots: seq<Allocation>, first: nat, limit: nat, nextGeneration: nat, i: nat, a: Allocation)
    requires TableOk(slots, first, limit, nextGeneration) && i < |slots| && slots[i].state == Free
    requires nextGeneration + 1 < U64
    requires a.state != Free && a.uses == 0 && a.generation == nextGeneration
    requires SlotOk(a, first, limit, nextGeneration + 1) && Vacant(slots, a.address, a.bytes)
    ensures TableOk(slots[i := a], first, limit, nextGeneration + 1)
    ensures TableStep(slots, slots[i := a], nextGeneration)
  {
    var u := slots[i := a];
    forall j | 0 <= j < |u| ensures SlotOk(u[j], first, limit, nextGeneration + 1) {
      assert SlotOk(slots[j], first, limit, nextGeneration);
    }
    forall j, k | 0 <= j < k < |u|
      ensures Apart(u[j], u[k])
    {
      assert Apart(slots[j], slots[k]);
      assert !Clashes(slots[j], a.address, a.bytes) && !Clashes(slots[k], a.address, a.bytes);
      assert SlotOk(slots[j], first, limit, nextGeneration) && SlotOk(slots[k], first, limit, nextGeneration);
    }
    assert SlotOk(slots[i], first, limit, nextGeneration);
    forall j | 0 <= j < |slots| && slots[j].uses > 0 ensures slots[j].state == Bound || slots[j].state == Retiring {
      assert SlotOk(slots[j], first, limit, nextGeneration);
    }
  }

  // ------------------------------------------------------------ the manager

  /** Which callbacks the backend supplies, and which PAT indices it verified. */
  datatype Backend = Backend(pin: bool, unpin: bool, bind: bool, unbind: bool, fenceComplete: bool, pats: set<nat>)

  /** What the manager asks of it, and what it may answer. */
  datatype Request =
    | AskPin(owner: nat, bytes: nat)
    | AskUnpin(pin: Pin)
    | AskBind(address: nat, pin: Pin, pat: nat, writable: bool)
    | AskUnbind(address: nat, bytes: nat)
    | AskFence(fence: Fence)
  datatype Answer = Answer(status: Status, pin: Pin, complete: bool)

  /** The answer to request `q` if it is the `k`-th the backend gets. */
  function At(tape: (nat, Request) -> Answer, k: nat, q: Request): Answer {
    tape(k, q)
  }

  /** Which call bound an allocation, and how. */
  datatype Binding = Binding(at: nat, pat: nat, writable: bool)

  /** An allocation that was given back, as it was, and the calls that allowed it. */
  datatype Departure = Departure(a: Allocation, fence: nat, unbind: nat, unpin: nat)

  /** Call `p` pinned this allocation's pages. */
  predicate PinnedBy(tape: (nat, Request) -> Answer, p: nat, a: Allocation) {
    At(tape, p, AskPin(a.owner, a.bytes)).status == Ok && At(tape, p, AskPin(a.owner, a.bytes)).pin == a.pin
  }

  predicate BoundBy(tape: (nat, Request) -> Answer, b: Binding, a: Allocation) {
    At(tape, b.at, AskBind(a.address, a.pin, b.pat, b.writable)).status == Ok
  }

  /** The backend said, in this order: bound, last use complete, unbound, unpinned. */
  predicate Departed(tape: (nat, Request) -> Answer, at: nat, b: Binding, d: Departure) {
    && d.a.uses == 0 && BoundBy(tape, b, d.a) && b.at < d.unbind < d.unpin < at
    && (d.a.lastUse.value != 0 ==> b.at < d.fence < d.unbind && At(tape, d.fence, AskFence(d.a.lastUse)).complete)
    && At(tape, d.unbind, AskUnbind(d.a.address, d.a.bytes)).status == Ok
    && At(tape, d.unpin, AskUnpin(d.a.pin)).status == Ok
  }

  predicate PinSound(p: Pin, bytes: nat) {
    PinFits(p, bytes) && forall page <- p.pages :: DmaPage(page)
  }

  /** How pinning ends: by the state, or by the answers. */
  function PinStatus(a: Allocation, b: Backend, tape: (nat, Request) -> Answer, at: nat): Status {
    if a.state != Reserved then Busy
    else if !b.pin || !b.unpin then Unavailable
    else
      var r := At(tape, at, AskPin(a.owner, a.bytes));
      if r.status != Ok then if r.pin != NO_PIN then Quarantine else r.status
      else if PinSound(r.pin, a.bytes) then Ok
      else if At(tape, at + 1, AskUnpin(r.pin)).status == Ok then BackendFailure
      else Quarantine
  }

  function BindStatus(a: Allocation, b: Backend, tape: (nat, Request) -> Answer, at: nat, pat: nat, writable: bool)
    : Status
  {
    if a.state != Pinned then Busy
    else if pat > 15 then Invalid
    else if !b.bind || !b.unbind || pat !in b.pats then Unavailable
    else
      var r := At(tape, at, AskBind(a.address, a.pin, pat, writable)).status;
      if r == Ok || r == Unavailable then r else Quarantine
  }

  /** How removing the mapping of a retiring allocation ends. */
  function UnmapStatus(a: Allocation, b: Backend, tape: (nat, Request) -> Answer, at: nat): Status {
    var waits := a.lastUse.value != 0;
    if a.uses != 0 then Busy
    else if waits && !b.fenceComplete then Unavailable
    else if waits && !At(tape, at, AskFence(a.lastUse)).complete then Busy
    else if !b.unbind then Unavailable
    else
      var r := At(tape, if waits then at + 1 else at, AskUnbind(a.address, a.bytes)).status;
      if r == Ok || r == Unavailable then r else Quarantine
  }

  /** How giving an allocation back ends. */
  function ReclaimStatus(a: Allocation, b: Backend, tape: (nat, Request) -> Answer, at: nat): Status {
    if a.state == Bound then Busy
    else if a.state == Retiring && UnmapStatus(a, b, tape, at) != Ok then UnmapStatus(a, b, tape, at)
    else if a.state == Reserved then Ok
    else
      var k := if a.state != Retiring then at else if a.lastUse.value != 0 then at + 2 else at + 1;
      if b.unpin && At(tape, k, AskUnpin(a.pin)).status == Ok then Ok else Quarantine
  }

  predicate Live(slots: seq<Allocation>, g: nat) {
    exists i | 0 <= i < |slots| :: slots[i].state != Free && slots[i].generation == g
  }

  class VirtualMemory {
    var ready: bool
    var slots: seq<Allocation>
    var first: nat
    var limit: nat
    var nextGeneration: nat
    var backend: Backend
    /** What the backend answers, call by call, and the next call. The tape may be any. */
    const tape: (nat, Request) -> Answer
    var at: nat
    /** Which calls pinned and bound each allocation, by generation. */
    ghost var pinnedAt: map<nat, nat>
    ghost var bound: map<nat, Binding>
    ghost var gone: map<nat, Departure>

    /** Given back only after its work was over, its mapping removed and its pages unpinned. */
    ghost predicate ProperlyGone(g: nat)
      reads this`gone, this`bound, this`at
    {
      g in gone && gone[g].a.generation == g && g in bound && Departed(tape, at, bound[g], gone[g])
    }

    /** What the backend said allows the allocation's state: its pages are pinned before it is bound. */
    ghost predicate Backed(a: Allocation)
      reads this`pinnedAt, this`bound, this`at
    {
      && (a.state in {Pinned, Bound, Retiring} ==>
            a.generation in pinnedAt && pinnedAt[a.generation] < at && PinnedBy(tape, pinnedAt[a.generation], a))
      && (a.state in {Bound, Retiring} ==>
            && a.generation in bound && pinnedAt[a.generation] < bound[a.generation].at < at
            && BoundBy(tape, bound[a.generation], a))
      && (a.state in {Reserved, Pinned} ==> a.generation !in bound)
    }

    ghost predicate Valid()
      reads this
    {
      && TableOk(slots, first, limit, nextGeneration)
      && (forall i | 0 <= i < |slots| :: Backed(slots[i]))
      && (forall g <- bound.Keys :: g < nextGeneration && (Live(slots, g) || ProperlyGone(g)))
      && (!ready ==> slots == [])
    }

    constructor (tape: (nat, Request) -> Answer)
      ensures Valid() && !ready && slots == [] && this.tape == tape
    {
      ready, slots, first, limit, nextGeneration, backend :=
        false, [], 0, 0, 1, Backend(false, false, false, false, false, {});
      this.tape, at, pinnedAt, bound, gone := tape, 0, map[], map[], map[];
    }

    /** One call to the backend. */
    method Ask(q: Request) returns (answer: Answer)
      requires Valid()
      modifies this`at
      ensures Valid() && at == old(at) + 1 && answer == At(tape, old(at), q)
    {
      hide At, TableOk, Live;
      answer := At(tape, at, q);
      at := at + 1;
    }

    method Initialize(capacity: nat, lo: nat, hi: nat, b: Backend) returns (status: Status)
      requires Valid()
      modifies this
      ensures Valid()
      ensures status == if old(ready) then Busy
                        else if capacity == 0 || lo >= hi || hi > VA_LIMIT || lo % PAGE != 0 || hi % PAGE != 0
                        then Invalid else Ok
      ensures status == Ok ==>
                ready && slots == seq(capacity, _ => EMPTY) && first == lo && limit == hi &&
                nextGeneration == old(nextGeneration)
      ensures status != Ok ==> slots == old(slots) && nextGeneration == old(nextGeneration) && ready == old(ready)
    {
      hide At, PinnedBy, BoundBy, Departed;
      if ready { return Busy; }
      if capacity == 0 || lo >= hi || hi > VA_LIMIT || lo % PAGE != 0 || hi % PAGE != 0 { return Invalid; }
      ready, slots, first, limit, backend := true, seq(capacity, _ => EMPTY), lo, hi, b;
      assert forall g <- bound.Keys :: !Live(old(slots), g);
      return Ok;
    }

    predicate Available(address: nat, bytes: nat)
      reads this
    {
      && ready && first <= address && bytes > 0 && address + bytes <= limit && address % PAGE == 0 && bytes % PAGE == 0
      && Vacant(slots, address, bytes)
    }

    /** Takes the first free slot under a fresh generation. */
    method Insert(owner: nat, address: nat, bytes: nat, state: State) returns (status: Status, h: Handle)
      requires Valid() && (state == Excluded || state == Reserved) && (state == Excluded <==> owner == 0)
      modifies this`slots, this`nextGeneration
      ensures Valid() && TableStep(old(slots), slots, old(nextGeneration)) && nextGeneration >= old(nextGeneration)
      ensures !old(Available(address, bytes)) ==> status == Invalid
      ensures old(Available(address, bytes)) ==>
                status == if old(nextGeneration) + 1 < U64 && FreeSlot(old(slots)) then Ok else NoSpace
      ensures status != Ok ==> slots == old(slots) && nextGeneration == old(nextGeneration)
      ensures status == Ok ==>
                h.slot < |slots| && h.generation == old(nextGeneration) && old(slots)[h.slot].state == Free
      ensures status == Ok ==> forall j | 0 <= j < h.slot :: old(slots)[j].state != Free
      ensures status == Ok ==>
                slots == old(slots)[h.slot := EMPTY.(state := state, owner := owner, address := address, bytes := bytes,
                                                     generation := h.generation)]
    {
      h := Handle(0, 0);
      StepsNowhere(slots, first, limit, nextGeneration);
      if !Available(address, bytes) { return Invalid, h; }
      if nextGeneration == 0 || nextGeneration == U64 - 1 { return NoSpace, h; }
      for i := 0 to |slots|
        invariant forall j | 0 <= j < i :: slots[j].state != Free
      {
        if slots[i].state == Free {
          h := Handle(i, nextGeneration);
          Place(h, EMPTY.(state := state, owner := owner, address := address, bytes := bytes,
                          generation := nextGeneration));
          return Ok, h;
        }
      }
      return NoSpace, h;
    }

    method Place(h: Handle, a: Allocation)
      requires Valid() && h.slot < |slots| && slots[h.slot].state == Free && nextGeneration + 1 < U64
      requires a == EMPTY.(state := a.state, owner := a.owner, address := a.address, bytes := a.bytes,
                           generation := nextGeneration)
      requires (a.state == Excluded || a.state == Reserved) && (a.state == Excluded <==> a.owner == 0)
      requires Available(a.address, a.bytes)
      modifies this`slots, this`nextGeneration
      ensures Valid() && TableStep(old(slots), slots, old(nextGeneration))
      ensures slots == old(slots)[h.slot := a] && nextGeneration == old(nextGeneration) + 1
    {
      hide At, TableStep, PinnedBy, BoundBy, Departed, Apart, Vacant;
      Add(slots, first, limit, nextGeneration, h.slot, a);
      slots := slots[h.slot := a];
      nextGeneration := nextGeneration + 1;
      forall g | g in bound.Keys && Live(old(slots), g)
        ensures Live(slots, g)
      {
        var i :| 0 <= i < |old(slots)| && old(slots)[i].state != Free && old(slots)[i].generation == g;
        assert slots[i] == old(slots)[i];
      }
    }

    method Exclude(address: nat, bytes: nat) returns (status: Status)
      requires Valid()
      modifies this`slots, this`nextGeneration
      ensures Valid() && TableStep(old(slots), slots, old(nextGeneration)) && nextGeneration >= old(nextGeneration)
      ensures status == if !old(Available(address, bytes)) then Invalid
              else if old(nextGeneration) + 1 < U64 && FreeSlot(old(slots)) then Ok else NoSpace
      ensures status != Ok ==> slots == old(slots)
      ensures status == Ok ==>
                exists i | 0 <= i < |slots| ::
                  old(slots)[i].state == Free &&
                  slots == old(slots)[i := EMPTY.(state := Excluded, address := address, bytes := bytes,
                                                  generation := old(nextGeneration))]
    {
      var h;
      status, h := Insert(0, address, bytes, Excluded);
    }

    method ReserveAt(owner: nat, address: nat, bytes: nat) returns (status: Status, h: Handle)
      requires Valid()
      modifies this`slots, this`nextGeneration
      ensures Valid() && TableStep(old(slots), slots, old(nextGeneration)) && nextGeneration >= old(nextGeneration)
      ensures status == if owner == 0 || !old(Available(address, bytes)) then Invalid
                        else if old(nextGeneration) + 1 < U64 && FreeSlot(old(slots)) then Ok else NoSpace
      ensures status == Ok ==>
                Reservation(old(slots), slots, owner, address, bytes, h) && h.generation == old(nextGeneration)
      ensures status != Ok ==> slots == old(slots) && nextGeneration == old(nextGeneration)
    {
      h := Handle(0, 0);
      StepsNowhere(slots, first, limit, nextGeneration);
      if owner == 0 { return Invalid, h; }
      status, h := Insert(owner, address, bytes, Reserved);
    }

    /** The lowest aligned free address. NoSpace with a generation and a slot to spare means there is none. */
    method Reserve(owner: nat, bytes: nat, alignment: nat) returns (status: Status, h: Handle)
      requires Valid() && alignment < U64
      modifies this`slots, this`nextGeneration
      ensures Valid() && TableStep(old(slots), slots, old(nextGeneration)) && nextGeneration >= old(nextGeneration)
      ensures status == Invalid <==>
                !ready || owner == 0 || bytes == 0 || bytes % PAGE != 0 || alignment < PAGE || !PowerOfTwo(alignment)
      ensures status in {Ok, Invalid, NoSpace}
      ensures status == Ok ==>
                h.slot < |slots| && Reservation(old(slots), slots, owner, slots[h.slot].address, bytes, h)
      ensures status == Ok ==>
                alignment > 0 && Placement(old(slots), first, limit, slots[h.slot].address, bytes, alignment)
      ensures status == Ok ==>
                forall x: nat | x < slots[h.slot].address :: !Placement(old(slots), first, limit, x, bytes, alignment)
      ensures status == NoSpace && old(nextGeneration) + 1 < U64 && FreeSlot(old(slots)) ==>
                alignment > 0 && forall x: nat :: !Placement(old(slots), first, limit, x, bytes, alignment)
      ensures status != Ok ==> slots == old(slots)
    {
      hide PowerOfTwo, TableStep, Placement;
      h := Handle(0, 0);
      StepsNowhere(slots, first, limit, nextGeneration);
      if !ready || owner == 0 || bytes == 0 || bytes % PAGE != 0 || alignment < PAGE || !PowerOfTwo(alignment) {
        return Invalid, h;
      }
      InWindow(slots, first, limit, nextGeneration);
      var found, address := Search(slots, first, limit, bytes, alignment);
      if !found { return NoSpace, h; }
      PlacementPaged(slots, first, limit, address, bytes, alignment);
      status, h := Insert(owner, address, bytes, Reserved);
    }

    // ---------------------------------------------------------------- one allocation

    /** The result of a lookup by handle; Quarantined allocations resolve to that. */
    function Lookup(owner: nat, h: Handle): (r: Status)
      reads this
      ensures r == Ok ==> owner != 0 && h.slot < |slots| && slots[h.slot].owner == owner
      ensures r == Ok ==> slots[h.slot].generation == h.generation != 0
    {
      if !ready || h.slot >= |slots| || h.generation == 0 then NotFound
      else
        var a := slots[h.slot];
        if a.state == Free || a.state == Excluded || a.generation != h.generation then NotFound
        else if owner == 0 || a.owner != owner then WrongOwner
        else if a.state == Quarantined then Quarantine
        else Ok
    }

    /** Replaces a live allocation in place. */
    method Put(i: nat, a: Allocation)
      requires Valid() && i < |slots| && slots[i].state != Free && a.state != Free
      requires a.generation == slots[i].generation && a.address == slots[i].address && a.bytes == slots[i].bytes
      requires SlotOk(a, first, limit, nextGeneration)
      requires Backed(a)
      modifies this`slots
      ensures Valid() && slots == old(slots)[i := a]
      ensures SlotStep(old(slots)[i], a, nextGeneration) ==> TableStep(old(slots), slots, nextGeneration)
    {
      hide TableOk, TableStep, SlotStep, SlotOk;
      Change(slots, first, limit, nextGeneration, i, a);
      slots := slots[i := a];
      StillLive(old(slots), i, a);
    }

    method Pin(owner: nat, h: Handle) returns (status: Status)
      requires Valid()
      modifies this`slots, this`at, this`pinnedAt
      ensures Valid() && TableStep(old(slots), slots, nextGeneration)
      ensures old(Lookup(owner, h)) != Ok ==> status == old(Lookup(owner, h)) && slots == old(slots)
      ensures old(Lookup(owner, h)) == Ok ==> status == PinStatus(old(slots)[h.slot], backend, tape, old(at))
      ensures old(Lookup(owner, h)) == Ok ==>
                OnlySlot(old(slots), slots, h.slot) &&
                slots[h.slot] == old(slots)[h.slot].(state := slots[h.slot].state, pin := slots[h.slot].pin)
      ensures old(Lookup(owner, h)) == Ok && status != Ok && status != Quarantine ==> slots == old(slots)
      ensures status == Ok ==> slots[h.slot].state == Pinned && PinSound(slots[h.slot].pin, slots[h.slot].bytes)
      ensures status == Ok ==> slots[h.slot].pin == At(tape, old(at), AskPin(owner, slots[h.slot].bytes)).pin
    {
      hide At, TableStep, TableOk, Live, ProperlyGone;
      StepsNowhere(slots, first, limit, nextGeneration);
      var found := Lookup(owner, h);
      if found != Ok { return found; }
      var i := h.slot;
      SlotFine(i);
      if slots[i].state != Reserved { return Busy; }
      if !backend.pin || !backend.unpin { return Unavailable; }
      var answer := Ask(AskPin(owner, slots[i].bytes));
      var pinned := answer.pin;
      if answer.status != Ok {
        if pinned.cookie != 0 || pinned.list != 0 || pinned.pages != [] {
          Put(i, slots[i].(pin := pinned, state := Quarantined));
          return Quarantine;
        }
        return answer.status;
      }
      if !PinFits(pinned, slots[i].bytes) || exists p <- pinned.pages :: !DmaPage(p) {
        answer := Ask(AskUnpin(pinned));
        if answer.status != Ok {
          Put(i, slots[i].(pin := pinned, state := Quarantined));
          return Quarantine;
        }
        return BackendFailure;
      }
      MarkPinned(i, pinned);
      return Ok;
    }

    lemma SlotFine(i: nat)
      requires Valid() && i < |slots|
      ensures SlotOk(slots[i], first, limit, nextGeneration) && Backed(slots[i])
    {
    }

    method MarkPinned(i: nat, pinned: Pin)
      requires Valid() && i < |slots| && slots[i].state == Reserved && PinFits(pinned, slots[i].bytes) && 0 < at
      requires PinnedBy(tape, at - 1, slots[i].(pin := pinned))
      modifies this`slots, this`pinnedAt
      ensures Valid() && slots == old(slots)[i := old(slots)[i].(pin := pinned, state := Pinned)]
      ensures TableStep(old(slots), slots, nextGeneration)
    {
      hide At, TableStep, ProperlyGone;
      var a := slots[i].(pin := pinned, state := Pinned);
      Change(slots, first, limit, nextGeneration, i, a);
      StillLive(slots, i, a);
      OneGeneration(slots, first, limit, nextGeneration, i);
      slots, pinnedAt := slots[i := a], pinnedAt[a.generation := at - 1];
    }

    method Bind(owner: nat, h: Handle, pat: nat, writable: bool) returns (status: Status)
      requires Valid()
      modifies this`slots, this`at, this`bound
      ensures Valid() && TableStep(old(slots), slots, nextGeneration)
      ensures old(Lookup(owner, h)) != Ok ==> status == old(Lookup(owner, h)) && slots == old(slots)
      ensures old(Lookup(owner, h)) == Ok ==>
                status == BindStatus(old(slots)[h.slot], backend, tape, old(at), pat, writable)
      ensures status == Ok ==>
                old(slots)[h.slot].state == Pinned && slots == old(slots)[h.slot := old(slots)[h.slot].(state := Bound)]
      ensures status == Quarantine && old(Lookup(owner, h)) == Ok ==>
                slots == old(slots)[h.slot := old(slots)[h.slot].(state := Quarantined)]
      ensures status != Ok && status != Quarantine ==> slots == old(slots)
    {
      hide At, TableStep, TableOk, Live, ProperlyGone;
      StepsNowhere(slots, first, limit, nextGeneration);
      var found := Lookup(owner, h);
      if found != Ok { return found; }
      var i := h.slot;
      SlotFine(i);
      if slots[i].state != Pinned { return Busy; }
      if pat > 15 { return Invalid; }
      if !backend.bind || !backend.unbind || pat !in backend.pats { return Unavailable; }
      var answer := Ask(AskBind(slots[i].address, slots[i].pin, pat, writable));
      if answer.status == Ok {
        MarkBound(i, Binding(at - 1, pat, writable));
        return Ok;
      }
      if answer.status != Unavailable {
        Put(i, slots[i].(state := Quarantined));
        return Quarantine;
      }
      return Unavailable;
    }

    method MarkBound(i: nat, ghost b: Binding)
      requires Valid() && i < |slots| && slots[i].state == Pinned && b.at < at && BoundBy(tape, b, slots[i])
      requires slots[i].generation in pinnedAt && pinnedAt[slots[i].generation] < b.at
      modifies this`slots, this`bound
      ensures Valid() && slots == old(slots)[i := old(slots)[i].(state := Bound)]
      ensures TableStep(old(slots), slots, nextGeneration)
    {
      hide At, TableStep, SlotOk, Apart, Departed, Live;
      var a := slots[i].(state := Bound);
      BindFits(slots[i], first, limit, nextGeneration);
      Change(slots, first, limit, nextGeneration, i, a);
      StillLive(slots, i, a);
      LiveBound(slots, i);
      OneGeneration(slots, first, limit, nextGeneration, i);
      slots, bound := slots[i := a], bound[a.generation := b];
    }

    method RecordUse(owner: nat, h: Handle, fence: Fence) returns (status: Status)
      requires Valid()
      modifies this`slots
      ensures Valid() && TableStep(old(slots), slots, nextGeneration)
      ensures status == Ok ==>
                old(Lookup(owner, h)) == Ok && old(slots)[h.slot].state == Bound &&
                slots == old(slots)[h.slot := old(slots)[h.slot].(lastUse := fence)]
      ensures status == if old(Lookup(owner, h)) != Ok then old(Lookup(owner, h))
                        else if old(slots)[h.slot].state != Bound then Busy
                        else if Follows(old(slots)[h.slot].lastUse, fence) then Ok else Invalid
      ensures status != Ok ==> slots == old(slots)
      ensures status == Ok ==>
                var last := old(slots)[h.slot].lastUse;
                last.value < fence.value && fence.timeline != 0 && last.timeline in {0, fence.timeline}
    {
      hide TableStep;
      StepsNowhere(slots, first, limit, nextGeneration);
      var found := Lookup(owner, h);
      if found != Ok { return found; }
      var a := slots[h.slot];
      assert SlotOk(a, first, limit, nextGeneration);
      if a.state != Bound { return Busy; }
      if fence.timeline == 0 || fence.value == 0 || (a.lastUse.timeline != 0 && a.lastUse.timeline != fence.timeline) ||
         fence.value <= a.lastUse.value {
        return Invalid;
      }
      Put(h.slot, a.(lastUse := fence));
      return Ok;
    }

    method Retire(owner: nat, h: Handle) returns (status: Status)
      requires Valid()
      modifies this`slots
      ensures Valid() && TableStep(old(slots), slots, nextGeneration)
      ensures status == if old(Lookup(owner, h)) != Ok then old(Lookup(owner, h))
                        else if old(slots)[h.slot].state == Bound || old(slots)[h.slot].state == Retiring then Ok
                          else Busy
      ensures status == Ok ==> slots == old(slots)[h.slot := old(slots)[h.slot].(state := Retiring)]
      ensures status != Ok ==> slots == old(slots)
    {
      hide TableStep;
      StepsNowhere(slots, first, limit, nextGeneration);
      var found := Lookup(owner, h);
      if found != Ok { return found; }
      var a := slots[h.slot];
      assert SlotOk(a, first, limit, nextGeneration);
      if a.state == Retiring { return Ok; }
      if a.state != Bound { return Busy; }
      Put(h.slot, a.(state := Retiring));
      return Ok;
    }

    // ---------------------------------------------------------------- holds

    method RetainUse(owner: nat, h: Handle) returns (status: Status)
      requires Valid()
      modifies this`slots
      ensures Valid()
      ensures status == if old(Lookup(owner, h)) != Ok then old(Lookup(owner, h))
                        else if old(slots)[h.slot].state != Bound then Busy
                        else if old(slots)[h.slot].uses + 1 == U32 then NoSpace else Ok
      ensures slots == if status == Ok
                       then old(slots)[h.slot := old(slots)[h.slot].(uses := old(slots)[h.slot].uses + 1)]
                       else old(slots)
    {
      var found := Lookup(owner, h);
      if found != Ok { return found; }
      var a := slots[h.slot];
      assert SlotOk(a, first, limit, nextGeneration);
      if a.state != Bound { return Busy; }
      if a.uses + 1 == U32 { return NoSpace; }
      Put(h.slot, a.(uses := a.uses + 1));
      return Ok;
    }

    method ReleaseUse(owner: nat, h: Handle) returns (status: Status)
      requires Valid()
      modifies this`slots
      ensures Valid()
      ensures status == if old(Lookup(owner, h)) != Ok then old(Lookup(owner, h))
                        else if old(slots)[h.slot].state != Bound && old(slots)[h.slot].state != Retiring then Busy
                        else if old(slots)[h.slot].uses == 0 then Invalid else Ok
      ensures slots == if status == Ok
                       then old(slots)[h.slot := old(slots)[h.slot].(uses := old(slots)[h.slot].uses - 1)]
                       else old(slots)
    {
      var found := Lookup(owner, h);
      if found != Ok { return found; }
      var a := slots[h.slot];
      assert SlotOk(a, first, limit, nextGeneration);
      if a.state != Bound && a.state != Retiring { return Busy; }
      if a.uses == 0 { return Invalid; }
      Put(h.slot, a.(uses := a.uses - 1));
      return Ok;
    }

    // ---------------------------------------------------------------- giving back

    /** Waits for the last use, then removes the mapping. `d` says which calls allowed it. */
    method Unmap(i: nat) returns (status: Status, ghost d: Departure)
      requires Valid() && i < |slots| && slots[i].state == Retiring
      modifies this`slots, this`at
      ensures Valid() && TableStep(old(slots), slots, nextGeneration)
      ensures status == UnmapStatus(old(slots)[i], backend, tape, old(at))
      ensures status == Ok ==>
                && slots == old(slots) && d.a == slots[i] && d.unbind < at && Departing(d)
                && at == old(at) + if slots[i].lastUse.value != 0 then 2 else 1
      ensures status == Quarantine ==>
                old(slots)[i].uses == 0 && slots == old(slots)[i := old(slots)[i].(state := Quarantined)]
      ensures status !in {Ok, Quarantine} ==> slots == old(slots) && status in {Busy, Unavailable}
    {
      hide At, TableStep, TableOk, Live, ProperlyGone;
      StepsNowhere(slots, first, limit, nextGeneration);
      var a := slots[i];
      SlotFine(i);
      d := Departure(a, 0, 0, 0);
      if a.uses != 0 { return Busy, d; }
      if a.lastUse.value != 0 {
        if !backend.fenceComplete { return Unavailable, d; }
        var fence := Ask(AskFence(a.lastUse));
        if !fence.complete { return Busy, d; }
        d := d.(fence := at - 1);
      }
      if !backend.unbind { return Unavailable, d; }
      var answer := Ask(AskUnbind(a.address, a.bytes));
      if answer.status == Unavailable { return Unavailable, d; }
      if answer.status != Ok {
        Put(i, a.(state := Quarantined));
        return Quarantine, d;
      }
      return Ok, d.(unbind := at - 1);
    }

    /** Everything but the unpin was confirmed. */
    ghost predicate Departing(d: Departure)
      reads this`bound
    {
      && d.a.generation in bound && d.a.uses == 0 && bound[d.a.generation].at < d.unbind
      && (d.a.lastUse.value != 0 ==>
            bound[d.a.generation].at < d.fence < d.unbind && At(tape, d.fence, AskFence(d.a.lastUse)).complete)
      && At(tape, d.unbind, AskUnbind(d.a.address, d.a.bytes)).status == Ok
    }

    /** Unpins if there is something to unpin, then frees the slot. */
    method Discard(i: nat, ghost d: Departure) returns (status: Status)
      requires Valid() && i < |slots| && slots[i].state in {Reserved, Pinned, Retiring} && slots[i].uses == 0
      requires slots[i].state == Retiring ==> d.a == slots[i] && d.unbind < at && Departing(d)
      modifies this`slots, this`at, this`gone
      ensures Valid() && TableStep(old(slots), slots, nextGeneration)
      ensures status ==
                if old(slots)[i].state == Reserved ||
                   (backend.unpin && At(tape, old(at), AskUnpin(old(slots)[i].pin)).status == Ok) then Ok
                else Quarantine
      ensures slots == old(slots)[i := if status == Ok then EMPTY else old(slots)[i].(state := Quarantined)]
      ensures status == Ok && old(slots)[i].state == Retiring ==> ProperlyGone(old(slots)[i].generation)
    {
      hide At, TableStep, TableOk, Live, ProperlyGone;
      var a := slots[i];
      SlotFine(i);
      ghost var done := d;
      if a.state != Reserved {
        if !backend.unpin {
          Put(i, a.(state := Quarantined));
          return Quarantine;
        }
        var answer := Ask(AskUnpin(a.pin));
        if answer.status != Ok {
          Put(i, a.(state := Quarantined));
          return Quarantine;
        }
        done := d.(unpin := at - 1);
      }
      Vacate(i, done);
      return Ok;
    }

    /** The slot is free again. */
    method Vacate(i: nat, ghost d: Departure)
      requires Valid() && i < |slots| && slots[i].state in {Reserved, Pinned, Retiring} && slots[i].uses == 0
      requires slots[i].state == Retiring ==>
                d.a == slots[i] && Departing(d) && d.unbind < d.unpin < at &&
                At(tape, d.unpin, AskUnpin(d.a.pin)).status == Ok
      modifies this`slots, this`gone
      ensures Valid() && TableStep(old(slots), slots, nextGeneration) && slots == old(slots)[i := EMPTY]
      ensures old(slots)[i].state == Retiring ==> ProperlyGone(old(slots)[i].generation)
    {
      hide At, TableStep, Apart, PinnedBy;
      var a := slots[i];
      Change(slots, first, limit, nextGeneration, i, EMPTY);
      if a.state == Retiring { gone := gone[a.generation := d]; }
      slots := slots[i := EMPTY];
      forall g | g in bound.Keys ensures Live(slots, g) || ProperlyGone(g) {
        if g != a.generation && Live(old(slots), g) { LiveElsewhere(old(slots), i, g); }
      }
    }

    method Reclaim(owner: nat, h: Handle) returns (status: Status)
      requires Valid()
      modifies this`slots, this`at, this`gone
      ensures Valid() && TableStep(old(slots), slots, nextGeneration)
      ensures old(Lookup(owner, h)) != Ok ==> status == old(Lookup(owner, h)) && slots == old(slots)
      ensures old(Lookup(owner, h)) == Ok ==> OnlySlot(old(slots), slots, h.slot)
      ensures old(Lookup(owner, h)) == Ok ==> status == ReclaimStatus(old(slots)[h.slot], backend, tape, old(at))
      ensures old(Lookup(owner, h)) == Ok && (old(slots)[h.slot].state == Bound || old(slots)[h.slot].uses > 0) ==>
                status == Busy && slots == old(slots)
      ensures status == Ok && old(slots)[h.slot].state == Retiring ==> ProperlyGone(h.generation)
      ensures status == Ok ==> slots == old(slots)[h.slot := EMPTY]
      ensures status != Ok && old(Lookup(owner, h)) == Ok ==>
                slots == if status == Quarantine then old(slots)[h.slot := old(slots)[h.slot].(state := Quarantined)]
                  else old(slots)
    {
      hide At, TableStep, TableOk, Live, Departed;
      StepsNowhere(slots, first, limit, nextGeneration);
      var found := Lookup(owner, h);
      if found != Ok { return found; }
      var i := h.slot;
      SlotFine(i);
      if slots[i].state == Bound { return Busy; }
      ghost var d := Departure(EMPTY, 0, 0, 0);
      if slots[i].state == Retiring {
        status, d := Unmap(i);
        if status != Ok { return; }
      }
      status := Discard(i, d);
    }

    // ---------------------------------------------------------------- every run

    method Perform(op: Op)
      requires Valid()
      modifies this
      ensures Valid() && TableLasting(old(slots), slots, old(nextGeneration)) && nextGeneration >= old(nextGeneration)
      ensures !op.RetainOp? && !op.ReleaseOp? ==> TableStep(old(slots), slots, old(nextGeneration))
      ensures ready == old(ready)
    {
      hide Valid, TableStep, TableLasting;
      match op {
        case ExcludeOp(address, bytes) => var s := Exclude(address, bytes);
        case ReserveAtOp(owner, address, bytes) => var s, h := ReserveAt(owner, address, bytes);
        case ReserveOp(owner, bytes, alignment) => var s, h := Reserve(owner, bytes, alignment % U64);
        case PinOp(owner, h) => var s := Pin(owner, h);
        case BindOp(owner, h, pat, writable) => var s := Bind(owner, h, pat, writable);
        case RecordOp(owner, h, fence) => var s := RecordUse(owner, h, fence);
        case RetireOp(owner, h) => var s := Retire(owner, h);
        case ReclaimOp(owner, h) => var s := Reclaim(owner, h);
        case RetainOp(owner, h) => var s := RetainUse(owner, h); HoldLasts(old(slots), slots, nextGeneration);
        case ReleaseOp(owner, h) => var s := ReleaseUse(owner, h); HoldLasts(old(slots), slots, nextGeneration);
      }
      if !op.RetainOp? && !op.ReleaseOp? { StepIsLasting(old(slots), slots, old(nextGeneration)); }
    }

    /** Whatever is called and whatever the backend answers: ranges stay disjoint and inside
        the window, a handle that stopped resolving never resolves again, quarantine is
        final, and whatever was once bound is either still in the table or was given back
        with no uses, its last fence complete, its mapping removed and its pages unpinned. */
    method Execute(ops: seq<Op>)
      requires Valid()
      modifies this
      ensures Valid() && TableLasting(old(slots), slots, old(nextGeneration))
      ensures forall i, j | 0 <= i < j < |slots| && slots[i].state != Free && slots[j].state != Free ::
                slots[i].End() <= slots[j].address || slots[j].End() <= slots[i].address
      ensures forall owner: nat, h: Handle | h.generation < old(nextGeneration) && old(Lookup(owner, h)) == NotFound ::
                Lookup(owner, h) == NotFound
      ensures forall g <- bound.Keys :: Live(slots, g) || ProperlyGone(g)
    {
      hide Valid, TableLasting;
      LastsItself(slots, nextGeneration);
      for n := 0 to |ops|
        invariant Valid() && TableLasting(old(slots), slots, old(nextGeneration))
        invariant old(nextGeneration) <= nextGeneration && ready == old(ready)
      {
        ghost var before, generation := slots, nextGeneration;
        Perform(ops[n]);
        LastingTransitive(old(slots), before, slots, old(nextGeneration), generation);
      }
      Consequences();
      forall owner: nat, h: Handle | h.generation < old(nextGeneration) && old(Lookup(owner, h)) == NotFound
        ensures Lookup(owner, h) == NotFound
      {
        NeverAgain(ready, old(slots), slots, old(nextGeneration), h);
      }
    }

    lemma Consequences()
      requires Valid()
      ensures forall i, j | 0 <= i < j < |slots| && slots[i].state != Free && slots[j].state != Free ::
                slots[i].End() <= slots[j].address || slots[j].End() <= slots[i].address
      ensures forall g <- bound.Keys :: Live(slots, g) || ProperlyGone(g)
    {
      forall i, j | 0 <= i < j < |slots| && slots[i].state != Free && slots[j].state != Free
        ensures slots[i].End() <= slots[j].address || slots[j].End() <= slots[i].address
      {
        assert Apart(slots[i], slots[j]);
      }
    }
  }

  datatype Op =
    | ExcludeOp(address: nat, bytes: nat)
    | ReserveAtOp(owner: nat, address: nat, bytes: nat)
    | ReserveOp(owner: nat, bytes: nat, alignment: nat)
    | PinOp(owner: nat, h: Handle)
    | BindOp(owner: nat, h: Handle, pat: nat, writable: bool)
    | RecordOp(owner: nat, h: Handle, fence: Fence)
    | RetireOp(owner: nat, h: Handle)
    | ReclaimOp(owner: nat, h: Handle)
    | RetainOp(owner: nat, h: Handle)
    | ReleaseOp(owner: nat, h: Handle)

  predicate Resolvable(ready: bool, slots: seq<Allocation>, h: Handle) {
    ready && h.slot < |slots| && h.generation != 0 && slots[h.slot].state != Free && slots[h.slot].state != Excluded &&
    slots[h.slot].generation == h.generation
  }

  /** A handle of an old generation that does not resolve never will. */
  lemma NeverAgain(ready: bool, before: seq<Allocation>, after: seq<Allocation>, nextGeneration: nat, h: Handle)
    requires TableLasting(before, after, nextGeneration) && h.generation < nextGeneration
    requires !Resolvable(ready, before, h)
    ensures !Resolvable(ready, after, h)
  {
    if h.slot < |before| { assert Lasting(before[h.slot], after[h.slot], nextGeneration); }
  }

  lemma LastsItself(slots: seq<Allocation>, n: nat)
    ensures TableLasting(slots, slots, n)
  {
  }

  lemma HoldLasts(before: seq<Allocation>, after: seq<Allocation>, n: nat)
    requires |before| == |after| && forall i | 0 <= i < |before| ::
              after[i] == before[i].(uses := after[i].uses) &&
              (before[i].state == Quarantined ==> after[i] == before[i])
    ensures TableLasting(before, after, n)
  {
  }

  lemma BindFits(a: Allocation, first: nat, limit: nat, nextGeneration: nat)
    requires SlotOk(a, first, limit, nextGeneration) && a.state == Pinned
    ensures SlotOk(a.(state := Bound), first, limit, nextGeneration)
    ensures SlotStep(a, a.(state := Bound), nextGeneration) && a.generation < nextGeneration
  {
  }

  lemma OneGeneration(slots: seq<Allocation>, first: nat, limit: nat, nextGeneration: nat, i: nat)
    requires TableOk(slots, first, limit, nextGeneration) && i < |slots| && slots[i].state != Free
    ensures forall j | 0 <= j < |slots| && j != i && slots[j].state != Free ::
              slots[j].generation != slots[i].generation
  {
    forall j | 0 <= j < |slots| && j != i && slots[j].state != Free
      ensures slots[j].generation != slots[i].generation
    {
      assert if j < i then Apart(slots[j], slots[i]) else Apart(slots[i], slots[j]);
    }
  }

  lemma StillLive(slots: seq<Allocation>, i: nat, a: Allocation)
    requires i < |slots| && slots[i].state != Free && a.state != Free && a.generation == slots[i].generation
    ensures forall g :: Live(slots, g) <==> Live(slots[i := a], g)
  {
    forall g | Live(slots, g) ensures Live(slots[i := a], g) {
      var j :| 0 <= j < |slots| && slots[j].state != Free && slots[j].generation == g;
      assert slots[i := a][j].generation == g;
    }
    forall g | Live(slots[i := a], g) ensures Live(slots, g) {
      var j :| 0 <= j < |slots| && slots[i := a][j].state != Free && slots[i := a][j].generation == g;
      assert slots[j].generation == g;
    }
  }

  lemma LiveBound(slots: seq<Allocation>, i: nat)
    requires i < |slots| && slots[i].state != Free
    ensures Live(slots, slots[i].generation)
  {
  }

  lemma LiveElsewhere(slots: seq<Allocation>, i: nat, g: nat)
    requires i < |slots| && Live(slots, g) && g != slots[i].generation
    ensures Live(slots[i := EMPTY], g)
  {
    var j :| 0 <= j < |slots| && slots[j].state != Free && slots[j].generation == g;
    assert slots[i := EMPTY][j] == slots[j];
  }

  predicate OnlySlot(before: seq<Allocation>, after: seq<Allocation>, i: nat) {
    |before| == |after| && i < |before| && after == before[i := after[i]]
  }

  predicate FreeSlot(slots: seq<Allocation>) {
    exists i | 0 <= i < |slots| :: slots[i].state == Free
  }

  predicate Reservation(before: seq<Allocation>, after: seq<Allocation>, owner: nat, address: nat, bytes: nat,
                        h: Handle) {
    && h.slot < |before| && before[h.slot].state == Free && (forall j | 0 <= j < h.slot :: before[j].state != Free)
    && after == before[h.slot := EMPTY.(state := Reserved, owner := owner, address := address, bytes := bytes,
                                        generation := h.generation)]
  }

  lemma StepsNowhere(slots: seq<Allocation>, first: nat, limit: nat, nextGeneration: nat)
    requires TableOk(slots, first, limit, nextGeneration)
    ensures TableStep(slots, slots, nextGeneration)
  {
    forall j | 0 <= j < |slots| && slots[j].uses > 0 ensures slots[j].state == Bound || slots[j].state == Retiring {
      UsesMeanBound(slots[j], first, limit, nextGeneration);
    }
  }

  lemma InWindow(slots: seq<Allocation>, first: nat, limit: nat, nextGeneration: nat)
    requires TableOk(slots, first, limit, nextGeneration)
    ensures first <= limit <= VA_LIMIT && forall i | 0 <= i < |slots| && slots[i].state != Free ::
              slots[i].End() <= limit
  {
    forall i | 0 <= i < |slots| && slots[i].state != Free ensures slots[i].End() <= limit {
      assert SlotOk(slots[i], first, limit, nextGeneration);
    }
  }

  lemma PlacementPaged(slots: seq<Allocation>, first: nat, limit: nat, address: nat, bytes: nat, alignment: nat)
    requires PAGE <= alignment && PowerOfTwo(alignment) && Placement(slots, first, limit, address, bytes, alignment)
    ensures address % PAGE == 0 && first <= address && address + bytes <= limit && Vacant(slots, address, bytes)
  {
    hide PowerOfTwo;
    assert PowerOfTwo(PAGE) by { PagePower(); }
    PowersDivide(PAGE, alignment);
    MultipleOfMultiple(address, alignment, PAGE);
  }
}
