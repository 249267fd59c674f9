/**
 XeGuCRegions::Owner composed with the GGTT manager it owns: pins, region records,
 mappings and firmware holds stay in step, and a pin goes back only after its mapping.
 */
module RegionOwner {
  import opened Arithmetic
  import opened PteFormat
  import opened GgttModel
  import opened GgttSearch
  import opened GgttBackend
  import opened Ggtt
  import opened RegionMemory

  const MAX_TOTAL_BYTES: nat := 256 * 1024 * 1024

  function Charge(regions: seq<Region>): nat {
    if regions == [] then 0 else Charge(regions[..|regions| - 1]) + regions[|regions| - 1].bytes
  }

  lemma {:induction false} ChargeUpdate(regions: seq<Region>, i: nat, r: Region)
    requires i < |regions|
    ensures Charge(regions[i := r]) == Charge(regions) - regions[i].bytes + r.bytes
  {
    var n := |regions| - 1;
    if i == n {
      assert regions[i := r][..n] == regions[..n];
    } else {
      ChargeUpdate(regions[..n], i, r);
      assert regions[i := r][..n] == regions[..n][i := r];
    }
  }

  // ------------------------------------------------------------ what must agree

  predicate RegionOk(r: Region) {
    if r.state == RFree then r == NO_REGION
    else
      && 0 < r.generation < U64 && 0 < r.bytes <= MAX_BYTES && r.references <= 1
      && (r.backing == NO_BACKING || r.backing.identity == r.generation)
      && (r.reserved ==> r.pinOwned && r.backing != NO_BACKING && r.backing == BackingOf(r))
      && (r.held || r.references > 0 ==> r.reserved)
      && (r.references > 0 ==> r.state in {RPublished, RQuarantined})
  }

  /** What the manager is asked to map for a region: its pin's pages under its generation. */
  function BackingOf(r: Region): Backing {
    Backing(r.generation, r.pin.cookie, r.cpu, r.pin.list, r.pin.pages)
  }

  /** A reserved region and its mapping: same address and size, same hold, same users, same backing. */
  predicate Paired(r: Region, slots: seq<Slot>, owner: nat) {
    r.reserved ==>
      && r.ggtt.slot < |slots|
      && var s := slots[r.ggtt.slot];
      && s.state != Free && s.generation == r.ggtt.generation && s.owner == owner
      && s.range == Range(r.address, r.bytes)
      && s.held == r.held && s.users == r.references && (s.held ==> s.backing == r.backing && s.pat == 3)
  }

  /** Records are told apart by generation and, once they had one, by mapping. */
  predicate Distinct(a: Region, b: Region) {
    a.state != RFree && b.state != RFree ==>
      && a.generation != b.generation
      && (a.ggtt.generation != 0 ==> a.ggtt.generation != b.ggtt.generation)
      && (a.reserved && b.reserved ==> a.ggtt.slot != b.ggtt.slot)
  }

  predicate Claimed(regions: seq<Region>, slots: seq<Slot>, j: nat)
    requires j < |slots|
  {
    slots[j].state != Free ==>
      exists i | 0 <= i < |regions| :: regions[i].reserved && regions[i].ggtt == Handle(j, slots[j].generation)
  }

  predicate Link(regions: seq<Region>, slots: seq<Slot>, owner: nat) {
    && |regions| == MAX_REGIONS
    && (forall i | 0 <= i < |regions| :: RegionOk(regions[i]) && Paired(regions[i], slots, owner))
    && (forall i, j | 0 <= i < j < |regions| :: Distinct(regions[i], regions[j]))
    && (forall j | 0 <= j < |slots| :: Claimed(regions, slots, j))
  }

  /** Neither counter will hand out a number that is still in use. */
  predicate Serials(regions: seq<Region>, serial: nat, ggttSerial: nat) {
    && serial < U64
    && (serial != 0 ==> forall i | 0 <= i < |regions| :: regions[i].generation < serial)
    && (ggttSerial != 0 ==> forall i | 0 <= i < |regions| :: regions[i].ggtt.generation < ggttSerial)
  }

  predicate NoneBuried(regions: seq<Region>) {
    forall i | 0 <= i < |regions| :: regions[i].state != RQuarantined
  }

  // ------------------------------------------------------------ one record changes

  /** A record may change everything that the mapping does not share with it. */
  lemma RegionChange(regions: seq<Region>, slots: seq<Slot>, owner: nat, i: nat, r: Region)
    requires Link(regions, slots, owner) && i < |regions| && regions[i].state != RFree && r.state != RFree
    requires RegionOk(r) && r.generation == regions[i].generation && r.ggtt == regions[i].ggtt
    requires r.reserved == regions[i].reserved && r.held == regions[i].held && r.references == regions[i].references
    requires r.reserved ==>
              r.backing == regions[i].backing && r.address == regions[i].address && r.bytes == regions[i].bytes
    ensures Link(regions[i := r], slots, owner)
  {
    var u := regions[i := r];
    forall a, b | 0 <= a < b < |u| ensures Distinct(u[a], u[b]) { assert Distinct(regions[a], regions[b]); }
    forall j | 0 <= j < |slots| ensures Claimed(u, slots, j) {
      assert Claimed(regions, slots, j);
      if slots[j].state != Free {
        var n :| 0 <= n < |regions| && regions[n].reserved && regions[n].ggtt == Handle(j, slots[j].generation);
        assert u[n].reserved && u[n].ggtt == Handle(j, slots[j].generation);
      }
    }
  }

  /** The mapping of a region may change in anything but its identity, hold and users. */
  lemma MappingChange(regions: seq<Region>, slots: seq<Slot>, owner: nat, i: nat, slots': seq<Slot>)
    requires Link(regions, slots, owner) && i < |regions| && regions[i].reserved
    requires SlotOnly(slots, slots', regions[i].ggtt.slot)
    requires SameHold(slots[regions[i].ggtt.slot], slots'[regions[i].ggtt.slot])
    ensures Link(regions, slots', owner)
  {
    var n := regions[i].ggtt.slot;
    forall a | 0 <= a < |regions| ensures Paired(regions[a], slots', owner) { assert Paired(regions[a], slots, owner); }
    forall j | 0 <= j < |slots'| ensures Claimed(regions, slots', j) {
      assert Claimed(regions, slots, j);
      assert slots'[j].state != Free ==> slots[j].state != Free && slots'[j].generation == slots[j].generation;
    }
  }

  /** A free record becomes a region without a mapping. */
  lemma RegionAdded(regions: seq<Region>, slots: seq<Slot>, owner: nat, i: nat, r: Region)
    requires Link(regions, slots, owner) && i < |regions| && regions[i].state == RFree
    requires r.state != RFree && RegionOk(r) && !r.reserved && r.ggtt.generation == 0
    requires forall j | 0 <= j < |regions| :: regions[j].generation != r.generation
    ensures Link(regions[i := r], slots, owner)
  {
    var u := regions[i := r];
    forall a, b | 0 <= a < b < |u| ensures Distinct(u[a], u[b]) { assert Distinct(regions[a], regions[b]); }
    forall j | 0 <= j < |slots| ensures Claimed(u, slots, j) {
      assert Claimed(regions, slots, j);
      if slots[j].state != Free {
        var n :| 0 <= n < |regions| && regions[n].reserved && regions[n].ggtt == Handle(j, slots[j].generation);
        assert u[n].reserved && u[n].ggtt == Handle(j, slots[j].generation);
      }
    }
  }

  lemma RegionFreed(regions: seq<Region>, slots: seq<Slot>, owner: nat, i: nat)
    requires Link(regions, slots, owner) && i < |regions| && !regions[i].reserved
    ensures Link(regions[i := NO_REGION], slots, owner)
  {
    var u := regions[i := NO_REGION];
    forall a, b | 0 <= a < b < |u| ensures Distinct(u[a], u[b]) { assert Distinct(regions[a], regions[b]); }
    forall j | 0 <= j < |slots| ensures Claimed(u, slots, j) {
      assert Claimed(regions, slots, j);
      if slots[j].state != Free {
        var n :| 0 <= n < |regions| && regions[n].reserved && regions[n].ggtt == Handle(j, slots[j].generation);
        assert u[n].reserved && u[n].ggtt == Handle(j, slots[j].generation);
      }
    }
  }

  /** A fresh reservation joins its region. */
  lemma MappingAdded(regions: seq<Region>, slots: seq<Slot>, owner: nat, i: nat, h: Handle, slots': seq<Slot>,
                     r: Region)
    requires Link(regions, slots, owner) && i < |regions| && regions[i].state != RFree && !regions[i].reserved
    requires regions[i].pinOwned && regions[i].backing == BackingOf(regions[i]) && h.generation != 0
    requires r == regions[i].(reserved := true, state := RReserved, ggtt := h, address := r.address)
    requires forall j | 0 <= j < |regions| :: regions[j].ggtt.generation != h.generation
    requires h.slot < |slots| && slots[h.slot].state == Free
    requires slots' ==
              slots[h.slot := EMPTY.(state := Reserved, owner := owner, generation := h.generation,
                                     range := Range(r.address, r.bytes))]
    ensures Link(regions[i := r], slots', owner)
  {
    var u := regions[i := r];
    assert RegionOk(regions[i]) && Paired(regions[i], slots, owner);
    forall a, b | 0 <= a < b < |u|
      ensures Distinct(u[a], u[b])
    {
      assert Distinct(regions[a], regions[b]);
      assert Paired(regions[a], slots, owner) && Paired(regions[b], slots, owner);
    }
    forall a | 0 <= a < |u| ensures Paired(u[a], slots', owner) { assert Paired(regions[a], slots, owner); }
    forall j | 0 <= j < |slots'| ensures Claimed(u, slots', j) {
      assert Claimed(regions, slots, j);
      if j == h.slot {
        assert u[i].reserved && u[i].ggtt == Handle(j, slots'[j].generation);
      } else if slots[j].state != Free {
        var n :| 0 <= n < |regions| && regions[n].reserved && regions[n].ggtt == Handle(j, slots[j].generation);
        assert u[n].reserved && u[n].ggtt == Handle(j, slots[j].generation);
      }
    }
  }

  /** The mapping is gone; the region keeps its record and loses the hold. */
  lemma MappingGone(regions: seq<Region>, slots: seq<Slot>, owner: nat, i: nat, r: Region)
    requires Link(regions, slots, owner) && i < |regions| && regions[i].reserved
    requires r == regions[i].(reserved := false, held := false, references := 0)
    ensures Link(regions[i := r], slots[regions[i].ggtt.slot := EMPTY], owner)
  {
    var u := regions[i := r];
    var n := regions[i].ggtt.slot;
    var slots' := slots[n := EMPTY];
    assert RegionOk(regions[i]) && Paired(regions[i], slots, owner);
    forall a, b | 0 <= a < b < |u| ensures Distinct(u[a], u[b]) { assert Distinct(regions[a], regions[b]); }
    forall a | 0 <= a < |u|
      ensures Paired(u[a], slots', owner)
    {
      assert Paired(regions[a], slots, owner);
      if a < i { assert Distinct(regions[a], regions[i]); }
      if i < a { assert Distinct(regions[i], regions[a]); }
    }
    forall j | 0 <= j < |slots'| ensures Claimed(u, slots', j) {
      assert Claimed(regions, slots, j);
      if j != n && slots[j].state != Free {
        var k :| 0 <= k < |regions| && regions[k].reserved && regions[k].ggtt == Handle(j, slots[j].generation);
        assert u[k].reserved && u[k].ggtt == Handle(j, slots[j].generation);
      }
    }
  }

  /** Both sides of one region change together: hold and users stay equal. */
  lemma BothChange(regions: seq<Region>, slots: seq<Slot>, owner: nat, i: nat, r: Region, s: Slot)
    requires Link(regions, slots, owner) && i < |regions| && regions[i].reserved
    requires RegionOk(r) && r.state != RFree && r.reserved && r.generation == regions[i].generation
    requires r.ggtt == regions[i].ggtt && s.range == slots[r.ggtt.slot].range
    requires r.address == regions[i].address && r.bytes == regions[i].bytes
    requires s.state != Free && s.generation == r.ggtt.generation && s.owner == owner
    requires s.held == r.held && s.users == r.references && (s.held ==> s.backing == r.backing && s.pat == 3)
    ensures Link(regions[i := r], slots[r.ggtt.slot := s], owner)
  {
    var u := regions[i := r];
    var n := r.ggtt.slot;
    assert Paired(regions[i], slots, owner);
    var slots' := slots[n := s];
    forall a, b | 0 <= a < b < |u| ensures Distinct(u[a], u[b]) { assert Distinct(regions[a], regions[b]); }
    forall a | 0 <= a < |u|
      ensures Paired(u[a], slots', owner)
    {
      assert Paired(regions[a], slots, owner);
      if a < i { assert Distinct(regions[a], regions[i]); }
      if i < a { assert Distinct(regions[i], regions[a]); }
    }
    forall j | 0 <= j < |slots'| ensures Claimed(u, slots', j) {
      assert Claimed(regions, slots, j);
      if slots'[j].state != Free {
        var k :| 0 <= k < |regions| && regions[k].reserved && regions[k].ggtt == Handle(j, slots[j].generation);
        assert u[k].reserved && u[k].ggtt == Handle(j, slots'[j].generation);
      }
    }
  }

  // ------------------------------------------------------------ finding a record

  /** The callback finds the region that the call is about, and no other. */
  lemma FindOwn(regions: seq<Region>, slots: seq<Slot>, owner: nat, i: nat)
    requires Link(regions, slots, owner) && i < |regions| && regions[i].state != RFree && regions[i].pinOwned
    requires regions[i].backing != NO_BACKING
    ensures FindBacking(regions, regions[i].backing) == i
  {
    var b := regions[i].backing;
    var j := FindBacking(regions, b);
    assert RegionOk(regions[i]);
    assert Matches(regions[i], b);
  }

  /** No translation is left from the mapping of a region that has none. */
  lemma UnmappedHasNoEntries(regions: seq<Region>, slots: seq<Slot>, owner: nat, i: nat, pte: map<nat, Entry>,
                             refs: set<(nat, nat)>)
    requires Link(regions, slots, owner) && i < |regions| && regions[i].state != RFree && !regions[i].reserved
    requires Inv(slots, pte, refs)
    ensures forall r <- refs :: r.1 != 0 ==> r.1 != regions[i].ggtt.generation
  {
    hide SlotOk, Exclusive, Complete;
    forall r | r in refs && r.1 != 0
      ensures r.1 != regions[i].ggtt.generation
    {
      assert Owned(slots, r);
      var j :| 0 <= j < |slots| && Active(slots[j]) && slots[j].generation == r.1 && slots[j].range.Covers(r.0);
      assert Claimed(regions, slots, j);
      var n :| 0 <= n < |regions| && regions[n].reserved && regions[n].ggtt == Handle(j, slots[j].generation);
      assert RegionOk(regions[n]);
      if n < i { assert Distinct(regions[n], regions[i]); }
      if i < n { assert Distinct(regions[i], regions[n]); }
    }
  }

  // ------------------------------------------------------------ the owner

  function PinStatus(s: Status): Status {
    match s
    case Invalid => Invalid
    case NoSpace => NoSpace
    case Unavailable => Unavailable
    case Busy => Busy
    case _ => Io
  }

  class Owner {
    const io: Backend
    const ggtt: Manager
    var serial: nat
    var charged: nat
    var started: bool
    var closed: bool
    var draining: bool
    /** The host's bytes. */
    var memory: map<nat, nat>
    /** Set once a pin is given back while its mapping is held or can still translate. */
    ghost var unsafeUnpin: bool

    ghost predicate Valid()
      reads this, io, ggtt
    {
      && ggtt.io == io && ggtt.Valid() && (started ==> io.owner != 0)
      && (io.open <==> started && !closed)
      && ggtt.started == started && ggtt.closed == closed && (started ==> ggtt.epoch == io.epoch)
      && Link(io.regions, ggtt.slots, io.owner)
      && Serials(io.regions, serial, ggtt.serial)
      && charged == Charge(io.regions)
      && Separated(io.regions) && (!draining ==> NoneBuried(io.regions))
      && !unsafeUnpin
    }

    constructor (pte: map<nat, Entry>, memory: map<nat, nat>, tape: nat -> Reply)
      requires forall a <- pte.Keys :: pte[a].src == 0
      ensures Valid() && fresh(io) && fresh(ggtt) && !started && charged == 0 && this.memory == memory
    {
      var b := new Backend(pte, tape);
      this.memory := memory;
      io := b;
      ggtt := new Manager(b);
      serial, charged, started, closed, draining, unsafeUnpin := 1, 0, false, false, false, false;
      new;
      EmptyCharge(MAX_REGIONS);
    }

    // ---------------------------------------------------------------- questions

    method Quiet() returns (ok: bool)
      requires Valid()
      modifies io`tlb, io`asked
      ensures Valid() && io.asked == old(io.asked) + 1
      ensures ok <==> Said(io.tape, old(io.asked)).yes && started && !closed
    {
      hide Inv, Link, Serials, Charge, Separated, Said;
      ok := io.Quiet();
      FewerRefs(ggtt.slots, io.pte, old(io.Refs()), io.Refs());
    }

    method Admitted() returns (ok: bool)
      requires Valid()
      modifies io`tlb, io`asked
      ensures Valid() && io.asked == old(io.asked) + 1
      ensures ok <==> Said(io.tape, old(io.asked)).yes && started && !closed
    {
      hide Inv, Link, Serials, Charge, Separated, Said;
      ok := io.Admitted(io.epoch);
      FewerRefs(ggtt.slots, io.pte, old(io.Refs()), io.Refs());
    }

    method Cpu(i: nat) returns (ok: bool, cpu: nat)
      requires Valid() && i < |io.regions|
      modifies io`tlb, io`asked
      ensures Valid()
      ensures ok ==>
                Canonical(io.regions[i]) && cpu != 0 && cpu + io.regions[i].bytes <= UINTPTR_MAX &&
                (io.regions[i].cpu == 0 || io.regions[i].cpu == cpu)
      ensures ok ==> cpu == Said(io.tape, old(io.asked)).cpu && Heard(io.tape, old(io.asked), io.asked, 1)
    {
      hide Inv, Link, Serials, Charge, Separated, Said;
      ok, cpu := io.ResolveCpu(io.regions[i]);
      FewerRefs(ggtt.slots, io.pte, old(io.Refs()), io.Refs());
    }

    // ---------------------------------------------------------------- records

    /** Replaces a record without touching what its mapping shares with it. */
    method Store(i: nat, r: Region)
      requires Valid() && i < |io.regions| && io.regions[i].state != RFree && r.state != RFree
      requires RegionOk(r) && r.generation == io.regions[i].generation && r.ggtt == io.regions[i].ggtt
      requires r.bytes == io.regions[i].bytes
      requires r.reserved == io.regions[i].reserved && r.held == io.regions[i].held
      requires r.references == io.regions[i].references
      requires r.reserved ==> r.backing == io.regions[i].backing && r.address == io.regions[i].address
      requires Usable(r) ==> Usable(io.regions[i]) && SamePlace(r, io.regions[i])
      requires r.state == RQuarantined ==> draining || io.regions[i].state == RQuarantined
      modifies io`regions
      ensures Valid() && io.regions == old(io.regions)[i := r]
    {
      hide Inv, Link, Charge, Separated;
      RegionChange(io.regions, ggtt.slots, io.owner, i, r);
      ChargeUpdate(io.regions, i, r);
      SeparatedKept(io.regions, i, r);
      io.regions := io.regions[i := r];
    }

    method Bury(i: nat) returns (status: Status)
      requires Valid() && i < |io.regions| && io.regions[i].state != RFree
      modifies io`regions, this`draining
      ensures Valid() && status == Quarantine && draining
      ensures io.regions == old(io.regions)[i := old(io.regions)[i].(state := RQuarantined)]
    {
      hide Inv, Charge, Separated;
      assert RegionOk(io.regions[i]);
      draining := true;
      Store(i, io.regions[i].(state := RQuarantined));
      return Quarantine;
    }

    // ---------------------------------------------------------------- cleanup

    /** Retires the region's mapping, and with it the hold. */
    method DropMapping(i: nat) returns (ok: bool)
      requires Valid() && started && !closed && i < |io.regions| && io.regions[i].reserved
      requires io.regions[i].references == 0
      modifies ggtt`slots, io`tlb, io`asked, io`pte, io`clobbered, io`unsafeRelease, io`regions
      ensures Valid() && old(io.asked) <= io.asked
      ensures io.regions == if ok then old(io.regions)[i := old(io.regions)[i].(reserved := false, held := false)]
              else old(io.regions)
    {
      hide Inv, Charge, Separated, Link, WithHeld, Record, GrantsOk, Granted, SerialOk;
      ghost var regions, slots := io.regions, ggtt.slots;
      ghost var r := regions[i].(reserved := false, held := false);
      var h := io.regions[i].ggtt;
      PairedFacts(regions, slots, io.owner, i);
      SlotsSize(slots, io.pte, io.Refs());
      HeldBacking(slots, io.pte, io.Refs(), h.slot);
      FindOwn(regions, slots, io.owner, i);
      var status := ggtt.Retire(io.owner, io.epoch, h);
      if status != Ok {
        MappingChange(regions, slots, io.owner, i, ggtt.slots);
        return false;
      }
      HeldAt(regions, regions[i].backing, i);
      MappingGone(regions, slots, io.owner, i, r);
      ChargeUpdate(regions, i, r);
      SeparatedKept(regions, i, r);
      io.regions := io.regions[i := io.regions[i].(reserved := false)];
      assert io.regions == regions[i := r];
      return true;
    }

    /** Gives the pin back. Any doubt about the backend's answer is remembered. */
    method Unpin(i: nat) returns (ok: bool)
      requires Valid() && i < |io.regions| && io.regions[i].state != RFree && !io.regions[i].reserved
      requires io.regions[i].pinOwned
      modifies io`asked, io`regions, this`unsafeUnpin
      ensures Valid() && |io.regions| == |old(io.regions)| && io.asked == old(io.asked) + 1
      ensures ok <==> Unpinned(Said(io.tape, old(io.asked)))
      ensures io.regions == old(io.regions)[i := io.regions[i]] && io.regions[i].bytes == old(io.regions)[i].bytes
      ensures io.regions[i].state == old(io.regions)[i].state && !io.regions[i].reserved
      ensures io.regions[i].references == old(io.regions)[i].references
      ensures ok ==> !io.regions[i].pinOwned && io.regions[i].pin == NO_PIN
    {
      hide Inv, Charge, Separated, Said;
      var r := io.regions[i];
      assert RegionOk(r);
      UnmappedHasNoEntries(io.regions, ggtt.slots, io.owner, i, io.pte, io.Refs());
      unsafeUnpin := unsafeUnpin || r.held || exists t :: t in io.Refs() && t.1 != 0 && t.1 == r.ggtt.generation;
      var reply := Said(io.tape, io.asked);
      io.asked := io.asked + 1;
      if reply.status != Ok || reply.pin != NO_PIN {
        Store(i, r.(pin := reply.pin, uncertain := true));
        return false;
      }
      Store(i, r.(pin := reply.pin, pinOwned := false));
      return true;
    }

    /** Ends a region: mapping first, then pin, then record. Every doubt quarantines it. */
    method Cleanup(i: nat) returns (status: Status)
      requires Valid() && i < |io.regions| && io.regions[i].state != RFree
      modifies this`charged, this`draining, this`unsafeUnpin, ggtt`slots, io`tlb, io`asked, io`pte, io`clobbered
      modifies io`unsafeRelease, io`regions
      ensures Valid() && |io.regions| == |old(io.regions)| && io.regions == old(io.regions)[i := io.regions[i]]
      ensures status in {Ok, Busy, Quarantine}
      ensures old(draining) ==> draining
      ensures status == Busy <==> old(io.regions)[i].references != 0
      ensures status == Busy ==> io.regions == old(io.regions)
      ensures status == Ok ==> io.regions[i] == NO_REGION && charged == old(charged) - old(io.regions)[i].bytes
      ensures status == Quarantine ==> io.regions[i].state == RQuarantined && draining && charged == old(charged)
      ensures status == Ok ==> Said(io.tape, old(io.asked)).yes && old(io.asked) < io.asked
      ensures status == Ok && old(io.regions)[i].pinOwned ==> Unpinned(Said(io.tape, io.asked - 1))
    {
      hide Valid, Said, Unpinned;
      if io.regions[i].references != 0 { return Busy; }
      Facts();
      var quiet := Quiet();
      if !quiet { status := Bury(i); return; }
      if io.regions[i].reserved {
        var dropped := DropMapping(i);
        if !dropped { status := Bury(i); return; }
      }
      if io.regions[i].held { assert false; }
      if io.regions[i].uncertain { status := Bury(i); return; }
      if io.regions[i].pinOwned {
        var unpinned := Unpin(i);
        if !unpinned { status := Bury(i); return; }
      } else if io.regions[i].pin != NO_PIN {
        status := Bury(i);
        return;
      }
      Forget(i);
      return Ok;
    }

    /** The record is free again and no longer charged. */
    method Forget(i: nat)
      requires Valid() && i < |io.regions| && !io.regions[i].reserved
      modifies this`charged, io`regions
      ensures Valid() && io.regions == old(io.regions)[i := NO_REGION]
      ensures charged == old(charged) - old(io.regions)[i].bytes
    {
      hide Inv, Link, Serials, Charge, Separated;
      RegionFreed(io.regions, ggtt.slots, io.owner, i);
      ChargeUpdate(io.regions, i, NO_REGION);
      SeparatedKept(io.regions, i, NO_REGION);
      SerialsFreed(io.regions, serial, ggtt.serial, i);
      charged := charged - io.regions[i].bytes;
      io.regions := io.regions[i := NO_REGION];
    }

    // ---------------------------------------------------------------- allocation

    /** A new record in the first free place, charged at once. */
    method NewRegion(bytes: nat) returns (i: nat)
      requires Valid() && serial != 0 && 0 < bytes <= MAX_BYTES
      modifies io`regions, this`serial, this`charged
      ensures Valid() && i <= |io.regions| == |old(io.regions)| == MAX_REGIONS
      ensures i == MAX_REGIONS ==> io.regions == old(io.regions) && serial == old(serial) && charged == old(charged)
      ensures i < MAX_REGIONS ==> charged == old(charged) + bytes
      ensures i < MAX_REGIONS ==> old(io.regions)[i] == NO_REGION
      ensures forall j | 0 <= j < i :: old(io.regions)[j].state != RFree
      ensures i < MAX_REGIONS ==>
                io.regions == old(io.regions)[i := NO_REGION.(state := RPinning, generation := old(serial),
                                                              bytes := bytes)]
    {
      hide Inv, Charge, Separated;
      i := 0;
      while i < MAX_REGIONS && io.regions[i].state != RFree
        invariant 0 <= i <= MAX_REGIONS && forall j | 0 <= j < i :: io.regions[j].state != RFree
      {
        i := i + 1;
      }
      if i == MAX_REGIONS { return; }
      assert RegionOk(io.regions[i]);
      var r := NO_REGION.(state := RPinning, generation := serial, bytes := bytes);
      RegionAdded(io.regions, ggtt.slots, io.owner, i, r);
      ChargeUpdate(io.regions, i, r);
      SeparatedKept(io.regions, i, r);
      io.regions := io.regions[i := r];
      serial := if serial + 1 == U64 then 0 else serial + 1;
      charged := charged + bytes;
    }

    /** Asks the pin backend; whatever it hands back is owned from then on. */
    method Pin(i: nat) returns (pinned: Status)
      requires Valid() && i < |io.regions| && io.regions[i].state == RPinning && !io.regions[i].reserved
      requires io.regions[i].backing == NO_BACKING
      modifies io`asked, io`regions
      ensures Valid() && |io.regions| == |old(io.regions)| && pinned == Said(io.tape, old(io.asked)).status
      ensures io.regions == old(io.regions)[i := WithPin(old(io.regions)[i], Said(io.tape, old(io.asked)).pin)]
    {
      hide Inv, Link, Charge, Separated, Said;
      PairedFacts(io.regions, ggtt.slots, io.owner, i);
      var reply := Said(io.tape, io.asked);
      io.asked := io.asked + 1;
      pinned := reply.status;
      Store(i, WithPin(io.regions[i], reply.pin));
    }

    /** Reserves a GGTT range for the region. */
    method Map(i: nat) returns (ok: bool)
      requires Valid() && started && !closed && i < |io.regions| && io.regions[i].state == RPinning
      requires !io.regions[i].reserved
      requires io.regions[i].pinOwned && io.regions[i].backing == BackingOf(io.regions[i])
      modifies ggtt`slots, ggtt`serial, io`tlb, io`asked, io`regions
      ensures Valid() && |io.regions| == |old(io.regions)|
      ensures !ok ==> io.regions == old(io.regions)
      ensures ok ==> var r := io.regions[i];
                io.regions == old(io.regions)[i := old(io.regions)[i].(reserved := true, state := RReserved,
                                                                       ggtt := r.ggtt, address := r.address)]
      ensures ok ==> ggtt.slots[io.regions[i].ggtt.slot].state == Reserved
      ensures ok ==> ggtt.slots[io.regions[i].ggtt.slot].range == Range(io.regions[i].address, io.regions[i].bytes)
    {
      hide Inv, Charge, Separated, Placement, GrantsOk, Granted, Vacant, PowerOfTwo;
      ghost var slots, serials := ggtt.slots, ggtt.serial;
      var status, h := ggtt.Reserve(io.owner, io.epoch, io.regions[i].bytes, PAGE);
      if status != Ok { return false; }
      var address := ggtt.slots[h.slot].range.address;
      var r := io.regions[i].(reserved := true, state := RReserved, ggtt := h, address := address);
      assert RegionOk(io.regions[i]);
      MappingAdded(io.regions, slots, io.owner, i, h, ggtt.slots, r);
      ChargeUpdate(io.regions, i, r);
      SeparatedKept(io.regions, i, r);
      io.regions := io.regions[i := r];
      return true;
    }

    /** Publishes the region's mapping. If the manager already undid a failed publication
        completely, the region no longer has a mapping. */
    method PublishMapping(i: nat) returns (ok: bool)
      requires Valid() && started && !closed && i < |io.regions| && io.regions[i].reserved
      requires io.regions[i].references == 0
      requires ggtt.slots[io.regions[i].ggtt.slot].state == Reserved
      modifies ggtt`slots, io`tlb, io`asked, io`pte, io`clobbered, io`unsafeRelease, io`regions
      ensures Valid() && |io.regions| == |old(io.regions)|
      ensures io.regions == old(io.regions)[i := old(io.regions)[i].(held := io.regions[i].held,
                                                                     reserved := io.regions[i].reserved)]
      ensures ok ==> io.regions[i].reserved && io.regions[i].held
    {
      hide Inv, Charge, Separated, Link, PublishEffect, EncodeGgtt, GrantsOk, Granted, SerialOk, Heard, Agrees,
      Manager.Publishable;
      ghost var regions, slots := io.regions, ggtt.slots;
      var h := io.regions[i].ggtt;
      PairedFacts(regions, slots, io.owner, i);
      SlotsSize(slots, io.pte, io.Refs());
      HeldBacking(slots, io.pte, io.Refs(), h.slot);
      ReservedSlot(slots, io.pte, io.Refs(), h.slot);
      var status := ggtt.Publish(io.owner, io.epoch, h, io.regions[i].backing, 3);
      PublishKeepsLink(regions, slots, io.owner, i, ggtt.slots, io.regions, status);
      SeparatedKept(regions, i, regions[i].(held := true));
      SeparatedKept(regions, i, regions[i].(reserved := false));
      if (status == Io || status == Invalid) && !io.regions[i].held && ggtt.Get(io.owner, io.epoch, h) == NotFound {
        io.regions := io.regions[i := io.regions[i].(reserved := false)];
        return false;
      }
      return status == Ok;
    }

    /** A fresh proof that the region is mapped as recorded; any doubt quarantines it. */
    method Fresh(i: nat) returns (ok: bool)
      requires Valid() && i < |io.regions| && io.regions[i].state != RFree
      modifies this`draining, ggtt`slots, io`tlb, io`asked, io`regions
      ensures Valid() && |io.regions| == |old(io.regions)|
      ensures ok ==>
                io.regions == old(io.regions) && io.regions[i].reserved && started && !closed &&
                ggtt.slots == old(ggtt.slots)
      ensures ok ==> MappedAs(ggtt.slots, io.regions[i]) && Translates(io.pte, io.regions[i])
      ensures ok ==> Heard(io.tape, old(io.asked), io.asked, 6 + 2 * |io.regions[i].pin.pages|)
      ensures old(draining) ==> draining
      ensures !ok ==> draining && io.regions == old(io.regions)[i := old(io.regions)[i].(state := RQuarantined)]
    {
      hide Valid, EncodeGgtt, Translates, Heard;
      Facts();
      ok := Assured(i);
      if !ok { var status := Bury(i); }
    }

    /** Admitted, the same CPU view, and every entry read back. */
    method Assured(i: nat) returns (ok: bool)
      requires Valid() && i < |io.regions|
      modifies ggtt`slots, io`tlb, io`asked
      ensures Valid()
      ensures ok ==> io.regions[i].reserved && started && !closed && ggtt.slots == old(ggtt.slots)
      ensures ok ==> MappedAs(ggtt.slots, io.regions[i]) && Translates(io.pte, io.regions[i])
      ensures ok ==> Heard(io.tape, old(io.asked), io.asked, 6 + 2 * |io.regions[i].pin.pages|)
    {
      hide Valid, EncodeGgtt, Translates, Yes, Said;
      if !io.regions[i].reserved { return false; }
      ok := Admitted();
      if !ok { return; }
      assert Heard(io.tape, old(io.asked), io.asked, 1) by { OneHeard(io.tape, old(io.asked)); }
      ghost var first := io.asked;
      var cpu;
      ok, cpu := Cpu(i);
      if !ok { return; }
      ghost var second := io.asked;
      ok := CheckMapping(i);
      if !ok { return; }
      HeardMore(io.tape, old(io.asked), first, second, 1, 1);
      HeardMore(io.tape, old(io.asked), second, io.asked, 2, 4 + 2 * |io.regions[i].pin.pages|);
    }

    method CheckMapping(i: nat) returns (ok: bool)
      requires Valid() && started && !closed && i < |io.regions| && io.regions[i].reserved
      modifies ggtt`slots, io`tlb, io`asked
      ensures Valid()
      ensures ok ==>
                ggtt.slots == old(ggtt.slots) && MappedAs(ggtt.slots, io.regions[i]) &&
                Translates(io.pte, io.regions[i])
      ensures ok ==> Heard(io.tape, old(io.asked), io.asked, 4 + 2 * |io.regions[i].pin.pages|)
    {
      hide Inv, Charge, Separated, Heard;
      ghost var slots := ggtt.slots;
      assert Paired(io.regions[i], slots, io.owner);
      SlotsSize(slots, io.pte, io.Refs());
      HeldBacking(slots, io.pte, io.Refs(), io.regions[i].ggtt.slot);
      var status := ggtt.PublishedNow(io.owner, io.epoch, io.regions[i].ggtt, io.regions[i].backing);
      MappingChange(io.regions, slots, io.owner, i, ggtt.slots);
      if status == Ok { MappedTranslates(io.regions, slots, io.owner, i, io.pte, io.Refs()); }
      return status == Ok;
    }

    /** Undoes a half-made allocation: `failure` if everything went back, otherwise why not. */
    method Abandon(i: nat, failure: Status) returns (status: Status, kept: bool)
      requires Valid() && i < |io.regions| && io.regions[i].state != RFree && io.regions[i].references == 0
      modifies this`charged, this`draining, this`unsafeUnpin, ggtt`slots, io`tlb, io`asked, io`pte, io`clobbered
      modifies io`unsafeRelease, io`regions
      ensures Valid() && |io.regions| == |old(io.regions)| && io.regions == old(io.regions)[i := io.regions[i]]
      ensures old(draining) ==> draining
      ensures kept <==> io.regions[i].state != RFree
      ensures kept ==> status == Quarantine && io.regions[i].state == RQuarantined
      ensures !kept ==>
                status == failure && charged == old(charged) - old(io.regions)[i].bytes && io.regions[i] == NO_REGION
    {
      hide Valid;
      var cleaned := Cleanup(i);
      if cleaned == Ok { return failure, false; }
      return cleaned, true;
    }

    lemma Facts()
      requires Valid()
      ensures |io.regions| == MAX_REGIONS && forall i | 0 <= i < |io.regions| :: RegionOk(io.regions[i])
      ensures (started ==> io.owner != 0) && (io.open <==> started && !closed) && Separated(io.regions)
      ensures !draining ==> NoneBuried(io.regions)
    {
      hide Inv, Charge, Separated;
    }

    /** CPU view, aliasing and page list; only then is the backing described. */
    method Prepare(i: nat) returns (ok: bool)
      requires Valid() && i < |io.regions| && io.regions[i].state == RPinning && io.regions[i].pinOwned
      requires !io.regions[i].reserved
      modifies io`tlb, io`asked, io`regions
      ensures Valid() && |io.regions| == |old(io.regions)|
      ensures io.regions ==
                old(io.regions)[i := old(io.regions)[i].(cpu := io.regions[i].cpu, backing := io.regions[i].backing)]
      ensures ok ==>
                io.regions[i].backing == BackingOf(io.regions[i]) && Placed(io.regions[i]) && !Aliases(io.regions, i)
    {
      hide Valid;
      Facts();
      var resolved, cpu := Cpu(i);
      if !resolved { return false; }
      var r := io.regions[i].(cpu := cpu);
      Store(i, r);
      if Aliases(io.regions, i) || exists k | 0 <= k < |r.pin.pages| :: !DmaPage(r.pin.pages[k]) { return false; }
      var described := r.(backing := BackingOf(r));
      AliasSame(io.regions, i, described);
      Store(i, described);
      return true;
    }

    /** Everything after the pin: preparation, reservation, publication. */
    method Establish(i: nat) returns (status: Status, kept: bool)
      requires Valid() && started && !closed && i < |io.regions|
      requires io.regions[i].state == RPinning && io.regions[i].pinOwned && !io.regions[i].reserved
      requires io.regions[i].references == 0
      modifies this`charged, this`draining, this`unsafeUnpin, ggtt`slots, ggtt`serial, io`tlb, io`asked
      modifies io`pte, io`clobbered, io`unsafeRelease, io`regions
      ensures Valid() && |io.regions| == |old(io.regions)| && io.regions == old(io.regions)[i := io.regions[i]]
      ensures old(draining) ==> draining
      ensures kept <==> io.regions[i].state != RFree
      ensures !kept ==> io.regions[i] == NO_REGION && charged == old(charged) - old(io.regions)[i].bytes
      ensures status == Ok ==> kept && charged == old(charged)
      ensures status == Ok ==>
                Usable(io.regions[i]) && io.regions[i].held && io.regions[i].references == 0 &&
                io.regions[i].generation == old(io.regions)[i].generation
      ensures status != Ok && kept ==> io.regions[i].state == RQuarantined
    {
      hide Valid, Aliases;
      var prepared := Prepare(i);
      if !prepared { status, kept := Abandon(i, Invalid); return; }
      ghost var prepared' := io.regions;
      var mapped := Map(i);
      if !mapped { status, kept := Abandon(i, NoSpace); return; }
      var published := PublishMapping(i);
      if !published { status, kept := Abandon(i, Io); return; }
      var proved := Fresh(i);
      if !proved { return Quarantine, true; }
      AliasSame(prepared', i, io.regions[i]);
      assert io.regions == prepared'[i := io.regions[i]];
      Finish(i);
      return Ok, true;
    }

    /** The region becomes usable. */
    method Finish(i: nat)
      requires Valid() && i < |io.regions| && io.regions[i].state != RFree && io.regions[i].reserved
      requires Placed(io.regions[i]) && !Aliases(io.regions, i)
      modifies io`regions
      ensures Valid() && io.regions == old(io.regions)[i := old(io.regions)[i].(state := RPublished)]
    {
      hide Inv, Link, Charge, Separated, Aliases;
      var r := io.regions[i].(state := RPublished);
      PairedFacts(io.regions, ggtt.slots, io.owner, i);
      RegionChange(io.regions, ggtt.slots, io.owner, i, r);
      ChargeUpdate(io.regions, i, r);
      SeparatedGrows(io.regions, i, r);
      io.regions := io.regions[i := r];
    }

    /** From an empty record to a published region, or back. */
    method Fill(i: nat) returns (status: Status, kept: bool)
      requires Valid() && started && !closed && i < |io.regions| && io.regions[i].state == RPinning
      requires !io.regions[i].reserved && io.regions[i].references == 0 && io.regions[i].backing == NO_BACKING
      modifies this`charged, this`draining, this`unsafeUnpin, ggtt`slots, ggtt`serial
      modifies io`tlb, io`asked, io`pte, io`clobbered, io`unsafeRelease, io`regions
      ensures Valid() && |io.regions| == |old(io.regions)| && io.regions == old(io.regions)[i := io.regions[i]]
      ensures old(draining) ==> draining
      ensures !kept ==> status != Ok && io.regions[i] == NO_REGION && charged == old(charged) - old(io.regions)[i].bytes
      ensures status == Ok ==>
                kept && charged == old(charged) && io.regions[i].generation == old(io.regions)[i].generation
      ensures status == Ok ==> Usable(io.regions[i]) && io.regions[i].references == 0
      ensures status != Ok && kept ==> io.regions[i].state == RQuarantined
    {
      hide Valid;
      var pinned := Pin(i);
      if pinned != Ok {
        status, kept := Abandon(i, PinStatus(pinned));
      } else if !io.regions[i].pinOwned {
        Facts();
        Store(i, io.regions[i].(uncertain := true));
        status := Bury(i);
        kept := true;
      } else {
        status, kept := Establish(i);
      }
    }

    method Allocate(caller: nat, e: nat, bytes: nat) returns (status: Status, out: RegionHandle)
      requires Valid()
      modifies this`serial, this`charged, this`draining, this`unsafeUnpin, ggtt`slots, ggtt`serial
      modifies io`tlb, io`asked, io`pte, io`clobbered, io`unsafeRelease, io`regions
      ensures Valid() && |io.regions| == |old(io.regions)| == MAX_REGIONS && (old(draining) ==> draining)
      ensures status == Ok ==>
                Lookup(out) == Ok && out.slot < MAX_REGIONS && Usable(io.regions[out.slot]) &&
                io.regions[out.slot].references == 0
      ensures status == Ok ==> charged == old(charged) + bytes <= MAX_TOTAL_BYTES
      ensures out == NO_HANDLE ==> io.regions == old(io.regions) && charged == old(charged)
      ensures out != NO_HANDLE ==>
                out.slot < MAX_REGIONS && old(io.regions)[out.slot] == NO_REGION &&
                io.regions == old(io.regions)[out.slot := io.regions[out.slot]]
      ensures out != NO_HANDLE && status != Ok ==> io.regions[out.slot].state == RQuarantined
      ensures out != NO_HANDLE ==> forall j | 0 <= j < out.slot :: old(io.regions)[j].state != RFree
      ensures status == Ok ==> out != NO_HANDLE && io.open && !old(draining)
      ensures if !old(started) || old(closed) then status == Unavailable
              else if caller != io.owner then status == WrongOwner
              else if e != io.epoch then status == WrongEpoch
              else if bytes == 0 || bytes % PAGE != 0 || bytes > MAX_BYTES then status == Invalid
              else old(draining) ==> status == Unavailable
    {
      hide Valid;
      out := NO_HANDLE;
      Facts();
      if !started || closed { return Unavailable, out; }
      if caller != io.owner { return WrongOwner, out; }
      if e != io.epoch { return WrongEpoch, out; }
      if bytes == 0 || bytes % PAGE != 0 || bytes > MAX_BYTES { return Invalid, out; }
      if draining { return Unavailable, out; }
      var admitted := Admitted();
      if !admitted { return Unavailable, out; }
      var quiet := Quiet();
      if !quiet { return Busy, out; }
      if serial == 0 || charged > MAX_TOTAL_BYTES || bytes > MAX_TOTAL_BYTES - charged { return NoSpace, out; }
      var generation := serial;
      var i := NewRegion(bytes);
      if i == MAX_REGIONS { return NoSpace, out; }
      var kept;
      status, kept := Fill(i);
      if kept { out := RegionHandle(i, io.owner, io.epoch, generation); }
    }

    /** Opens the owner over ranges above 4 MiB and below the GuC top. */
    method Initialize(owner: nat, e: nat, ranges: seq<Range>) returns (status: Status)
      requires Valid()
      modifies this`started, io`open, io`owner, io`epoch, io`tlb, io`asked, ggtt
      ensures Valid() && charged == old(charged) && closed == old(closed)
      ensures status in {Ok, Busy, Invalid, Unavailable}
      ensures status == Busy <==> old(started)
      ensures status == Invalid <==> !old(started) && !(owner != 0 && e != 0 && Openable(ranges))
      ensures status == Busy ==>
                started && io.owner == old(io.owner) && io.epoch == old(io.epoch) && ggtt.grants == old(ggtt.grants)
      ensures status == Ok ==> started && io.owner == owner && io.epoch == e && ggtt.grants == ranges
      ensures status in {Invalid, Unavailable} ==> !started
    {
      hide Link, Serials, Charge, Separated, Openable, GrantsOk, RangeUsable, NoneBuried, Manager.Valid;
      OpenableGrants(ranges);
      if started { return Busy; }
      ggtt.Unstarted();
      if owner == 0 || e == 0 || ranges == [] || |ranges| > MAX_RANGES { return Invalid; }
      if exists i | 0 <= i < |ranges| :: !RangeUsable(ranges[i]) { return Invalid; }
      LinkOwner(io.regions, ggtt.slots, io.owner, owner);
      io.owner, io.epoch := owner, e;
      io.open, started := !closed, true;
      var s := ggtt.Initialize(e, ranges);
      if s != Ok {
        LinkOwner(io.regions, ggtt.slots, owner, 0);
        io.owner, io.epoch := 0, 0;
        io.open, started := false, false;
        return if s == Invalid then Invalid else Unavailable;
      }
      return Ok;
    }

    /** The answer to a lookup by handle. */
    function Lookup(h: RegionHandle): Status
      reads this, io
    {
      if !started || closed then Unavailable
      else if h.owner != io.owner then WrongOwner
      else if h.epoch != io.epoch then WrongEpoch
      else if h.slot >= |io.regions| || h.generation == 0 then NotFound
      else if io.regions[h.slot].state == RFree || io.regions[h.slot].generation != h.generation then NotFound
      else Ok
    }

    method Retire(h: RegionHandle) returns (status: Status)
      requires Valid()
      modifies this`charged, this`draining, this`unsafeUnpin, ggtt`slots, io`tlb, io`asked, io`pte, io`clobbered
      modifies io`unsafeRelease, io`regions
      ensures Valid() && (old(draining) ==> draining)
      ensures old(Lookup(h)) != Ok ==> status == old(Lookup(h)) && io.regions == old(io.regions)
      ensures old(Lookup(h)) == Ok ==>
                && |io.regions| == |old(io.regions)| && io.regions == old(io.regions)[h.slot := io.regions[h.slot]]
                && status in {Ok, Busy, Quarantine} && (status == Busy <==> old(io.regions)[h.slot].references != 0)
                && (status == Busy ==> io.regions == old(io.regions))
                && (status == Ok ==>
                      io.regions[h.slot] == NO_REGION && charged == old(charged) - old(io.regions)[h.slot].bytes)
                && (status == Quarantine ==>
                      io.regions[h.slot].state == RQuarantined && draining && charged == old(charged))
    {
      hide Valid;
      Facts();
      if Lookup(h) != Ok { return Lookup(h); }
      status := Cleanup(h.slot);
    }

    // ---------------------------------------------------------------- host access

    /** A record may go to quarantine on the way; nothing else in the table changes. */
    twostate predicate OnlyBuried(i: nat)
      requires |io.regions| == |old(io.regions)| && i < |io.regions|
      reads this, io
    {
      io.regions == old(io.regions) ||
      (draining && io.regions == old(io.regions)[i := old(io.regions)[i].(state := RQuarantined)])
    }

    /** Copies into an unborrowed region that is freshly proved published. */
    method Write(h: RegionHandle, offset: nat, source: nat, bytes: nat) returns (status: Status)
      requires Valid()
      modifies this`memory, this`draining, ggtt`slots, io`tlb, io`asked, io`regions
      ensures Valid() && (old(draining) ==> draining)
      ensures old(Lookup(h)) != Ok ==> status == old(Lookup(h)) && io.regions == old(io.regions)
      ensures old(Lookup(h)) == Ok ==>
                var r := old(io.regions)[h.slot];
                && |io.regions| == |old(io.regions)| && OnlyBuried(h.slot)
                && (status == Quarantine || io.regions == old(io.regions))
                && WriteStatus(r, old(draining), offset, source, bytes, status)
      ensures status != Ok ==> memory == old(memory)
      ensures status == Ok ==>
                old(Lookup(h)) == Ok && offset + bytes <= io.regions[h.slot].bytes && Usable(io.regions[h.slot])
      ensures status == Ok ==> Copied(old(memory), memory, io.regions[h.slot].cpu + offset, source, bytes)
      ensures status == Ok ==> Isolated(io.regions, h.slot, old(memory), memory)
    {
      hide Valid, Copied, Isolated, Separated;
      Facts();
      if Lookup(h) != Ok { return Lookup(h); }
      var i := h.slot;
      if source == 0 || bytes == 0 || offset + bytes > io.regions[i].bytes || source + bytes > UINTPTR_MAX {
        return Invalid;
      }
      if draining || io.regions[i].state != RPublished { return Unavailable; }
      if io.regions[i].references != 0 { return Busy; }
      var quiet := Quiet();
      if !quiet { return Busy; }
      var proved := Fresh(i);
      if !proved { return Quarantine; }
      var target := io.regions[i].cpu + offset;
      if Meets(target, bytes, source, bytes) { return Invalid; }
      Facts();
      ghost var before := memory;
      var after := CopyBytes(memory, target, source, bytes);
      CopyStaysInside(io.regions, i, offset, source, bytes, before, after);
      SetMemory(after);
      return Ok;
    }

    method SetMemory(after: map<nat, nat>)
      requires Valid()
      modifies this`memory
      ensures Valid() && memory == after
    {
      memory := after;
    }

    /** Describes a region to a firmware client, after a fresh proof. */
    method Describe(h: RegionHandle) returns (status: Status, out: RegionView)
      requires Valid()
      modifies this`draining, ggtt`slots, io`tlb, io`asked, io`regions
      ensures Valid() && (old(draining) ==> draining)
      ensures old(Lookup(h)) != Ok ==> status == old(Lookup(h)) && io.regions == old(io.regions)
      ensures old(Lookup(h)) == Ok ==>
                && |io.regions| == |old(io.regions)| && OnlyBuried(h.slot)
                && if old(draining) || old(io.regions)[h.slot].state != RPublished then status == Unavailable
                  else status in {Ok, Quarantine}
      ensures status == Ok ==> old(Lookup(h)) == Ok && io.regions == old(io.regions) && Usable(io.regions[h.slot])
      ensures status == Ok ==> out.pages == |io.regions[h.slot].pin.pages| && out.pages * PAGE == out.bytes
      ensures status == Ok ==> forall k | 0 <= k < out.pages ::
                DecodeGgtt(At(io.pte, out.address + k * PAGE).value) == (io.regions[h.slot].pin.pages[k], 3, true)
      ensures status == Ok ==> Heard(io.tape, old(io.asked), io.asked, 6 + 2 * out.pages)
      ensures out == if status == Ok then ViewOf(io.owner, io.regions[h.slot]) else NO_VIEW
    {
      hide Valid, Heard;
      out := NO_VIEW;
      Facts();
      if Lookup(h) != Ok { return Lookup(h), out; }
      if draining || io.regions[h.slot].state != RPublished { return Unavailable, out; }
      var proved := Fresh(h.slot);
      if !proved { return Quarantine, out; }
      return Ok, ViewOf(io.owner, io.regions[h.slot]);
    }

    /** The live record with the highest generation, or the table size. */
    method Latest() returns (i: nat)
      ensures i <= |io.regions|
      ensures i < |io.regions| ==> io.regions[i].state != RFree
      ensures i < |io.regions| ==>
                forall j | 0 <= j < |io.regions| && io.regions[j].state != RFree ::
                  io.regions[j].generation <= io.regions[i].generation
      ensures i == |io.regions| ==> forall j | 0 <= j < |io.regions| :: io.regions[j].state == RFree
    {
      i := |io.regions|;
      for j := 0 to |io.regions|
        invariant i < j || (i == |io.regions| && forall k | 0 <= k < j :: io.regions[k].state == RFree)
        invariant i < j ==>
                  io.regions[i].state != RFree && forall k | 0 <= k < j && io.regions[k].state != RFree ::
                    io.regions[k].generation <= io.regions[i].generation
      {
        if io.regions[j].state != RFree && (i == |io.regions| || io.regions[j].generation > io.regions[i].generation) {
          i := j;
        }
      }
    }

    /** Reverse order of acquisition; the space goes back only when every region is gone. */
    method Close() returns (status: Status)
      requires Valid()
      modifies this`charged, this`draining, this`closed, this`unsafeUnpin, ggtt`slots, ggtt`closed
      modifies io`tlb, io`asked, io`pte, io`clobbered, io`unsafeRelease, io`regions, io`open
      ensures Valid() && (old(draining) ==> draining) && (old(closed) ==> closed)
      ensures old(started) && !old(closed) ==> draining
      ensures status == Ok && !old(closed) ==>
                closed && charged == 0 && forall i | 0 <= i < |io.regions| :: io.regions[i] == NO_REGION
    {
      hide Valid;
      if !started { return Unavailable; }
      if closed { return Ok; }
      status := Drain();
      if status != Ok { return; }
      status := Shut();
    }

    method StartDraining()
      requires Valid()
      modifies this`draining
      ensures Valid() && draining
    {
      draining := true;
    }

    method Shut() returns (status: Status)
      requires Valid() && started && !closed && forall i | 0 <= i < |io.regions| :: io.regions[i].state == RFree
      modifies this`closed, ggtt`closed, io`tlb, io`asked, io`open
      ensures Valid()
      ensures status == Ok ==> closed && charged == 0 && forall i | 0 <= i < |io.regions| :: io.regions[i] == NO_REGION
    {
      hide Inv, Charge, Separated;
      var s := ggtt.Close();
      if s != Ok { return Quarantine; }
      closed, io.open := true, false;
      forall i | 0 <= i < |io.regions| ensures io.regions[i] == NO_REGION { assert RegionOk(io.regions[i]); }
      assert io.regions == seq(MAX_REGIONS, _ => NO_REGION);
      EmptyCharge(MAX_REGIONS);
      return Ok;
    }

    method Drain() returns (status: Status)
      requires Valid() && started && !closed
      modifies this`charged, this`draining, this`unsafeUnpin, ggtt`slots, io`tlb, io`asked, io`pte, io`clobbered
      modifies io`unsafeRelease, io`regions
      ensures Valid() && draining
      ensures status == Ok ==> forall i | 0 <= i < |io.regions| :: io.regions[i].state == RFree
    {
      hide Valid;
      StartDraining();
      Facts();
      LiveBound(io.regions);
      for count := 0 to MAX_REGIONS
        invariant Valid() && draining && |io.regions| == MAX_REGIONS
        invariant |Live(io.regions)| <= MAX_REGIONS - count
      {
        var latest := Latest();
        if latest == |io.regions| { return Ok; }
        ghost var before := io.regions;
        status := Cleanup(latest);
        if status != Ok { return; }
        LiveShrinks(before, latest);
      }
      NoneLive(io.regions);
      return Ok;
    }

    // ---------------------------------------------------------------- firmware holds

    /** The first record that `v` describes, or the table size. */
    method FindRegion(v: RegionView) returns (i: nat)
      ensures i <= |io.regions|
      ensures i < |io.regions| ==> started && !closed && Describes(io.owner, v, io.regions[i])
      ensures i == |io.regions| && started && !closed && v.generation != 0 ==>
                forall j | 0 <= j < |io.regions| :: !Describes(io.owner, v, io.regions[j])
    {
      if !started || closed || v.owner != io.owner || v.generation == 0 { return |io.regions|; }
      for j := 0 to |io.regions|
        invariant forall k | 0 <= k < j :: !Describes(io.owner, v, io.regions[k])
      {
        if Describes(io.owner, v, io.regions[j]) { return j; }
      }
      return |io.regions|;
    }

    /** Adds the mapping's user and the region's reference together. */
    method AddReference(i: nat) returns (ok: bool)
      requires Valid() && started && !closed && i < |io.regions| && io.regions[i].reserved
      requires io.regions[i].references == 0
      requires io.regions[i].state == RPublished
      modifies ggtt`slots, io`tlb, io`asked, io`regions
      ensures Valid()
      ensures io.regions == if ok then old(io.regions)[i := old(io.regions)[i].(references := 1)] else old(io.regions)
    {
      hide Inv, Charge, Separated, Link, EncodeGgtt;
      ghost var regions, slots := io.regions, ggtt.slots;
      var h := io.regions[i].ggtt;
      PairedFacts(regions, slots, io.owner, i);
      SlotsSize(slots, io.pte, io.Refs());
      HeldBacking(slots, io.pte, io.Refs(), h.slot);
      var status := ggtt.Retain(io.owner, io.epoch, h, io.regions[i].backing);
      if status != Ok {
        MappingChange(regions, slots, io.owner, i, ggtt.slots);
        return false;
      }
      BothChange(regions, slots, io.owner, i, regions[i].(references := 1), ggtt.slots[h.slot]);
      ChargeUpdate(regions, i, regions[i].(references := 1));
      SeparatedKept(regions, i, regions[i].(references := 1));
      io.regions := io.regions[i := io.regions[i].(references := io.regions[i].references + 1)];
      return true;
    }

    /** A region can be borrowed once at a time, and only while freshly proved published. */
    method RetainRegion(v: RegionView) returns (ok: bool)
      requires Valid()
      modifies this`draining, ggtt`slots, io`tlb, io`asked, io`regions
      ensures Valid() && |io.regions| == |old(io.regions)| && (old(draining) ==> draining)
      ensures ok ==> !old(draining) && exists i | 0 <= i < |io.regions| ::
                && old(io.regions)[i].state == RPublished && Describes(io.owner, v, old(io.regions)[i])
                && old(io.regions)[i].references == 0
                && io.regions == old(io.regions)[i := old(io.regions)[i].(references := 1)]
    {
      hide Valid;
      var i := FindRegion(v);
      if i == |io.regions| || draining || io.regions[i].state != RPublished || io.regions[i].references != 0 {
        return false;
      }
      var proved := Fresh(i);
      if !proved { return false; }
      ok := AddReference(i);
    }

    method ReleaseRegion(v: RegionView) returns (ok: bool)
      requires Valid()
      modifies ggtt`slots, io`tlb, io`asked, io`regions
      ensures Valid() && |io.regions| == |old(io.regions)|
      ensures !ok ==> io.regions == old(io.regions)
      ensures ok ==> exists i | 0 <= i < |io.regions| ::
                && Describes(io.owner, v, old(io.regions)[i]) && old(io.regions)[i].references == 1
                && io.regions == old(io.regions)[i := old(io.regions)[i].(references := 0)]
    {
      hide Valid;
      var i := FindRegion(v);
      if i == |io.regions| || io.regions[i].references == 0 { return false; }
      var quiet := Quiet();
      if !quiet { return false; }
      ok := DropReference(i);
    }

    method DropReference(i: nat) returns (ok: bool)
      requires Valid() && started && !closed && i < |io.regions| && io.regions[i].reserved
      requires io.regions[i].references != 0
      modifies ggtt`slots, io`tlb, io`asked, io`regions
      ensures Valid() && old(io.regions)[i].references == 1
      ensures io.regions == if ok then old(io.regions)[i := old(io.regions)[i].(references := 0)] else old(io.regions)
    {
      hide Inv, Charge, Separated, Link, EncodeGgtt;
      ghost var regions, slots := io.regions, ggtt.slots;
      var h := io.regions[i].ggtt;
      PairedFacts(regions, slots, io.owner, i);
      SlotsSize(slots, io.pte, io.Refs());
      HeldBacking(slots, io.pte, io.Refs(), h.slot);
      var status := ggtt.Release(io.owner, io.epoch, h);
      if status != Ok { return false; }
      BothChange(regions, slots, io.owner, i, regions[i].(references := 0), ggtt.slots[h.slot]);
      ChargeUpdate(regions, i, regions[i].(references := 0));
      SeparatedKept(regions, i, regions[i].(references := 0));
      io.regions := io.regions[i := io.regions[i].(references := io.regions[i].references - 1)];
      return true;
    }

    /** Looks the borrowed region up and proves its mapping afresh. */
    method Confirm(v: RegionView) returns (ok: bool, i: nat)
      requires Valid()
      modifies this`draining, ggtt`slots, io`tlb, io`asked, io`regions
      ensures Valid() && (old(draining) ==> draining) && |io.regions| == |old(io.regions)|
      ensures ok ==> i < |io.regions| && io.regions == old(io.regions) && Borrowed(io.owner, v, io.regions[i])
      ensures ok ==> MappedAs(ggtt.slots, io.regions[i]) && Translates(io.pte, io.regions[i])
      ensures !ok ==> io.regions == old(io.regions) || Doubted(v)
    {
      hide Valid;
      i := FindRegion(v);
      if i == |io.regions| || io.regions[i].references == 0 { return false, i; }
      ok := Fresh(i);
      if !ok { assert OnlyBuried(i); }
    }

    /** A borrowed region that `v` describes went to quarantine, and that is all. */
    twostate predicate Doubted(v: RegionView)
      requires |io.regions| == |old(io.regions)|
      reads this, io
    {
      exists i | 0 <= i < |io.regions| :: Borrowed(io.owner, v, old(io.regions)[i]) && OnlyBuried(i)
    }

    /** Makes the borrowed region's bytes visible to the device; a failure quarantines it. */
    method SynchronizeRegion(v: RegionView) returns (ok: bool)
      requires Valid()
      modifies this`draining, ggtt`slots, io`tlb, io`asked, io`regions
      ensures Valid() && (old(draining) ==> draining) && |io.regions| == |old(io.regions)|
      ensures ok ==> io.regions == old(io.regions) && 0 < io.asked && Said(io.tape, io.asked - 1).yes
      ensures ok ==> exists i | 0 <= i < |io.regions| ::
                Borrowed(io.owner, v, io.regions[i]) && Translates(io.pte, io.regions[i])
      ensures !ok ==> io.regions == old(io.regions) || Doubted(v)
    {
      hide Valid;
      var i;
      ok, i := Confirm(v);
      if !ok { return; }
      ok := Said(io.tape, io.asked).yes;
      Skip();
      if !ok {
        var status := Bury(i);
        assert OnlyBuried(i);
      }
    }

    /** One answer was heard. */
    method Skip()
      requires Valid()
      modifies io`asked
      ensures Valid() && io.asked == old(io.asked) + 1
    {
      hide Inv, Link, Serials, Charge, Separated;
      io.asked := io.asked + 1;
    }

    /** Whether the borrowed region is mapped as recorded, in this epoch. */
    method PublishedRegion(v: RegionView, e: nat) returns (ok: bool)
      requires Valid()
      modifies this`draining, ggtt`slots, io`tlb, io`asked, io`regions
      ensures Valid() && (old(draining) ==> draining) && |io.regions| == |old(io.regions)|
      ensures ok ==> e == io.epoch && io.regions == old(io.regions)
      ensures ok ==> exists i | 0 <= i < |io.regions| ::
                Borrowed(io.owner, v, io.regions[i]) && Translates(io.pte, io.regions[i])
      ensures !ok ==> io.regions == old(io.regions) || Doubted(v)
    {
      hide Valid;
      if e != io.epoch { return false; }
      var i;
      ok, i := Confirm(v);
    }

    // ---------------------------------------------------------------- every run

    /** No page list in use changed, nor a byte of a borrowed region, quarantined or not. */
    twostate predicate HandsOff()
      reads this, io
    {
      forall i | 0 <= i < |old(io.regions)| ::
        var r := old(io.regions)[i];
        && (Usable(r) ==> SameBytes(old(memory), memory, r.pin.list, ListBytes(r)))
        && (r.references != 0 ==> SameBytes(old(memory), memory, r.cpu, r.bytes))
    }

    method Perform(call: OwnerCall)
      requires Valid()
      modifies this, ggtt, io
      ensures Valid() && HandsOff()
      ensures (old(started) ==> started) && (old(draining) ==> draining) && (old(closed) ==> closed)
    {
      hide Valid, Copied, Separated;
      match call {
        case DoInitialize(owner, e, ranges) => var s := Initialize(owner, e, ranges);
        case DoAllocate(caller, e, bytes) => var s, h := Allocate(caller, e, bytes);
        case DoRetire(h) => var s := Retire(h);
        case DoWrite(h, offset, source, bytes) =>
          Facts();
          var s := Write(h, offset, source, bytes);
        case DoDescribe(h) => var s, v := Describe(h);
        case DoRetainRegion(v) => var ok := RetainRegion(v);
        case DoReleaseRegion(v) => var ok := ReleaseRegion(v);
        case DoSynchronizeRegion(v) => var ok := SynchronizeRegion(v);
        case DoPublishedRegion(v, e) => var ok := PublishedRegion(v, e);
        case DoClose => var s := Close();
      }
    }

    /** Whatever is called and whatever pins and hardware answer: references are the
        mapping's users, holds are the mapping's holds, the charge is the sum of the live
        regions, usable regions share no byte, and no pin or backing went back while it
        could still be reached. Draining and closing are final. */
    method Execute(calls: seq<OwnerCall>)
      requires Valid()
      modifies this, ggtt, io
      ensures Valid() && !unsafeUnpin && !io.unsafeRelease && !io.clobbered
      ensures (old(started) ==> started) && (old(draining) ==> draining) && (old(closed) ==> closed)
      ensures charged == Charge(io.regions) && Separated(io.regions)
      ensures forall i | 0 <= i < |io.regions| && io.regions[i].reserved ::
                && io.regions[i].ggtt.slot < |ggtt.slots|
                && var s := ggtt.slots[io.regions[i].ggtt.slot];
                && s.generation == io.regions[i].ggtt.generation && s.users == io.regions[i].references
                && s.held == io.regions[i].held && s.range == Range(io.regions[i].address, io.regions[i].bytes)
                && (s.state == Published ==> Translates(io.pte, io.regions[i]))
      ensures forall i | 0 <= i < |io.regions| && !io.regions[i].reserved ::
                io.regions[i].references == 0 && !io.regions[i].held
    {
      hide Charge, Separated, Inv;
      for n := 0 to |calls|
        invariant Valid() && (old(started) ==> started) && (old(draining) ==> draining) && (old(closed) ==> closed)
      {
        Perform(calls[n]);
      }
      forall i | 0 <= i < |io.regions| ensures RegionOk(io.regions[i]) && Paired(io.regions[i], ggtt.slots, io.owner) {
        PairedFacts(io.regions, ggtt.slots, io.owner, i);
      }
      forall i | 0 <= i < |io.regions| && io.regions[i].reserved &&
                 ggtt.slots[io.regions[i].ggtt.slot].state == Published
        ensures Translates(io.pte, io.regions[i])
      {
        PublishedFacts(ggtt.slots, io.pte, io.Refs(), io.regions[i].ggtt.slot);
        MappedTranslates(io.regions, ggtt.slots, io.owner, i, io.pte, io.Refs());
      }
    }
  }

  /** What a firmware client knows of a region. */
  datatype RegionView = RegionView(owner: nat, generation: nat, address: nat, bytes: nat, cpu: nat, list: nat,
                                   pages: nat, cookie: nat)

  const NO_VIEW: RegionView := RegionView(0, 0, 0, 0, 0, 0, 0, 0)

  function ViewOf(owner: nat, r: Region): RegionView {
    RegionView(owner, r.generation, r.address, r.bytes, r.cpu, r.pin.list, |r.pin.pages|, r.pin.cookie)
  }

  /** How a write to a found region ends: what the arguments and the record decide, and then what the
      hardware's answers leave open. */
  predicate WriteStatus(r: Region, draining: bool, offset: nat, source: nat, bytes: nat, status: Status) {
    if source == 0 || bytes == 0 || offset + bytes > r.bytes || source + bytes > UINTPTR_MAX then status == Invalid
    else if draining || r.state != RPublished then status == Unavailable
    else if r.references != 0 then status == Busy
    else status in {Busy, Quarantine, if Meets(r.cpu + offset, bytes, source, bytes) then Invalid else Ok}
  }

  /** A live, mapped record that the view describes exactly. */
  predicate Describes(owner: nat, v: RegionView, r: Region) {
    r.state != RFree && r.reserved && ViewOf(owner, r) == v
  }

  predicate Borrowed(owner: nat, v: RegionView, r: Region) {
    Describes(owner, v, r) && r.references != 0
  }

  /** The pin backend took the pin back and kept nothing. */
  predicate Unpinned(reply: Reply) {
    reply.status == Ok && reply.pin == NO_PIN
  }

  /** Whatever the pin backend hands out is owned. */
  function WithPin(r: Region, pin: Pin): Region {
    r.(pin := pin, pinOwned := pin != NO_PIN)
  }

  /** The manager publishes the region's own backing. */
  predicate MappedAs(slots: seq<Slot>, r: Region) {
    r.ggtt.slot < |slots| && slots[r.ggtt.slot].state == Published && slots[r.ggtt.slot].backing == r.backing
  }

  /** The region's pages cover its bytes, and each address of the region leads to its own DMA page, present,
      under PAT entry 3. */
  predicate Translates(pte: map<nat, Entry>, r: Region) {
    |r.pin.pages| * PAGE == r.bytes &&
    forall k | 0 <= k < |r.pin.pages| ::
      DecodeGgtt(At(pte, r.address + k * PAGE).value) == (r.pin.pages[k], 3, true)
  }

  /** A region whose mapping is published is reached at its recorded address. */
  lemma MappedTranslates(regions: seq<Region>, slots: seq<Slot>, owner: nat, i: nat, pte: map<nat, Entry>,
                         refs: set<(nat, nat)>)
    requires Link(regions, slots, owner) && Inv(slots, pte, refs) && i < |regions| && regions[i].reserved
    requires MappedAs(slots, regions[i])
    ensures Translates(pte, regions[i])
  {
    hide Inv, EncodeGgtt, DecodeGgtt, Exclusive;
    var r, s := regions[i], slots[regions[i].ggtt.slot];
    PairedFacts(regions, slots, owner, i);
    PublishedFacts(slots, pte, refs, r.ggtt.slot);
    forall k | 0 <= k < |r.pin.pages|
      ensures DecodeGgtt(At(pte, r.address + k * PAGE).value) == (r.pin.pages[k], 3, true)
    {
      assert s.range.At(k) == r.address + k * PAGE;
      GgttRoundTrip(r.pin.pages[k], 3);
    }
  }

  datatype OwnerCall =
    | DoInitialize(owner: nat, e: nat, ranges: seq<Range>)
    | DoAllocate(caller: nat, e: nat, bytes: nat)
    | DoRetire(h: RegionHandle)
    | DoWrite(h: RegionHandle, offset: nat, source: nat, bytes: nat)
    | DoDescribe(h: RegionHandle)
    | DoRetainRegion(v: RegionView)
    | DoReleaseRegion(v: RegionView)
    | DoSynchronizeRegion(v: RegionView)
    | DoPublishedRegion(v: RegionView, e: nat)
    | DoClose

  ghost function Live(regions: seq<Region>): set<nat> {
    set i: nat | i < |regions| && regions[i].state != RFree
  }

  lemma {:induction false} LiveBound(regions: seq<Region>)
    ensures |Live(regions)| <= |regions|
  {
    if regions != [] {
      var n := |regions| - 1;
      LiveBound(regions[..n]);
      assert Live(regions) <= Live(regions[..n]) + {n} by {
        forall i | i in Live(regions) && i != n ensures i in Live(regions[..n]) {
          assert regions[..n][i] == regions[i];
        }
      }
      SubsetCard(Live(regions), Live(regions[..n]) + {n});
    }
  }

  lemma LiveShrinks(regions: seq<Region>, i: nat)
    requires i < |regions| && regions[i].state != RFree
    ensures |Live(regions[i := NO_REGION])| < |Live(regions)|
  {
    assert Live(regions[i := NO_REGION]) == Live(regions) - {i};
  }

  lemma NoneLive(regions: seq<Region>)
    ensures |Live(regions)| == 0 ==> forall i | 0 <= i < |regions| :: regions[i].state == RFree
  {
    if |Live(regions)| == 0 {
      forall i: nat | i < |regions| ensures regions[i].state == RFree { assert i !in Live(regions); }
    }
  }

  predicate Openable(ranges: seq<Range>) {
    && 0 < |ranges| <= MAX_RANGES
    && (forall i | 0 <= i < |ranges| :: RangeUsable(ranges[i]))
    && (forall i, j | 0 <= j < i < |ranges| :: !Overlap(ranges[i], ranges[j]))
  }

  /** The owner's own test of the ranges is the stricter one, but for overlaps. */
  lemma OpenableGrants(ranges: seq<Range>)
    ensures Openable(ranges) <==>
              ranges != [] && |ranges| <= MAX_RANGES && GrantsOk(ranges) &&
              !(exists i | 0 <= i < |ranges| :: !RangeUsable(ranges[i]))
  {
  }

  predicate RangeUsable(r: Range) {
    r.address >= 4 * 1024 * 1024 && r.bytes > 0 && r.address % PAGE == 0 && r.bytes % PAGE == 0 &&
    r.End() <= 0xFEE0_0000
  }

  datatype RegionHandle = RegionHandle(slot: nat, owner: nat, epoch: nat, generation: nat)

  const NO_HANDLE: RegionHandle := RegionHandle(U64 - 1, 0, 0, 0)

  /** Publication keeps hold and mapping in step, or removes both. */
  lemma PublishKeepsLink(regions: seq<Region>, slots: seq<Slot>, owner: nat, i: nat, slots': seq<Slot>,
                         regions': seq<Region>, status: Status)
    requires Link(regions, slots, owner) && i < |regions| && regions[i].reserved && regions[i].references == 0
    requires SlotOnly(slots, slots', regions[i].ggtt.slot)
    requires slots[regions[i].ggtt.slot].state == Reserved && !slots[regions[i].ggtt.slot].held
    requires PublishEffect(slots[regions[i].ggtt.slot], slots'[regions[i].ggtt.slot], regions[i].backing, regions,
                           regions', status)
    ensures slots'[regions[i].ggtt.slot].state == Free ==>
              regions' == regions && !regions[i].held && status in {Io, Invalid} &&
              Link(regions[i := regions[i].(reserved := false)], slots', owner)
    ensures slots'[regions[i].ggtt.slot].state != Free ==>
              Link(regions', slots', owner) &&
              (regions' == regions || regions' == regions[i := regions[i].(held := true)])
    ensures slots'[regions[i].ggtt.slot].state != Free ==>
              slots'[regions[i].ggtt.slot].generation == regions[i].ggtt.generation &&
              slots'[regions[i].ggtt.slot].owner == owner
    ensures status == Ok ==>
              regions' == regions[i := regions[i].(held := true)] && slots'[regions[i].ggtt.slot].state != Free
    ensures Charge(regions') == Charge(regions) == Charge(regions[i := regions[i].(reserved := false)])
  {
    hide Charge, Separated, WithHeld, Record;
    var n := regions[i].ggtt.slot;
    assert RegionOk(regions[i]) && Paired(regions[i], slots, owner);
    FindOwn(regions, slots, owner, i);
    HeldAt(regions, regions[i].backing, i);
    ChargeUpdate(regions, i, regions[i].(held := true));
    ChargeUpdate(regions, i, regions[i].(reserved := false));
    if slots'[n].state == Free {
      MappingGone(regions, slots, owner, i, regions[i].(reserved := false, held := false));
    } else if slots'[n].held {
      BothChange(regions, slots, owner, i, regions[i].(held := true), slots'[n]);
    } else {
      assert slots' == slots;
    }
  }

  /** Before the manager starts no mapping exists, so nobody's ownership is in question. */
  lemma LinkOwner(regions: seq<Region>, slots: seq<Slot>, owner: nat, owner': nat)
    requires Link(regions, slots, owner) && forall i | 0 <= i < |slots| :: slots[i].state == Free
    ensures Link(regions, slots, owner')
  {
    forall i | 0 <= i < |regions| ensures Paired(regions[i], slots, owner') { assert Paired(regions[i], slots, owner); }
  }

  lemma PairedFacts(regions: seq<Region>, slots: seq<Slot>, owner: nat, i: nat)
    requires Link(regions, slots, owner) && i < |regions|
    ensures |regions| == MAX_REGIONS && RegionOk(regions[i]) && Paired(regions[i], slots, owner)
  {
  }

  lemma OneHeard(tape: nat -> Reply, at: nat)
    requires Said(tape, at).yes
    ensures Heard(tape, at, at + 1, 1)
  {
    hide Said;
  }

  lemma SerialsFreed(regions: seq<Region>, serial: nat, ggttSerial: nat, i: nat)
    requires Serials(regions, serial, ggttSerial) && i < |regions|
    ensures Serials(regions[i := NO_REGION], serial, ggttSerial)
  {
  }

  lemma HeldAt(regions: seq<Region>, b: Backing, i: nat)
    requires i < |regions| && FindBacking(regions, b) == i
    ensures forall held :: WithHeld(regions, b, held) == regions[i := regions[i].(held := held)]
  {
  }

  lemma {:induction false} EmptyCharge(n: nat)
    ensures Charge(seq(n, _ => NO_REGION)) == 0
  {
    if n > 0 {
      EmptyCharge(n - 1);
      assert seq(n, _ => NO_REGION)[..n - 1] == seq(n - 1, _ => NO_REGION);
    }
  }
}
