/**
 The side of XeGuCRegions::Owner that the GGTT manager reaches through its callback table,
 over hardware that is truthful when it reports success and may have done either when it
 reports failure. The cached translations may drop entries, or refill from any nonzero
 entry of the table, at every call.
 */
module GgttBackend {
  import opened Arithmetic
  import opened PteFormat
  import opened GgttModel

  const MAX_REGIONS: nat := 8
  const MAX_BYTES: nat := 64 * 1024 * 1024
  const UINTPTR_MAX: nat := U64 - 1

  datatype RegionState = RFree | RPinning | RReserved | RPublished | RQuarantined

  /** `list` is where the DMA page list lives; the list itself is immutable until unpin. */
  datatype Pin = Pin(cookie: nat, list: nat, pages: seq<nat>)

  const NO_PIN: Pin := Pin(0, 0, [])

  datatype Region = Region(state: RegionState, generation: nat, bytes: nat, pin: Pin, backing: Backing, ggtt: Handle,
                           cpu: nat, address: nat, references: nat, held: bool, pinOwned: bool, reserved: bool,
                             uncertain: bool)

  const NO_REGION: Region := Region(RFree, 0, 0, NO_PIN, NO_BACKING, Handle(0, 0), 0, 0, 0, false, false, false, false)

  predicate Matches(r: Region, b: Backing) {
    r.state != RFree && r.pinOwned && r.backing == b
  }

  /** The first region whose pinned backing is `b`, or the table size. */
  function FindBacking(regions: seq<Region>, b: Backing): (i: nat)
    ensures i <= |regions|
    ensures i < |regions| ==> Matches(regions[i], b)
    ensures forall j | 0 <= j < i :: !Matches(regions[j], b)
    decreases |regions|
  {
    if regions == [] then 0
    else if Matches(regions[0], b) then 0
    else 1 + FindBacking(regions[1..], b)
  }

  function WithHeld(regions: seq<Region>, b: Backing, held: bool): seq<Region> {
    var i := FindBacking(regions, b);
    if i < |regions| then regions[i := regions[i].(held := held)] else regions
  }

  function Record(regions: seq<Region>, b: Backing): Option<Region> {
    var i := FindBacking(regions, b);
    if i < |regions| then Some(regions[i]) else None
  }

  /** The structural half of Owner::canonical. */
  predicate Canonical(r: Region) {
    r.pinOwned && r.pin.cookie != 0 && r.pin.list != 0 && 0 < r.bytes <= MAX_BYTES && r.bytes % PAGE == 0 &&
    |r.pin.pages| == r.bytes / PAGE && |r.pin.pages| <= MAX_PAGES &&
    r.pin.list % 8 == 0 && r.pin.list + |r.pin.pages| * 8 <= UINTPTR_MAX
  }

  /** Every (address, writer) that a translation can still be made from. */
  ghost function RefsOf(pte: map<nat, Entry>, tlb: set<(nat, Entry)>): set<(nat, nat)> {
    (set a | a in pte && pte[a].value != 0 :: (a, pte[a].src)) + (set t | t in tlb :: (t.0, t.1.src))
  }

  /** An answer of the hardware or the pin backend: yes or no, the CPU view that goes with a yes, whether a write that
      failed landed all the same, and how pinning or unpinning ended and what pin that left. */
  datatype Reply = Reply(yes: bool, cpu: nat, landed: bool, status: Status, pin: Pin)

  function Said(tape: nat -> Reply, k: nat): Reply {
    tape(k)
  }

  /** Every answer from `first` up to `last` is yes. */
  ghost predicate Yes(tape: nat -> Reply, first: nat, last: nat) {
    forall k | first <= k < last :: Said(tape, k).yes
  }

  /** Every CPU view given from `first` up to `last` is this one. */
  ghost predicate Views(tape: nat -> Reply, first: nat, last: nat, cpu: nat) {
    forall k | first <= k < last :: Said(tape, k).cpu == cpu
  }

  /** Exactly `n` questions were asked, and every answer was yes. */
  ghost predicate Heard(tape: nat -> Reply, first: nat, last: nat, n: nat) {
    last == first + n && Yes(tape, first, last)
  }

  lemma HeardMore(tape: nat -> Reply, first: nat, middle: nat, last: nat, n: nat, m: nat)
    requires Heard(tape, first, middle, n) && Heard(tape, middle, last, m)
    ensures Heard(tape, first, last, n + m)
  {
    hide Said;
  }

  lemma YesSplit(tape: nat -> Reply, first: nat, middle: nat, last: nat)
    requires first <= middle <= last
    ensures Yes(tape, first, last) <==> Yes(tape, first, middle) && Yes(tape, middle, last)
  {
    hide Said;
  }

  /** A page-aligned CPU view of the region's bytes, the one it already has if it has one. */
  predicate CpuFits(r: Region, cpu: nat) {
    cpu != 0 && cpu % PAGE == 0 && cpu + r.bytes <= UINTPTR_MAX && (r.cpu == 0 || r.cpu == cpu)
  }

  /** The backing is a region's own, held or not as said, pinned and with the CPU view `cpu`. */
  predicate Resolvable(regions: seq<Region>, b: Backing, held: bool, cpu: nat) {
    var r := Record(regions, b);
    r.Some? && r.value.held == held && Canonical(r.value) && CpuFits(r.value, cpu)
  }

  /** Every answer from `first` up to `last` is yes, and every CPU view is one that fits the backing's region. */
  ghost predicate Agrees(tape: nat -> Reply, first: nat, last: nat, regions: seq<Region>, b: Backing, held: bool) {
    Yes(tape, first, last) && exists cpu :: Views(tape, first, last, cpu) && Resolvable(regions, b, held, cpu)
  }

  /** What agrees throughout agrees in between. */
  lemma AgreesWithin(tape: nat -> Reply, first: nat, a: nat, b: nat, last: nat, regions: seq<Region>, backing: Backing,
                     held: bool)
    requires first <= a <= b <= last && Agrees(tape, first, last, regions, backing, held)
    ensures Agrees(tape, a, b, regions, backing, held) && Yes(tape, a, b)
  {
    hide Said, Resolvable;
    var cpu :| Views(tape, first, last, cpu) && Resolvable(regions, backing, held, cpu);
    assert Views(tape, a, b, cpu);
  }

  lemma HeldRecord(regions: seq<Region>, b: Backing)
    requires Record(regions, b).Some?
    ensures Record(WithHeld(regions, b, true), b) == Some(Record(regions, b).value.(held := true))
  {
    var i, held := FindBacking(regions, b), WithHeld(regions, b, true);
    var j := FindBacking(held, b);
    assert Matches(held[i], b);
    assert forall k | 0 <= k < i :: !Matches(held[k], b);
  }

  /** Taking the hold changes nothing else that an answer depends on. */
  lemma AgreesHeld(tape: nat -> Reply, first: nat, last: nat, regions: seq<Region>, b: Backing)
    requires Agrees(tape, first, last, regions, b, false)
    ensures Agrees(tape, first, last, WithHeld(regions, b, true), b, true)
  {
    hide Said, Yes, Views;
    var cpu :| Views(tape, first, last, cpu) && Resolvable(regions, b, false, cpu);
    HeldRecord(regions, b);
    assert Resolvable(WithHeld(regions, b, true), b, true, cpu);
  }

  class Backend {
    var owner: nat
    var epoch: nat
    var open: bool
    var regions: seq<Region>
    var pte: map<nat, Entry>
    ghost var tlb: set<(nat, Entry)>
    /** What is answered, question by question, and the next question. The tape may be any. */
    const tape: nat -> Reply
    var asked: nat
    /** Set once a write replaces a nonzero entry that another writer put there. */
    ghost var clobbered: bool
    /** Set once a backing is released while an entry made for it can still translate. */
    ghost var unsafeRelease: bool

    ghost function Refs(): set<(nat, nat)>
      reads this`pte, this`tlb
    {
      RefsOf(pte, tlb)
    }

    /** Hardware that has only been written by others; nobody owns it yet. */
    constructor (pte: map<nat, Entry>, tape: nat -> Reply)
      requires forall a <- pte.Keys :: pte[a].src == 0
      ensures owner == 0 && epoch == 0 && !open && this.pte == pte && this.tape == tape
      ensures regions == seq(MAX_REGIONS, _ => NO_REGION)
      ensures !clobbered && !unsafeRelease && forall r <- Refs() :: r.1 == 0
    {
      this.owner, this.epoch, this.open, this.pte, this.tape, asked := 0, 0, false, pte, tape, 0;
      regions := seq(MAX_REGIONS, _ => NO_REGION);
      tlb, clobbered, unsafeRelease := {}, false, false;
    }

    /** Evictions and refills. */
    method Churn()
      modifies this`tlb
      ensures Refs() <= old(Refs())
    {
      ghost var fill := set a | a in pte && pte[a].value != 0 :: (a, pte[a]);
      ghost var next :| next <= tlb + fill;
      tlb := next;
      forall t | t in next ensures (t.0, t.1.src) in old(Refs()) {
        if t in fill { assert t.0 in pte && pte[t.0].value != 0 && t.1 == pte[t.0]; }
      }
    }

    /** Any yes/no question to the hardware. */
    method Ask() returns (ok: bool)
      modifies this`tlb, this`asked
      ensures Refs() <= old(Refs()) && asked == old(asked) + 1
      ensures ok <==> Said(tape, old(asked)).yes
    {
      hide Said;
      Churn();
      ok := Said(tape, asked).yes;
      asked := asked + 1;
    }

    method Admitted(e: nat) returns (ok: bool)
      modifies this`tlb, this`asked
      ensures ok <==> Said(tape, old(asked)).yes && open && e == epoch
      ensures Refs() <= old(Refs()) && asked == old(asked) + 1
    {
      hide Said;
      var yes := Ask();
      ok := yes && open && e == epoch;
    }

    method Quiet() returns (ok: bool)
      modifies this`tlb, this`asked
      ensures ok <==> Said(tape, old(asked)).yes && open
      ensures Refs() <= old(Refs()) && asked == old(asked) + 1
    {
      hide Said;
      var yes := Ask();
      ok := yes && open;
    }

    /** The pin backend resolves the CPU view; a region that already has one must get it again. */
    method ResolveCpu(r: Region) returns (ok: bool, cpu: nat)
      modifies this`tlb, this`asked
      ensures ok <==> Canonical(r) && Said(tape, old(asked)).yes && CpuFits(r, Said(tape, old(asked)).cpu)
      ensures ok ==> cpu == Said(tape, old(asked)).cpu
      ensures Refs() <= old(Refs()) && asked == old(asked) + if Canonical(r) then 1 else 0
    {
      hide Said;
      cpu := 0;
      if !Canonical(r) { return false, 0; }
      cpu := Said(tape, asked).cpu;
      ok := Ask();
      ok := ok && CpuFits(r, cpu);
    }

    method RetainBacking(caller: nat, e: nat, b: Backing) returns (ok: bool)
      modifies this`tlb, this`asked, this`regions
      ensures Refs() <= old(Refs()) && old(asked) <= asked
      ensures ok ==> caller == owner && e == epoch && open && Heard(tape, old(asked), asked, 2)
      ensures ok ==> var r := Record(old(regions), b); r.Some? && !r.value.held && Canonical(r.value)
      ensures regions == if ok then WithHeld(old(regions), b, true) else old(regions)
      ensures caller == owner && e == epoch && open && Agrees(tape, old(asked), asked, old(regions), b, false) ==> ok
    {
      hide Said, CpuFits, Canonical;
      var i := FindBacking(regions, b);
      if caller != owner || e != epoch || i == |regions| || regions[i].held { return false; }
      ok := Admitted(epoch);
      if !ok { return; }
      var cpu;
      ok, cpu := ResolveCpu(regions[i]);
      if ok { regions := regions[i := regions[i].(held := true)]; }
    }

    method OwnsBacking(caller: nat, e: nat, b: Backing) returns (ok: bool)
      modifies this`tlb, this`asked
      ensures Refs() <= old(Refs()) && old(asked) <= asked
      ensures ok ==> caller == owner && e == epoch && open && Heard(tape, old(asked), asked, 2)
      ensures ok ==> var r := Record(regions, b); r.Some? && r.value.held && Canonical(r.value)
      ensures caller == owner && e == epoch && open && Agrees(tape, old(asked), asked, regions, b, true) ==> ok
    {
      hide Said, CpuFits, Canonical;
      var i := FindBacking(regions, b);
      if caller != owner || e != epoch || i == |regions| || !regions[i].held { return false; }
      ok := Admitted(epoch);
      if !ok { return; }
      var cpu;
      ok, cpu := ResolveCpu(regions[i]);
    }

    /** `writer` names the mapping whose hold ends. */
    method ReleaseBacking(caller: nat, e: nat, b: Backing, ghost writer: nat) returns (ok: bool)
      modifies this`tlb, this`asked, this`regions, this`unsafeRelease
      ensures Refs() <= old(Refs()) && old(asked) <= asked
      ensures ok ==> caller == owner && e == epoch && open && Heard(tape, old(asked), asked, 1)
      ensures ok ==> var r := Record(old(regions), b); r.Some? && r.value.held && r.value.references == 0
      ensures regions == if ok then WithHeld(old(regions), b, false) else old(regions)
      ensures unsafeRelease ==> old(unsafeRelease) || exists r :: r in old(Refs()) && r.1 == writer
    {
      var i := FindBacking(regions, b);
      if caller != owner || e != epoch || i == |regions| || !regions[i].held || regions[i].references != 0 {
        return false;
      }
      ok := Quiet();
      if ok {
        regions := regions[i := regions[i].(held := false)];
        unsafeRelease := unsafeRelease || exists r :: r in Refs() && r.1 == writer;
      }
    }

    method PatReady(e: nat, pat: nat) returns (ok: bool)
      modifies this`tlb, this`asked
      ensures Refs() <= old(Refs()) && asked == old(asked) + 1
      ensures ok <==> Said(tape, old(asked)).yes && open && e == epoch && pat == 3
    {
      hide Said;
      var yes := Admitted(e);
      ok := yes && pat == 3;
    }

    method ReadPte(e: nat, a: nat) returns (ok: bool, value: nat)
      modifies this`tlb, this`asked
      ensures Refs() <= old(Refs()) && asked == old(asked) + 1
      ensures ok <==> Said(tape, old(asked)).yes && open && e == epoch
      ensures ok ==> value == At(pte, a).value
    {
      hide Said;
      ok := Admitted(e);
      value := 0;
      if ok { value := At(pte, a).value; }
    }

    /** A write that reports failure may still have taken effect. */
    method WritePte(e: nat, a: nat, value: nat, writer: nat) returns (ok: bool)
      modifies this`tlb, this`asked, this`pte, this`clobbered
      ensures old(asked) <= asked && (Yes(tape, old(asked), asked) && open && e == epoch ==> ok)
      ensures ok ==> pte == old(pte)[a := Entry(value, writer)] && Heard(tape, old(asked), asked, 2)
      ensures pte == old(pte) || pte == old(pte)[a := Entry(value, writer)]
      ensures forall r <- Refs() :: r in old(Refs()) || (value != 0 && r == (a, writer))
      ensures clobbered ==> old(clobbered) || (At(old(pte), a).value != 0 && At(old(pte), a).src != writer)
    {
      hide Said;
      ok := Admitted(e);
      if !ok { return; }
      var landed := Said(tape, asked).landed;
      ok := Said(tape, asked).yes;
      asked := asked + 1;
      if ok || landed {
        clobbered := clobbered || (At(pte, a).value != 0 && At(pte, a).src != writer);
        pte := pte[a := Entry(value, writer)];
        forall r | r in Refs()
          ensures r in old(Refs()) || (value != 0 && r == (a, writer))
        {
          if r.0 in pte && pte[r.0].value != 0 && r.1 == pte[r.0].src && r.0 != a {
            assert r.0 in old(pte) && old(pte)[r.0].value != 0;
          }
        }
      }
      Churn();
    }

    /** Success empties the caches; entries still in the table may come straight back. */
    method Invalidate(e: nat) returns (ok: bool)
      modifies this`tlb, this`asked
      ensures Refs() <= old(Refs()) && old(asked) <= asked
      ensures Yes(tape, old(asked), asked) && open && e == epoch ==> ok
      ensures ok ==> Refs() == RefsOf(pte, {}) && Heard(tape, old(asked), asked, 2)
    {
      hide Said;
      ok := Admitted(e);
      if !ok { return; }
      ok := Said(tape, asked).yes;
      asked := asked + 1;
      if ok { tlb := {}; }
      Churn();
    }

    method Retired(caller: nat, e: nat) returns (ok: bool)
      modifies this`tlb, this`asked
      ensures Refs() <= old(Refs()) && asked == old(asked) + 1
      ensures ok <==> Said(tape, old(asked)).yes && open && caller == owner && e == epoch
    {
      hide Said;
      var yes := Quiet();
      ok := yes && caller == owner && e == epoch;
    }
  }
}
