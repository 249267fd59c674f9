/**
 XeGgtt::Manager: reservation, publication and teardown of global GTT mappings over
 hardware that can fail at any call.
 */
module Ggtt {
  import opened Arithmetic
  import opened PteFormat
  import opened GgttModel
  import opened GgttSearch
  import opened GgttBackend

  predicate GrantsOk(grants: seq<Range>) {
    && |grants| <= MAX_RANGES
    && (forall i | 0 <= i < |grants| :: ValidRange(grants[i]))
    && (forall i, j | 0 <= j < i < |grants| :: !Overlap(grants[i], grants[j]))
  }

  predicate Inside(r: Range, grants: seq<Range>) {
    exists g | 0 <= g < |grants| :: grants[g].address <= r.address && r.End() <= grants[g].End()
  }

  /** Live mappings lie inside grants. */
  predicate Granted(slots: seq<Slot>, grants: seq<Range>) {
    forall i | 0 <= i < |slots| && slots[i].state != Free :: Inside(slots[i].range, grants)
  }

  /** Generations are never reused: the counter is above all of them, or spent. */
  predicate SerialOk(slots: seq<Slot>, serial: nat) {
    serial < U64 &&
    (serial != 0 ==> forall i | 0 <= i < |slots| && slots[i].state != Free :: slots[i].generation < serial)
  }

  predicate FreeSlot(slots: seq<Slot>) {
    exists i | 0 <= i < |slots| :: slots[i].state == Free
  }

  /** The result of a lookup by handle. */
  function GetStatus(started: bool, closed: bool, own: nat, slots: seq<Slot>, owner: nat, epoch: nat, h: Handle)
    : (r: Status)
    requires |slots| == MAX_MAPPINGS
    ensures r == Ok ==> owner != 0 && epoch == own && h.slot < MAX_MAPPINGS && slots[h.slot].owner == owner
    ensures r == Ok ==> slots[h.slot].generation == h.generation != 0
  {
    if !started || closed then Unavailable
    else if epoch != own then WrongEpoch
    else if h.slot >= MAX_MAPPINGS || h.generation == 0 then NotFound
    else if slots[h.slot].state == Free || slots[h.slot].generation != h.generation then NotFound
    else if owner == 0 || slots[h.slot].owner != owner then WrongOwner
    else Ok
  }

  class Manager {
    const io: Backend
    var slots: seq<Slot>
    var grants: seq<Range>
    var epoch: nat
    var serial: nat
    var started: bool
    var closed: bool

    ghost predicate Valid()
      reads this, io`pte, io`tlb, io`clobbered, io`unsafeRelease
    {
      && Inv(slots, io.pte, io.Refs())
      && !io.clobbered && !io.unsafeRelease
      && SerialOk(slots, serial) && GrantsOk(grants) && Granted(slots, grants)
      && (!started ==> forall i | 0 <= i < |slots| :: slots[i].state == Free)
    }

    /** The manager is open, and so is the hardware, in the same epoch. */
    predicate Calm()
      reads this`started, this`closed, this`epoch, io`open, io`epoch
    {
      started && !closed && io.open && epoch == io.epoch
    }

    constructor (io: Backend)
      requires !io.clobbered && !io.unsafeRelease && forall r <- io.Refs() :: r.1 == 0
      ensures this.io == io && Valid() && !started && !closed && slots == seq(MAX_MAPPINGS, _ => EMPTY)
    {
      this.io := io;
      slots, grants, epoch, serial, started, closed := seq(MAX_MAPPINGS, _ => EMPTY), [], 0, 1, false, false;
    }

    method Initialize(e: nat, ranges: seq<Range>) returns (status: Status)
      requires Valid()
      modifies this, io`tlb, io`asked
      ensures Valid() && slots == old(slots) && serial == old(serial) && closed == old(closed)
      ensures old(started) ==> status == Busy
      ensures status == Invalid <==> !old(started) && (e == 0 || ranges == [] || !GrantsOk(ranges))
      ensures status == Ok ==> started && grants == ranges && epoch == e
      ensures status != Ok ==> started == old(started) && grants == old(grants)
    {
      hide Inv, EncodeGgtt;
      if started { return Busy; }
      if e == 0 || ranges == [] || |ranges| > MAX_RANGES { return Invalid; }
      for i := 0 to |ranges|
        invariant forall a | 0 <= a < i :: ValidRange(ranges[a])
        invariant forall a, b | 0 <= b < a < i :: !Overlap(ranges[a], ranges[b])
      {
        if !ValidRange(ranges[i]) { return Invalid; }
        for j := 0 to i
          invariant forall b | 0 <= b < j :: !Overlap(ranges[i], ranges[b])
        {
          if Overlap(ranges[i], ranges[j]) { return Invalid; }
        }
      }
      var admitted := io.Admitted(e);
      FewerRefs(slots, io.pte, old(io.Refs()), io.Refs());
      if !admitted { return Unavailable; }
      ghost var refs := io.Refs();
      var acquired := io.Ask();
      FewerRefs(slots, io.pte, refs, io.Refs());
      if !acquired { return Unavailable; }
      grants, epoch, started := ranges, e, true;
      return Ok;
    }

    lemma Unstarted()
      requires Valid() && !started
      ensures forall i | 0 <= i < |slots| :: slots[i].state == Free
    {
    }

    // ---------------------------------------------------------------- questions

    method Live() returns (ok: bool)
      requires Valid()
      modifies io`tlb, io`asked
      ensures Valid() && io.asked == old(io.asked) + if started && !closed then 1 else 0
      ensures ok <==> Calm() && Said(io.tape, old(io.asked)).yes
      ensures ok ==> Heard(io.tape, old(io.asked), io.asked, 1)
      ensures Calm() && Yes(io.tape, old(io.asked), io.asked) ==> ok
    {
      hide Inv, Said;
      if !started || closed { return false; }
      ok := io.Admitted(epoch);
      FewerRefs(slots, io.pte, old(io.Refs()), io.Refs());
    }

    method Read(a: nat) returns (ok: bool, value: nat)
      requires Valid()
      modifies io`tlb, io`asked
      ensures Valid() && old(io.asked) <= io.asked
      ensures ok ==> value == At(io.pte, a).value && Heard(io.tape, old(io.asked), io.asked, 2)
      ensures Calm() && Yes(io.tape, old(io.asked), io.asked) ==> ok
    {
      hide Inv, Said;
      value := 0;
      ok := Live();
      if ok {
        ghost var refs := io.Refs();
        ok, value := io.ReadPte(epoch, a);
        FewerRefs(slots, io.pte, refs, io.Refs());
      }
    }

    method Owns(i: nat) returns (ok: bool)
      requires Valid() && i < |slots|
      modifies io`tlb, io`asked
      ensures Valid() && old(io.asked) <= io.asked
      ensures ok ==> Heard(io.tape, old(io.asked), io.asked, 2)
      ensures !ok && Calm() && slots[i].owner == io.owner ==>
                !Agrees(io.tape, old(io.asked), io.asked, io.regions, slots[i].backing, true)
    {
      hide Inv, Agrees, Heard;
      ok := io.OwnsBacking(slots[i].owner, epoch, slots[i].backing);
      FewerRefs(slots, io.pte, old(io.Refs()), io.Refs());
    }

    method Quiesced(i: nat) returns (ok: bool)
      requires Valid() && i < |slots|
      modifies io`tlb, io`asked
      ensures Valid() && old(io.asked) <= io.asked
      ensures ok ==> Heard(io.tape, old(io.asked), io.asked, 1)
    {
      hide Inv, Said;
      ok := io.Retired(slots[i].owner, epoch);
      FewerRefs(slots, io.pte, old(io.Refs()), io.Refs());
    }

    method PatReady(pat: nat) returns (ok: bool)
      requires Valid()
      modifies io`tlb, io`asked
      ensures Valid() && old(io.asked) <= io.asked
      ensures ok ==> pat == 3 && Heard(io.tape, old(io.asked), io.asked, 1)
      ensures Calm() && pat == 3 && Yes(io.tape, old(io.asked), io.asked) ==> ok
    {
      hide Inv, Said;
      ok := io.PatReady(epoch, pat);
      FewerRefs(slots, io.pte, old(io.Refs()), io.Refs());
    }

    /** Reads every page back and compares it with what the mapping wants, or, while
        clearing, accepts zeros as well. */
    method Verify(i: nat, clearing: bool) returns (ok: bool)
      requires Valid() && i < |slots| && |slots[i].backing.pages| == slots[i].range.Pages()
      modifies io`tlb, io`asked
      ensures Valid()
      ensures ok ==> forall k | 0 <= k < |slots[i].backing.pages| :: Expected(slots[i], k).Some? &&
                       (At(io.pte, slots[i].range.At(k)).value == Expected(slots[i], k).value ||
                        (clearing && At(io.pte, slots[i].range.At(k)).value == 0))
      ensures old(io.asked) <= io.asked
      ensures ok ==> Heard(io.tape, old(io.asked), io.asked, 2 * |slots[i].backing.pages|)
      ensures !ok && Calm() && WrittenUpTo(slots[i], io.pte, |slots[i].backing.pages|) ==>
                !Yes(io.tape, old(io.asked), io.asked)
    {
      hide Inv, EncodeGgtt, Valid, Yes;
      var s := slots[i];
      assert Heard(io.tape, io.asked, io.asked, 0) by { NothingHeard(io.tape, io.asked); }
      for k := 0 to |s.backing.pages|
        invariant Valid() && old(io.asked) <= io.asked && Heard(io.tape, old(io.asked), io.asked, 2 * k)
        invariant forall n | 0 <= n < k :: Expected(s, n).Some? &&
                    (At(io.pte, s.range.At(n)).value == Expected(s, n).value ||
                     (clearing && At(io.pte, s.range.At(n)).value == 0))
      {
        var want := Expected(s, k);
        if want.None? { return false; }
        ghost var middle := io.asked;
        var read, actual := Read(s.range.At(k));
        YesSplit(io.tape, old(io.asked), middle, io.asked);
        if !read { return false; }
        if actual != want.value && !(clearing && actual == 0) { return false; }
        HeardMore(io.tape, old(io.asked), middle, io.asked, 2 * k, 2);
      }
      return true;
    }

    function Get(owner: nat, e: nat, h: Handle): Status
      requires |slots| == MAX_MAPPINGS
      reads this
    {
      GetStatus(started, closed, epoch, slots, owner, e, h)
    }

    // ---------------------------------------------------------------- reservation

    /** Takes the first free slot. Fails exactly when the serial is spent or no slot is free. */
    method Insert(owner: nat, r: Range) returns (status: Status, h: Handle)
      requires Valid() && started && ValidRange(r) && r.Pages() <= MAX_PAGES && Vacant(slots, r.address, r.bytes)
      requires Inside(r, grants)
      modifies this`slots, this`serial
      ensures Valid()
      ensures status == if serial == old(serial) then NoSpace else Ok
      ensures status == Ok <==> old(serial) != 0 && FreeSlot(old(slots))
      ensures status != Ok ==> slots == old(slots) && serial == old(serial)
      ensures status == Ok ==> h.slot < MAX_MAPPINGS && h.generation == old(serial) && old(slots)[h.slot].state == Free
      ensures status == Ok ==> forall j | 0 <= j < h.slot :: old(slots)[j].state != Free
      ensures status == Ok ==>
                slots == old(slots)[h.slot := EMPTY.(state := Reserved, owner := owner, generation := h.generation,
                                                     range := r)]
    {
      hide EncodeGgtt, Exclusive, Complete;
      h := Handle(0, 0);
      if serial == 0 { return NoSpace, h; }
      for i := 0 to MAX_MAPPINGS
        invariant forall j | 0 <= j < i :: slots[j].state != Free
      {
        if slots[i].state == Free {
          var s := EMPTY.(state := Reserved, owner := owner, generation := serial, range := r);
          forall j | 0 <= j < |slots| && slots[j].state != Free
            ensures !Overlap(s.range, slots[j].range) && s.generation != slots[j].generation
          {
            assert !Clashes(slots[j], r.address, r.bytes);
          }
          SlotReserve(slots, io.pte, io.Refs(), i, s);
          h := Handle(i, serial);
          slots := slots[i := s];
          serial := if serial + 1 == U64 then 0 else serial + 1;
          return Ok, h;
        }
      }
      return NoSpace, h;
    }

    /** A range fits when it is inside one grant and meets no live mapping. */
    method Fits(r: Range) returns (ok: bool)
      requires |slots| == MAX_MAPPINGS
      ensures ok <==> ValidRange(r) && r.Pages() <= MAX_PAGES && Inside(r, grants) && Vacant(slots, r.address, r.bytes)
    {
      if !ValidRange(r) || r.Pages() > MAX_PAGES { return false; }
      var contained := false;
      for i := 0 to |grants|
        invariant contained <==> exists g | 0 <= g < i :: grants[g].address <= r.address && r.End() <= grants[g].End()
      {
        if r.address >= grants[i].address && r.End() <= grants[i].End() { contained := true; }
      }
      if !contained { return false; }
      for i := 0 to |slots|
        invariant forall j | 0 <= j < i :: !Clashes(slots[j], r.address, r.bytes)
      {
        if slots[i].state != Free && Overlap(r, slots[i].range) {
          assert Clashes(slots[i], r.address, r.bytes);
          return false;
        }
      }
      return true;
    }

    method ReserveAt(owner: nat, e: nat, r: Range) returns (status: Status, h: Handle)
      requires Valid()
      modifies this`slots, this`serial, io`tlb, io`asked
      ensures Valid()
      ensures e != epoch <==> status == WrongEpoch
      ensures status in {Ok, WrongEpoch, Unavailable, Invalid, NoSpace}
      ensures status != Ok ==> slots == old(slots) && serial == old(serial)
      ensures status == Ok ==> started && !closed && io.open && epoch == io.epoch
      ensures status == Ok ==>
                Reservation(old(slots), old(serial), owner, r, h, slots) && Inside(r, grants) &&
                Vacant(old(slots), r.address, r.bytes)
      ensures status == NoSpace ==>
                !Inside(r, grants) || !Vacant(old(slots), r.address, r.bytes) || old(serial) == 0 ||
                !FreeSlot(old(slots))
      ensures status == Invalid <==>
                e == epoch && status != Unavailable && (owner == 0 || !ValidRange(r) || r.Pages() > MAX_PAGES)
    {
      hide Inv, EncodeGgtt;
      h := Handle(0, 0);
      if e != epoch { return WrongEpoch, h; }
      var live := Live();
      if !live { return Unavailable, h; }
      if owner == 0 || !ValidRange(r) || r.Pages() > MAX_PAGES { return Invalid, h; }
      SlotsSize(slots, io.pte, io.Refs());
      var fits := Fits(r);
      if !fits { return NoSpace, h; }
      status, h := Insert(owner, r);
    }

    /** Lowest fit in the first granted range that has one. NoSpace means that there is no
        placement in any range, or no slot, or no serial left: the retry bound of the search
        never loses a placement. */
    method Reserve(owner: nat, e: nat, bytes: nat, alignment: nat) returns (status: Status, h: Handle)
      requires Valid()
      modifies this`slots, this`serial, io`tlb, io`asked
      ensures Valid()
      ensures e != epoch ==> status == WrongEpoch
      ensures status != Ok ==> slots == old(slots) && serial == old(serial)
      ensures status == Invalid <==> e == epoch && status != Unavailable && !RequestOk(owner, bytes, alignment)
      ensures status == Ok ==> exists g, at: nat | 0 <= g < |grants| ::
                && Placement(old(slots), grants[g], at, bytes, alignment)
                && (forall x: nat | x < at :: !Placement(old(slots), grants[g], x, bytes, alignment))
                && (forall f, x: nat | 0 <= f < g :: !Placement(old(slots), grants[f], x, bytes, alignment))
                && Reservation(old(slots), old(serial), owner, Range(at, bytes), h, slots)
      ensures status == NoSpace && old(serial) != 0 && FreeSlot(old(slots)) ==>
                alignment > 0 && forall f, x: nat | 0 <= f < |grants| ::
                  !Placement(old(slots), grants[f], x, bytes, alignment)
      ensures status in {Ok, WrongEpoch, Unavailable, Invalid, NoSpace}
    {
      hide Inv, EncodeGgtt, Placement, PowerOfTwo;
      h := Handle(0, 0);
      if e != epoch { return WrongEpoch, h; }
      var live := Live();
      if !live { return Unavailable, h; }
      if !RequestOk(owner, bytes, alignment) { return Invalid, h; }
      SlotsSize(slots, io.pte, io.Refs());
      var found, g, at := Find(slots, grants, bytes, alignment);
      if !found { return NoSpace, h; }
      PlacementUsable(slots, grants, g, at, bytes, alignment);
      status, h := Insert(owner, Range(at, bytes));
    }

    // ---------------------------------------------------------------- writes

    /** One entry write under an active, not published mapping. */
    method Put(i: nat, k: nat, value: nat) returns (ok: bool)
      requires Valid() && i < |slots| && Active(slots[i]) && slots[i].state == Quarantined && k < slots[i].range.Pages()
      modifies io`tlb, io`asked, io`pte, io`clobbered
      ensures Valid()
      ensures ok ==> io.pte == old(io.pte)[slots[i].range.At(k) := Entry(value, slots[i].generation)]
      ensures io.pte == old(io.pte) || io.pte == old(io.pte)[slots[i].range.At(k) := Entry(value, slots[i].generation)]
      ensures old(io.asked) <= io.asked && (Calm() && Yes(io.tape, old(io.asked), io.asked) ==> ok)
      ensures ok ==> Heard(io.tape, old(io.asked), io.asked, 2)
    {
      hide EncodeGgtt, SlotOk, Complete, Yes, Heard;
      ghost var pte, refs := io.pte, io.Refs();
      ghost var e := Entry(value, slots[i].generation);
      assert Exclusive(slots[i], pte);
      assert At(pte, slots[i].range.At(k)).value == 0 || At(pte, slots[i].range.At(k)).src == slots[i].generation;
      ok := io.WritePte(epoch, slots[i].range.At(k), value, slots[i].generation);
      EntryChange(slots, pte, refs, i, k, e, io.Refs());
      if io.pte == pte {
        StillSafe(slots, pte, refs, i, k, io.Refs());
      }
    }

    /** Zeroes every page, reading each back. */
    method ClearAll(i: nat) returns (ok: bool)
      requires Valid() && i < |slots| && Active(slots[i]) && slots[i].state == Quarantined
      modifies io`tlb, io`asked, io`pte, io`clobbered
      ensures Valid() && old(io.asked) <= io.asked
      ensures ok ==> ZeroUpTo(slots[i].range, io.pte, slots[i].range.Pages())
      ensures ok ==> Heard(io.tape, old(io.asked), io.asked, 5 * slots[i].range.Pages())
    {
      hide Valid, ValidRange, Yes, Heard;
      var s := slots[i];
      NothingHeard(io.tape, io.asked);
      for k := 0 to s.range.Pages()
        invariant Valid() && ZeroUpTo(s.range, io.pte, k) && old(io.asked) <= io.asked
        invariant Heard(io.tape, old(io.asked), io.asked, 5 * k)
      {
        ghost var first := io.asked;
        var live := Live();
        if !live { return false; }
        ghost var pte, second := io.pte, io.asked;
        var wrote := Put(i, k, 0);
        if !wrote { return false; }
        ZeroGrows(s.range, pte, k, s.generation);
        ghost var third := io.asked;
        var read, actual := Read(s.range.At(k));
        if !read || actual != 0 { return false; }
        HeardMore(io.tape, old(io.asked), first, second, 5 * k, 1);
        HeardMore(io.tape, old(io.asked), second, third, 5 * k + 1, 2);
        HeardMore(io.tape, old(io.asked), third, io.asked, 5 * k + 3, 2);
      }
      return true;
    }

    /** Clear, invalidate, read back: afterwards nothing made for this mapping translates. */
    method Clean(i: nat) returns (ok: bool)
      requires Valid() && i < |slots| && Active(slots[i]) && slots[i].state == Quarantined && slots[i].users == 0
      modifies this`slots, io`tlb, io`asked, io`pte, io`clobbered
      ensures Valid() && |slots| == |old(slots)| && old(io.asked) <= io.asked
      ensures slots == if ok then old(slots)[i := old(slots)[i].(cleared := true)] else old(slots)
      ensures ok ==> Heard(io.tape, old(io.asked), io.asked, 6 + 9 * old(slots)[i].range.Pages())
    {
      hide Inv, EncodeGgtt, Yes, Heard, SerialOk, GrantsOk, Granted;
      ghost var first, n := io.asked, slots[i].range.Pages();
      ok := Erase(i);
      if !ok { return; }
      ghost var second := io.asked;
      ok := Flush(i);
      if !ok { return; }
      ghost var third := io.asked;
      ok := ReadBack(i);
      if !ok { return; }
      HeardMore(io.tape, first, second, third, 3 + 7 * n, 3);
      HeardMore(io.tape, first, third, io.asked, 6 + 7 * n, 2 * n);
      ClearedSlot(slots, io.pte, io.Refs(), i);
      BooksKept(slots, serial, grants, i, slots[i].(cleared := true));
      slots := slots[i := slots[i].(cleared := true)];
    }

    /** The mapping is still as it was made, nobody uses it, and every entry is zeroed. */
    method Erase(i: nat) returns (ok: bool)
      requires Valid() && i < |slots| && Active(slots[i]) && slots[i].state == Quarantined
      modifies io`tlb, io`asked, io`pte, io`clobbered
      ensures Valid() && old(io.asked) <= io.asked
      ensures ok ==> ZeroUpTo(slots[i].range, io.pte, slots[i].range.Pages())
      ensures ok ==> Heard(io.tape, old(io.asked), io.asked, 3 + 7 * slots[i].range.Pages())
    {
      hide Inv, EncodeGgtt, Yes, Heard, SerialOk, GrantsOk, Granted;
      ghost var first, n := io.asked, slots[i].range.Pages();
      HeldBacking(slots, io.pte, io.Refs(), i);
      ok := Owns(i);
      if !ok { return; }
      ghost var second := io.asked;
      ok := Quiesced(i);
      if !ok { return; }
      ghost var third := io.asked;
      ok := Verify(i, true);
      if !ok { return; }
      ghost var fourth := io.asked;
      ok := ClearAll(i);
      if !ok { return; }
      HeardMore(io.tape, first, second, third, 2, 1);
      HeardMore(io.tape, first, third, fourth, 3, 2 * n);
      HeardMore(io.tape, first, fourth, io.asked, 3 + 2 * n, 5 * n);
    }

    /** After the invalidation nothing made for the mapping translates. */
    method Flush(i: nat) returns (ok: bool)
      requires Valid() && i < |slots| && Active(slots[i]) && ZeroUpTo(slots[i].range, io.pte, slots[i].range.Pages())
      modifies io`tlb, io`asked
      ensures Valid() && old(io.asked) <= io.asked && (ok ==> forall r <- io.Refs() :: r.1 != slots[i].generation)
      ensures ok ==> Heard(io.tape, old(io.asked), io.asked, 3)
    {
      hide Inv, EncodeGgtt, Yes, Heard, SerialOk, GrantsOk, Granted;
      ok := Live();
      if !ok { return; }
      ghost var first, refs := io.asked, io.Refs();
      ok := io.Invalidate(epoch);
      FewerRefs(slots, io.pte, refs, io.Refs());
      if !ok { return; }
      HeardMore(io.tape, old(io.asked), first, io.asked, 1, 2);
      NothingLeft(slots, io.pte, io.Refs(), i);
    }

    /** The readback after the invalidation. */
    method ReadBack(i: nat) returns (ok: bool)
      requires Valid() && i < |slots| && forall r <- io.Refs() :: r.1 != slots[i].generation
      modifies io`tlb, io`asked
      ensures Valid() && old(io.asked) <= io.asked && forall r <- io.Refs() :: r.1 != slots[i].generation
      ensures ok ==> Heard(io.tape, old(io.asked), io.asked, 2 * slots[i].range.Pages())
    {
      hide Inv, Said;
      var s := slots[i];
      for k := 0 to s.range.Pages()
        invariant Valid() && old(io.asked) <= io.asked && forall r <- io.Refs() :: r.1 != s.generation
        invariant Heard(io.tape, old(io.asked), io.asked, 2 * k)
      {
        var live := started && !closed;
        if !live { return false; }
        ghost var refs := io.Refs();
        var admitted := io.Admitted(epoch);
        FewerRefs(slots, io.pte, refs, io.Refs());
        if !admitted { return false; }
        refs := io.Refs();
        var read, actual := io.ReadPte(epoch, s.range.At(k));
        FewerRefs(slots, io.pte, refs, io.Refs());
        if !read || actual != 0 { return false; }
      }
      return true;
    }

    // ---------------------------------------------------------------- teardown

    /** Frees a quarantined mapping. Its backing is released only after `Clean`, or when
        nothing was ever written for it. */
    method Teardown(i: nat) returns (status: Status)
      requires Valid() && i < |slots| && slots[i].state == Quarantined
      modifies this`slots, io`tlb, io`asked, io`pte, io`clobbered, io`unsafeRelease, io`regions
      ensures Valid() && |slots| == |old(slots)| && old(io.asked) <= io.asked
      ensures status == Ok || status == Quarantine
      ensures status == Ok ==> slots == old(slots)[i := EMPTY] && old(slots)[i].users == 0
      ensures status != Ok ==> slots == old(slots) || slots == old(slots)[i := old(slots)[i].(cleared := true)]
      ensures io.regions == AfterRelease(old(io.regions), old(slots)[i], status)
      ensures status == Ok && old(slots)[i].held ==>
                var r := Record(old(io.regions), old(slots)[i].backing);
                r.Some? && r.value.held && r.value.references == 0
      ensures status == Ok ==> Heard(io.tape, old(io.asked), io.asked, Questions(old(slots)[i]))
    {
      hide Valid, EncodeGgtt, WithHeld, Record, Yes, Heard;
      var live := Live();
      if !live || slots[i].users != 0 { return Quarantine; }
      ghost var first := io.asked;
      if slots[i].touched && !slots[i].cleared {
        var cleaned := Clean(i);
        if !cleaned { return Quarantine; }
        HeardMore(io.tape, old(io.asked), first, io.asked, 1, 6 + 9 * slots[i].range.Pages());
      }
      ghost var second := io.asked;
      status := LetGo(i);
      if status == Ok && old(slots)[i].held {
        HeardMore(io.tape, old(io.asked), second, io.asked, Questions(old(slots)[i]) - 1, 1);
      }
    }

    /** Releases the backing of a mapping that nothing translates through, and frees its slot. */
    method LetGo(i: nat) returns (status: Status)
      requires Valid() && i < |slots| && slots[i].state == Quarantined && !Active(slots[i]) && slots[i].users == 0
      modifies this`slots, io`tlb, io`asked, io`unsafeRelease, io`regions
      ensures Valid() && |slots| == |old(slots)| && old(io.asked) <= io.asked
      ensures status == Ok || status == Quarantine
      ensures slots == if status == Ok then old(slots)[i := EMPTY] else old(slots)
      ensures io.regions == AfterRelease(old(io.regions), old(slots)[i], status)
      ensures status == Ok && old(slots)[i].held ==>
                var r := Record(old(io.regions), old(slots)[i].backing);
                r.Some? && r.value.held && r.value.references == 0
      ensures status == Ok ==> if old(slots)[i].held then Heard(io.tape, old(io.asked), io.asked, 1)
                else io.asked == old(io.asked)
    {
      hide Inv, EncodeGgtt, WithHeld, Record, SerialOk, GrantsOk, Granted, Yes, Heard;
      InactiveHasNoEntries(slots, io.pte, io.Refs(), i);
      if slots[i].held {
        ghost var refs := io.Refs();
        var released := io.ReleaseBacking(slots[i].owner, epoch, slots[i].backing, slots[i].generation);
        FewerRefs(slots, io.pte, refs, io.Refs());
        if !released { return Quarantine; }
      }
      FreedSlot(slots, io.pte, io.Refs(), i);
      BooksKept(slots, serial, grants, i, EMPTY);
      slots := slots[i := EMPTY];
      return Ok;
    }

    method Retire(owner: nat, e: nat, h: Handle) returns (status: Status)
      requires Valid()
      modifies this`slots, io`tlb, io`asked, io`pte, io`clobbered, io`unsafeRelease, io`regions
      ensures Valid() && |slots| == |old(slots)| == MAX_MAPPINGS && old(io.asked) <= io.asked
      ensures old(Get(owner, e, h)) != Ok ==>
                status == old(Get(owner, e, h)) && slots == old(slots) && io.regions == old(io.regions)
      ensures old(Get(owner, e, h)) == Ok ==> SlotOnly(old(slots), slots, h.slot) && status in {Ok, Busy, Quarantine}
      ensures old(Get(owner, e, h)) == Ok ==> (status == Busy <==> old(slots)[h.slot].users != 0)
      ensures status == Busy ==> slots == old(slots)
      ensures status == Ok ==> old(Get(owner, e, h)) == Ok && slots[h.slot] == EMPTY && old(slots)[h.slot].users == 0
      ensures status != Ok && old(Get(owner, e, h)) == Ok ==> SameHold(old(slots)[h.slot], slots[h.slot])
      ensures old(Get(owner, e, h)) == Ok ==> io.regions == AfterRelease(old(io.regions), old(slots)[h.slot], status)
      ensures status == Ok ==> Heard(io.tape, old(io.asked), io.asked, 1 + Questions(old(slots)[h.slot]))
    {
      hide Inv, EncodeGgtt, WithHeld, Record, Yes, Heard;
      SlotsSize(slots, io.pte, io.Refs());
      var found := Get(owner, e, h);
      if found != Ok { return found; }
      var i := h.slot;
      if slots[i].users != 0 { return Busy; }
      var live := Live();
      if !live {
        QuarantinedSlot(slots, io.pte, io.Refs(), i);
        slots := slots[i := slots[i].(state := Quarantined)];
        return Quarantine;
      }
      if slots[i].state == Quarantined && slots[i].held && !slots[i].touched { return Quarantine; }
      QuarantinedSlot(slots, io.pte, io.Refs(), i);
      ghost var first, before := io.asked, slots[i];
      slots := slots[i := slots[i].(state := Quarantined)];
      status := Teardown(i);
      assert Questions(before.(state := Quarantined)) == Questions(before);
      if status == Ok { HeardMore(io.tape, old(io.asked), first, io.asked, 1, Questions(before)); }
    }

    // ---------------------------------------------------------------- publication

    /** The backing is owned and every page of it encodes. */
    method BackingUsable(i: nat) returns (ok: bool)
      requires Valid() && i < |slots|
      modifies io`tlb, io`asked
      ensures Valid() && old(io.asked) <= io.asked
      ensures ok ==> Encodable(slots[i]) && Heard(io.tape, old(io.asked), io.asked, 2)
      ensures !ok && Calm() && slots[i].owner == io.owner && Encodable(slots[i]) ==>
                !Agrees(io.tape, old(io.asked), io.asked, io.regions, slots[i].backing, true)
    {
      hide Inv, EncodeGgtt, Agrees, Heard;
      ok := Owns(i);
      ghost var owned := ok;
      var s := slots[i];
      var k := 0;
      while ok && k < |s.backing.pages|
        invariant 0 <= k <= |s.backing.pages|
        invariant ok ==> forall n | 0 <= n < k :: Expected(s, n).Some?
        invariant !ok && k > 0 ==> !Encodable(s)
        invariant (k == 0 ==> ok == owned) && (ok ==> owned)
        decreases |s.backing.pages| - k, ok
      {
        ok := Expected(s, k).Some?;
        k := k + 1;
      }
    }

    /** Every entry of the range is zero: nothing of anybody's is there. */
    method ScanZero(i: nat) returns (ok: bool)
      requires Valid() && i < |slots|
      modifies io`tlb, io`asked
      ensures Valid() && old(io.asked) <= io.asked
      ensures ok ==> ZeroUpTo(slots[i].range, io.pte, slots[i].range.Pages())
      ensures ok ==> Heard(io.tape, old(io.asked), io.asked, 2 * slots[i].range.Pages())
      ensures !ok && Calm() && ZeroUpTo(slots[i].range, io.pte, slots[i].range.Pages()) ==>
                !Yes(io.tape, old(io.asked), io.asked)
    {
      hide Inv, Yes, Heard;
      var s := slots[i];
      NothingHeard(io.tape, io.asked);
      for k := 0 to s.range.Pages()
        invariant Valid() && ZeroUpTo(s.range, io.pte, k) && old(io.asked) <= io.asked
        invariant Heard(io.tape, old(io.asked), io.asked, 2 * k)
      {
        ghost var middle := io.asked;
        var read, value := Read(s.range.At(k));
        YesSplit(io.tape, old(io.asked), middle, io.asked);
        if !read || value != 0 { return false; }
        HeardMore(io.tape, old(io.asked), middle, io.asked, 2 * k, 2);
      }
      return true;
    }

    /** Writes and reads back each entry in turn. `Stuck` leaves the mapping as it is,
        `Failed` asks for teardown. */
    method WriteAll(i: nat) returns (outcome: Outcome)
      requires Valid() && i < |slots| && Writable(slots[i]) && !slots[i].touched
      requires ZeroUpTo(slots[i].range, io.pte, slots[i].range.Pages())
      modifies this`slots, io`tlb, io`asked, io`pte, io`clobbered
      ensures Valid() && |slots| == |old(slots)|
      ensures slots == old(slots) || slots == old(slots)[i := old(slots)[i].(touched := true)]
      ensures outcome == Done ==>
                slots == old(slots)[i := old(slots)[i].(touched := true)] &&
                WrittenUpTo(slots[i], io.pte, slots[i].range.Pages())
      ensures outcome == Done ==> Heard(io.tape, old(io.asked), io.asked, 5 * slots[i].range.Pages())
      ensures outcome == Failed ==> slots[i].touched
      ensures old(io.asked) <= io.asked
      ensures Calm() && Encodable(old(slots)[i]) && Yes(io.tape, old(io.asked), io.asked) ==> outcome == Done
    {
      hide Inv, EncodeGgtt, Yes, Heard, SerialOk, GrantsOk, Granted;
      var n := slots[i].range.Pages();
      NothingHeard(io.tape, io.asked);
      HeldBacking(slots, io.pte, io.Refs(), i);
      for k := 0 to n
        invariant Valid() && |slots| == |old(slots)|
        invariant slots == if k == 0 then old(slots) else old(slots)[i := old(slots)[i].(touched := true)]
        invariant k == 0 ==> ZeroUpTo(slots[i].range, io.pte, n)
        invariant WrittenUpTo(slots[i], io.pte, k) && old(io.asked) <= io.asked
        invariant Heard(io.tape, old(io.asked), io.asked, 5 * k)
      {
        ghost var middle, pte := io.asked, io.pte;
        StillWritable(old(slots)[i]);
        outcome := WritePage(i, k);
        YesSplit(io.tape, old(io.asked), middle, io.asked);
        assert Expected(slots[i], k) == Expected(old(slots)[i], k);
        if outcome != Done { return; }
        HeardMore(io.tape, old(io.asked), middle, io.asked, 5 * k, 5);
        WrittenGrows(slots[i], pte, k);
      }
      return Done;
    }

    /** Writes one entry and reads it back. */
    method WritePage(i: nat, k: nat) returns (outcome: Outcome)
      requires Valid() && i < |slots| && Writable(slots[i]) && k < slots[i].range.Pages()
      requires slots[i].touched || ZeroUpTo(slots[i].range, io.pte, slots[i].range.Pages())
      modifies this`slots, io`tlb, io`asked, io`pte, io`clobbered
      ensures Valid() && |slots| == |old(slots)| && old(io.asked) <= io.asked
      ensures slots == old(slots) || slots == old(slots)[i := old(slots)[i].(touched := true)]
      ensures outcome == Done ==>
                && slots == old(slots)[i := old(slots)[i].(touched := true)]
                && var e := Entry(Expected(slots[i], k).value, slots[i].generation);
                && io.pte == old(io.pte)[slots[i].range.At(k) := e]
                && Heard(io.tape, old(io.asked), io.asked, 5)
      ensures outcome == Failed ==> slots[i].touched
      ensures Calm() && Expected(old(slots)[i], k).Some? && Yes(io.tape, old(io.asked), io.asked) ==> outcome == Done
    {
      hide Inv, EncodeGgtt, Yes, Heard, SerialOk, GrantsOk, Granted;
      ghost var first := io.asked;
      var live := Live();
      if !live || Expected(slots[i], k).None? { return Stuck; }
      if slots[i].touched {
        assert slots[i := slots[i].(touched := true)] == slots;
      } else {
        TouchedSlot(slots, io.pte, io.Refs(), i);
      }
      BooksKept(slots, serial, grants, i, slots[i].(touched := true));
      slots := slots[i := slots[i].(touched := true)];
      var value := Expected(slots[i], k).value;
      ghost var second := io.asked;
      var wrote := Put(i, k, value);
      YesSplit(io.tape, first, second, io.asked);
      if !wrote { return Failed; }
      ghost var third := io.asked;
      var read, actual := Read(slots[i].range.At(k));
      YesSplit(io.tape, first, third, io.asked);
      if !read || actual != value { return Failed; }
      HeardMore(io.tape, first, second, third, 1, 2);
      HeardMore(io.tape, first, third, io.asked, 3, 2);
      return Done;
    }

    /** From a held mapping to the end of publication. */
    method PublishHeld(i: nat) returns (status: Status)
      requires Valid() && i < |slots| && slots[i].state == Quarantined && slots[i].held && !slots[i].touched
      requires slots[i].users == 0
      modifies this`slots, io`tlb, io`asked, io`pte, io`clobbered, io`unsafeRelease, io`regions
      ensures Valid() && |slots| == |old(slots)| && SlotOnly(old(slots), slots, i)
      ensures status in {Ok, Invalid, Io, Quarantine}
      ensures status == Ok <==> slots[i].state == Published
      ensures slots[i].state != Reserved
      ensures if slots[i] == EMPTY then HoldEnded(old(io.regions), io.regions, old(slots)[i].backing) &&
                status in {Invalid, Io}
              else SameHold(old(slots)[i], slots[i]) && io.regions == old(io.regions) && status in {Ok, Quarantine}
      ensures old(io.asked) <= io.asked
      ensures status == Ok ==> Heard(io.tape, old(io.asked), io.asked, 5 + 9 * slots[i].range.Pages())
      ensures status != Ok && old(Fillable(i)) ==>
                !Agrees(io.tape, old(io.asked), io.asked, old(io.regions), old(slots)[i].backing, true)
    {
      hide Inv, EncodeGgtt, WithHeld, Record, Agrees, Yes, Heard, Encodable;
      ghost var first, regions, b := io.asked, io.regions, slots[i].backing;
      HeldBacking(slots, io.pte, io.Refs(), i);
      var usable := BackingUsable(i);
      ghost var second := io.asked;
      if !usable {
        status := Teardown(i);
        Within(first, first, second, regions, b, true);
        return if status == Ok then Invalid else Quarantine;
      }
      status := FillEntries(i);
      if status == Ok { HeardMore(io.tape, first, second, io.asked, 2, 3 + 9 * slots[i].range.Pages()); }
      Within(first, second, io.asked, regions, b, true);
    }

    /** Nothing stands in the way of publishing this held mapping but an answer. */
    ghost predicate Fillable(i: nat)
      requires i < |slots|
      reads this, io
    {
      Calm() && slots[i].owner == io.owner && Encodable(slots[i]) &&
      ZeroUpTo(slots[i].range, io.pte, slots[i].range.Pages())
    }

    /** The entries were free; each is written and read back, then the whole is confirmed. */
    method FillEntries(i: nat) returns (status: Status)
      requires Valid() && i < |slots| && Writable(slots[i]) && !slots[i].touched && slots[i].users == 0
      modifies this`slots, io`tlb, io`asked, io`pte, io`clobbered, io`unsafeRelease, io`regions
      ensures Valid() && |slots| == |old(slots)| && SlotOnly(old(slots), slots, i)
      ensures status in {Ok, Io, Quarantine}
      ensures status == Ok <==> slots[i].state == Published
      ensures slots[i].state != Reserved
      ensures if slots[i] == EMPTY then HoldEnded(old(io.regions), io.regions, old(slots)[i].backing) && status == Io
              else SameHold(old(slots)[i], slots[i]) && io.regions == old(io.regions) && status in {Ok, Quarantine}
      ensures old(io.asked) <= io.asked
      ensures status == Ok ==> Heard(io.tape, old(io.asked), io.asked, 3 + 9 * slots[i].range.Pages())
      ensures old(Fillable(i)) && Yes(io.tape, old(io.asked), io.asked) ==> status == Ok
    {
      hide Valid, EncodeGgtt, WithHeld, Record, Yes, Heard, Encodable;
      ghost var first, n := io.asked, slots[i].range.Pages();
      var zero := ScanZero(i);
      if !zero { return Quarantine; }
      ghost var second := io.asked;
      var outcome := WriteAll(i);
      ghost var third := io.asked;
      YesSplit(io.tape, first, second, third);
      if outcome == Stuck { return Quarantine; }
      if outcome == Failed {
        status := Teardown(i);
        YesSplit(io.tape, first, third, io.asked);
        return if status == Ok then Io else Quarantine;
      }
      status := Confirm(i);
      YesSplit(io.tape, first, third, io.asked);
      if status == Ok {
        HeardMore(io.tape, first, second, third, 2 * n, 5 * n);
        HeardMore(io.tape, first, third, io.asked, 7 * n, 3 + 2 * n);
      }
    }

    /** A fresh invalidation, then every entry read back. */
    method Proved(i: nat) returns (good: bool)
      requires Valid() && i < |slots| && |slots[i].backing.pages| == slots[i].range.Pages()
      requires WrittenUpTo(slots[i], io.pte, slots[i].range.Pages())
      modifies io`tlb, io`asked
      ensures Valid() && old(io.asked) <= io.asked
      ensures Calm() && Yes(io.tape, old(io.asked), io.asked) ==> good
      ensures good ==> Heard(io.tape, old(io.asked), io.asked, 3 + 2 * slots[i].range.Pages())
      ensures good ==> forall k | 0 <= k < |slots[i].backing.pages| ::
                Expected(slots[i], k).Some? && At(io.pte, slots[i].range.At(k)).value == Expected(slots[i], k).value
    {
      hide Inv, EncodeGgtt, Yes, Heard, WrittenUpTo;
      good := Live();
      if !good { return; }
      ghost var first, refs := io.asked, io.Refs();
      good := io.Invalidate(epoch);
      FewerRefs(slots, io.pte, refs, io.Refs());
      YesSplit(io.tape, old(io.asked), first, io.asked);
      if !good { return; }
      ghost var second := io.asked;
      good := Verify(i, false);
      YesSplit(io.tape, old(io.asked), second, io.asked);
      if good {
        HeardMore(io.tape, old(io.asked), first, second, 1, 2);
        HeardMore(io.tape, old(io.asked), second, io.asked, 3, 2 * slots[i].range.Pages());
      }
    }

    /** The last step: invalidate, verify, and only then call the mapping published. */
    method Confirm(i: nat) returns (status: Status)
      requires Valid() && i < |slots| && slots[i].state == Quarantined && Active(slots[i]) && slots[i].users == 0
      requires WrittenUpTo(slots[i], io.pte, slots[i].range.Pages())
      modifies this`slots, io`tlb, io`asked, io`pte, io`clobbered, io`unsafeRelease, io`regions
      ensures Valid() && |slots| == |old(slots)| && SlotOnly(old(slots), slots, i)
      ensures status in {Ok, Io, Quarantine}
      ensures status == Ok <==> slots[i].state == Published
      ensures slots[i].state != Reserved
      ensures status == Ok ==>
                slots == old(slots)[i := old(slots)[i].(state := Published)] && io.regions == old(io.regions)
      ensures if slots[i] == EMPTY then status == Io && HoldEnded(old(io.regions), io.regions, old(slots)[i].backing)
              else SameHold(old(slots)[i], slots[i]) && io.regions == old(io.regions) && status in {Ok, Quarantine}
      ensures old(io.asked) <= io.asked && (Calm() && Yes(io.tape, old(io.asked), io.asked) ==> status == Ok)
      ensures status == Ok ==> Heard(io.tape, old(io.asked), io.asked, 3 + 2 * slots[i].range.Pages())
    {
      hide Inv, EncodeGgtt, WithHeld, Record, Yes, Heard;
      HeldBacking(slots, io.pte, io.Refs(), i);
      var good := Proved(i);
      ghost var middle := io.asked;
      if !good {
        status := Teardown(i);
        YesSplit(io.tape, old(io.asked), middle, io.asked);
        return if status == Ok then Io else Quarantine;
      }
      PublishedSlot(slots, io.pte, io.Refs(), i);
      slots := slots[i := slots[i].(state := Published)];
      return Ok;
    }

    method Publish(owner: nat, e: nat, h: Handle, b: Backing, pat: nat) returns (status: Status)
      requires Valid()
      modifies this`slots, io`tlb, io`asked, io`pte, io`clobbered, io`unsafeRelease, io`regions
      ensures Valid() && |slots| == |old(slots)| == MAX_MAPPINGS
      ensures old(Get(owner, e, h)) != Ok ==>
                status == old(Get(owner, e, h)) && slots == old(slots) && io.regions == old(io.regions)
      ensures old(Get(owner, e, h)) == Ok ==> SlotOnly(old(slots), slots, h.slot)
      ensures old(Get(owner, e, h)) == Ok && old(slots)[h.slot].state != Reserved ==>
                slots == old(slots) && io.regions == old(io.regions) &&
                status == if old(slots)[h.slot].state == Quarantined then Quarantine else Busy
      ensures status == Ok ==> old(Get(owner, e, h)) == Ok && slots[h.slot].state == Published && slots[h.slot].held
      ensures status == Ok ==> pat == 3 && owner == io.owner && epoch == io.epoch && io.open
      ensures old(Get(owner, e, h)) == Ok && old(slots)[h.slot].state == Reserved ==>
                PublishEffect(old(slots)[h.slot], slots[h.slot], b, old(io.regions), io.regions, status)
      ensures status == Ok ==> Heard(io.tape, old(io.asked), io.asked, 9 + 9 * slots[h.slot].range.Pages())
      ensures status != Ok && old(Get(owner, e, h)) == Ok && old(Publishable(h.slot, b, pat)) ==>
                !Agrees(io.tape, old(io.asked), io.asked, old(io.regions), b, false)
    {
      hide Inv, EncodeGgtt, WithHeld, Record, Agrees, Heard, PublishEffect;
      SlotsSize(slots, io.pte, io.Refs());
      var found := Get(owner, e, h);
      if found != Ok { return found; }
      var i := h.slot;
      ReservedSlot(slots, io.pte, io.Refs(), i);
      if slots[i].state != Reserved { return if slots[i].state == Quarantined then Quarantine else Busy; }
      status := PublishReserved(i, b, pat);
    }

    /** The backing is described and has as many pages as the range. */
    predicate Described(i: nat, b: Backing)
      requires i < |slots|
      reads this`slots
    {
      b.cookie != 0 && b.cpu != 0 && b.list != 0 && b.identity != 0 && |b.pages| == slots[i].range.Pages()
    }

    /** Nothing stands in the way of publishing this reservation but an answer: it and the backing are in order, PAT
        entry 3 is asked for, and the range holds no entry. */
    ghost predicate Publishable(i: nat, b: Backing, pat: nat)
      requires i < |slots|
      reads this, io
    {
      && Calm() && slots[i].state == Reserved && slots[i].owner == io.owner && pat == 3 && Described(i, b)
      && (forall p <- b.pages :: DmaPage(p)) && ZeroUpTo(slots[i].range, io.pte, slots[i].range.Pages())
    }

    method PublishReserved(i: nat, b: Backing, pat: nat) returns (status: Status)
      requires Valid() && i < |slots| && slots[i].state == Reserved && !slots[i].held && !slots[i].touched
      requires !slots[i].cleared && slots[i].users == 0
      modifies this`slots, io`tlb, io`asked, io`pte, io`clobbered, io`unsafeRelease, io`regions
      ensures Valid() && |slots| == |old(slots)| && SlotOnly(old(slots), slots, i)
      ensures status == Ok ==> slots[i].state == Published && slots[i].held
      ensures status == Ok ==> pat == 3 && old(slots)[i].owner == io.owner && epoch == io.epoch && io.open
      ensures PublishEffect(old(slots)[i], slots[i], b, old(io.regions), io.regions, status)
      ensures status == Ok ==> Heard(io.tape, old(io.asked), io.asked, 9 + 9 * slots[i].range.Pages())
      ensures status != Ok && old(Publishable(i, b, pat)) ==>
                !Agrees(io.tape, old(io.asked), io.asked, old(io.regions), b, false)
    {
      hide Valid, EncodeGgtt, WithHeld, Record, Agrees, Yes, Heard;
      ghost var first, regions := io.asked, io.regions;
      var live := Live();
      ghost var second := io.asked;
      Within(first, first, second, regions, b, false);
      if !live { return Unavailable; }
      if !Described(i, b) || pat > 3 { return Invalid; }
      var ready := PatReady(pat);
      Within(first, second, io.asked, regions, b, false);
      if !ready { return Unavailable; }
      ghost var third := io.asked;
      status := Hold(i, b, pat, first);
      if status == Ok {
        HeardMore(io.tape, first, second, third, 1, 1);
        HeardMore(io.tape, first, third, io.asked, 2, 7 + 9 * slots[i].range.Pages());
      }
    }

    /** The parts of a span that agrees. */
    lemma Within(first: nat, a: nat, b: nat, regions: seq<Region>, backing: Backing, held: bool)
      requires first <= a <= b <= io.asked
      ensures Agrees(io.tape, first, io.asked, regions, backing, held) ==>
                Agrees(io.tape, a, b, regions, backing, held) && Yes(io.tape, a, b)
    {
      hide Agrees, Yes;
      if Agrees(io.tape, first, io.asked, regions, backing, held) {
        AgreesWithin(io.tape, first, a, b, io.asked, regions, backing, held);
      }
    }

    /** Retains the backing; from then on the mapping is the manager's to publish or to quarantine. */
    method Hold(i: nat, b: Backing, pat: nat, ghost first: nat) returns (status: Status)
      requires Valid() && i < |slots| && slots[i].state == Reserved && !slots[i].held && !slots[i].touched
      requires !slots[i].cleared && slots[i].users == 0 && pat == 3 && Described(i, b) && first <= io.asked
      modifies this`slots, io`tlb, io`asked, io`pte, io`clobbered, io`unsafeRelease, io`regions
      ensures Valid() && |slots| == |old(slots)| && SlotOnly(old(slots), slots, i)
      ensures status == Ok ==> slots[i].state == Published && slots[i].held
      ensures status == Ok ==> old(slots)[i].owner == io.owner && epoch == io.epoch && io.open
      ensures PublishEffect(old(slots)[i], slots[i], b, old(io.regions), io.regions, status)
      ensures status == Ok ==> Heard(io.tape, old(io.asked), io.asked, 7 + 9 * slots[i].range.Pages())
      ensures status != Ok && old(Publishable(i, b, pat)) ==>
                !Agrees(io.tape, first, io.asked, old(io.regions), b, false)
    {
      hide Valid, EncodeGgtt, WithHeld, Record, Agrees, Yes, Heard;
      ghost var regions, second := io.regions, io.asked;
      var retained := Retained(i, b, pat);
      Within(first, second, io.asked, regions, b, false);
      if !retained { return Unavailable; }
      ghost var third := io.asked;
      status := PublishHeld(i);
      HoldTwice(regions, b);
      StillAgrees(first, third, regions, b);
      if status == Ok { HeardMore(io.tape, second, third, io.asked, 2, 5 + 9 * slots[i].range.Pages()); }
    }

    method Retained(i: nat, b: Backing, pat: nat) returns (ok: bool)
      requires Valid() && i < |slots| && slots[i].state == Reserved && !slots[i].held && !slots[i].touched
      requires !slots[i].cleared && slots[i].users == 0 && pat == 3 && Described(i, b)
      modifies this`slots, io`tlb, io`asked, io`regions
      ensures Valid() && old(io.asked) <= io.asked
      ensures slots == if ok then old(slots)[i := HeldFrom(old(slots)[i], b, pat)] else old(slots)
      ensures ok ==> slots[i].owner == io.owner && epoch == io.epoch && io.open
      ensures ok ==> Heard(io.tape, old(io.asked), io.asked, 2)
      ensures ok ==> Record(old(io.regions), b).Some? && !Record(old(io.regions), b).value.held
      ensures io.regions == if ok then WithHeld(old(io.regions), b, true) else old(io.regions)
      ensures !ok && Calm() && old(slots)[i].owner == io.owner ==>
                !Agrees(io.tape, old(io.asked), io.asked, old(io.regions), b, false)
    {
      hide Inv, EncodeGgtt, WithHeld, Record, Agrees, Yes, Heard, SerialOk, GrantsOk, Granted;
      ok := io.RetainBacking(slots[i].owner, epoch, b);
      FewerRefs(slots, io.pte, old(io.Refs()), io.Refs());
      if !ok { return; }
      HeldSlot(slots, io.pte, io.Refs(), i, b, pat);
      BooksKept(slots, serial, grants, i, HeldFrom(slots[i], b, pat));
      slots := slots[i := HeldFrom(slots[i], b, pat)];
    }

    lemma StillAgrees(first: nat, third: nat, regions: seq<Region>, b: Backing)
      requires first <= third <= io.asked
      ensures Agrees(io.tape, first, io.asked, regions, b, false) ==>
                Agrees(io.tape, third, io.asked, WithHeld(regions, b, true), b, true)
    {
      hide Agrees, WithHeld;
      Within(first, third, io.asked, regions, b, false);
      if Agrees(io.tape, third, io.asked, regions, b, false) { AgreesHeld(io.tape, third, io.asked, regions, b); }
    }

    // ---------------------------------------------------------------- users

    /** Exact identity and a fresh readback; any doubt quarantines the mapping. */
    method PublishedNow(owner: nat, e: nat, h: Handle, b: Backing) returns (status: Status)
      requires Valid()
      modifies this`slots, io`tlb, io`asked
      ensures Valid() && |slots| == |old(slots)| == MAX_MAPPINGS
      ensures old(Get(owner, e, h)) != Ok ==> status == old(Get(owner, e, h)) && slots == old(slots)
      ensures old(Get(owner, e, h)) == Ok ==> status in {Ok, Invalid, Quarantine}
      ensures old(Get(owner, e, h)) == Ok ==>
                slots == if status == Quarantine then old(slots)[h.slot := Doubted(old(slots)[h.slot])] else old(slots)
      ensures status == Ok ==>
                old(Get(owner, e, h)) == Ok && slots[h.slot].state == Published && slots[h.slot].backing == b
      ensures status == Ok ==> Heard(io.tape, old(io.asked), io.asked, 4 + 2 * slots[h.slot].range.Pages())
      ensures status == Quarantine && old(Get(owner, e, h)) == Ok && old(slots)[h.slot].state == Published ==>
                !(Calm() && owner == io.owner && old(slots)[h.slot].pat == 3 &&
                  Agrees(io.tape, old(io.asked), io.asked, io.regions, b, true))
    {
      hide Inv, EncodeGgtt, SerialOk, GrantsOk, Granted, Agrees, Heard;
      SlotsSize(slots, io.pte, io.Refs());
      var found := Get(owner, e, h);
      if found != Ok { return found; }
      var i := h.slot;
      if slots[i].state != Published { return Quarantine; }
      PublishedFacts(slots, io.pte, io.Refs(), i);
      if slots[i].backing != b { return Invalid; }
      var good := Sure(i);
      if !good {
        QuarantinedSlot(slots, io.pte, io.Refs(), i);
        BooksKept(slots, serial, grants, i, slots[i].(state := Quarantined));
        slots := slots[i := slots[i].(state := Quarantined)];
        return Quarantine;
      }
      return Ok;
    }

    /** Live, owned, the PAT entry ready, and every entry read back. */
    method Sure(i: nat) returns (good: bool)
      requires Valid() && i < |slots| && |slots[i].backing.pages| == slots[i].range.Pages()
      requires WrittenUpTo(slots[i], io.pte, slots[i].range.Pages())
      modifies io`tlb, io`asked
      ensures Valid() && old(io.asked) <= io.asked
      ensures good ==> Heard(io.tape, old(io.asked), io.asked, 4 + 2 * slots[i].range.Pages())
      ensures !good && Calm() && slots[i].owner == io.owner && slots[i].pat == 3 ==>
                !Agrees(io.tape, old(io.asked), io.asked, io.regions, slots[i].backing, true)
    {
      hide Valid, EncodeGgtt, Agrees, Yes, Heard, WrittenUpTo;
      ghost var first, b := io.asked, slots[i].backing;
      good := Live();
      Within(first, first, io.asked, io.regions, b, true);
      if !good { return; }
      ghost var second := io.asked;
      good := Owns(i);
      Within(first, second, io.asked, io.regions, b, true);
      if !good { return; }
      ghost var third := io.asked;
      good := PatReady(slots[i].pat);
      Within(first, third, io.asked, io.regions, b, true);
      if !good { return; }
      ghost var fourth := io.asked;
      good := Verify(i, false);
      Within(first, fourth, io.asked, io.regions, b, true);
      if !good { return; }
      HeardMore(io.tape, first, second, third, 1, 2);
      HeardMore(io.tape, first, third, fourth, 3, 1);
      HeardMore(io.tape, first, fourth, io.asked, 4, 2 * slots[i].range.Pages());
    }

    method Retain(owner: nat, e: nat, h: Handle, b: Backing) returns (status: Status)
      requires Valid()
      modifies this`slots, io`tlb, io`asked
      ensures Valid() && |slots| == |old(slots)| == MAX_MAPPINGS
      ensures status != Ok && old(Get(owner, e, h)) != Ok ==> slots == old(slots)
      ensures old(Get(owner, e, h)) == Ok ==> SlotOnly(old(slots), slots, h.slot)
      ensures status != Ok && old(Get(owner, e, h)) == Ok ==> SameHold(old(slots)[h.slot], slots[h.slot])
      ensures status == Ok ==>
                old(Get(owner, e, h)) == Ok && old(slots)[h.slot].state == Published && old(slots)[h.slot].backing == b
      ensures status == Ok ==> slots == old(slots)[h.slot := old(slots)[h.slot].(users := old(slots)[h.slot].users + 1)]
      ensures status == Ok ==> Heard(io.tape, old(io.asked), io.asked, 4 + 2 * slots[h.slot].range.Pages())
    {
      hide Inv, EncodeGgtt, Heard;
      status := PublishedNow(owner, e, h, b);
      if status != Ok { return; }
      if slots[h.slot].users + 1 == U32 { return Busy; }
      UserAdded(slots, io.pte, io.Refs(), h.slot, slots[h.slot].users + 1);
      slots := slots[h.slot := slots[h.slot].(users := slots[h.slot].users + 1)];
    }

    method Release(owner: nat, e: nat, h: Handle) returns (status: Status)
      requires Valid()
      modifies this`slots, io`tlb, io`asked
      ensures Valid() && |slots| == |old(slots)| == MAX_MAPPINGS
      ensures status != Ok ==> slots == old(slots)
      ensures status == if old(Get(owner, e, h)) != Ok then old(Get(owner, e, h))
                        else if old(slots)[h.slot].users == 0 then Invalid
                        else if Calm() && owner == io.owner && Yes(io.tape, old(io.asked), old(io.asked) + 2) then Ok
                        else Busy
      ensures status == Ok ==> slots == old(slots)[h.slot := old(slots)[h.slot].(users := old(slots)[h.slot].users - 1)]
    {
      hide Inv, EncodeGgtt;
      SlotsSize(slots, io.pte, io.Refs());
      var found := Get(owner, e, h);
      if found != Ok { return found; }
      if slots[h.slot].users == 0 { return Invalid; }
      var live := Live();
      if !live { return Busy; }
      ghost var refs := io.Refs();
      var retired := io.Retired(owner, epoch);
      FewerRefs(slots, io.pte, refs, io.Refs());
      if !retired { return Busy; }
      UserAdded(slots, io.pte, io.Refs(), h.slot, slots[h.slot].users - 1);
      slots := slots[h.slot := slots[h.slot].(users := slots[h.slot].users - 1)];
      return Ok;
    }

    /** The space is given back only when no mapping is left. */
    method Close() returns (status: Status)
      requires Valid()
      modifies this`closed, io`tlb, io`asked
      ensures Valid()
      ensures status == Ok ==> started && closed && forall i | 0 <= i < |slots| :: slots[i] == EMPTY
      ensures status == Ok ==> Heard(io.tape, old(io.asked), io.asked, 2)
      ensures status != Ok ==> closed == old(closed)
    {
      hide EncodeGgtt, Exclusive, Complete;
      var live := Live();
      if !live { return Unavailable; }
      for i := 0 to |slots|
        invariant Valid() && forall j | 0 <= j < i :: slots[j].state == Free
      {
        if slots[i].state != Free { return Busy; }
      }
      ghost var refs := io.Refs();
      var released := io.Quiet();
      FewerRefs(slots, io.pte, refs, io.Refs());
      if !released { return Quarantine; }
      closed := true;
      return Ok;
    }

    // ---------------------------------------------------------------- every run

    method Perform(call: Call) returns (status: Status)
      requires Valid()
      modifies this, io`tlb, io`asked, io`pte, io`clobbered, io`unsafeRelease, io`regions
      ensures Valid()
    {
      hide Valid;
      match call {
        case CallInitialize(e, ranges) => status := Initialize(e, ranges);
        case CallReserve(owner, e, bytes, alignment) => var h; status, h := Reserve(owner, e, bytes, alignment);
        case CallReserveAt(owner, e, r) => var h; status, h := ReserveAt(owner, e, r);
        case CallPublish(owner, e, h, b, pat) => status := Publish(owner, e, h, b, pat);
        case CallPublished(owner, e, h, b) => status := PublishedNow(owner, e, h, b);
        case CallRetain(owner, e, h, b) => status := Retain(owner, e, h, b);
        case CallRelease(owner, e, h) => status := Release(owner, e, h);
        case CallRetire(owner, e, h) => status := Retire(owner, e, h);
        case CallClose => status := Close();
      }
    }

    /** Whatever is called, in whatever order, with whatever the hardware answers: no
        foreign entry is overwritten, no backing is released while an entry made for it can
        translate, and every such entry belongs to a mapping that holds its backing. */
    method Execute(calls: seq<Call>)
      requires Valid()
      modifies this, io`tlb, io`asked, io`pte, io`clobbered, io`unsafeRelease, io`regions
      ensures Valid() && !io.clobbered && !io.unsafeRelease
      ensures forall r <- io.Refs() :: r.1 != 0 ==> HeldFor(slots, r)
    {
      for n := 0 to |calls|
        invariant Valid()
      {
        var status := Perform(calls[n]);
      }
      forall r | r in io.Refs() && r.1 != 0 ensures HeldFor(slots, r) { EntriesAreHeld(slots, io.pte, io.Refs(), r); }
    }
  }

  datatype Call =
    | CallInitialize(e: nat, ranges: seq<Range>)
    | CallReserve(owner: nat, e: nat, bytes: nat, alignment: nat)
    | CallReserveAt(owner: nat, e: nat, r: Range)
    | CallPublish(owner: nat, e: nat, h: Handle, b: Backing, pat: nat)
    | CallPublished(owner: nat, e: nat, h: Handle, b: Backing)
    | CallRetain(owner: nat, e: nat, h: Handle, b: Backing)
    | CallRelease(owner: nat, e: nat, h: Handle)
    | CallRetire(owner: nat, e: nat, h: Handle)
    | CallClose

  /** A live mapping of the entry's generation holds its backing, and the entry lies on one of its pages. */
  ghost predicate HeldFor(slots: seq<Slot>, r: (nat, nat)) {
    exists i ::
      0 <= i < |slots| && slots[i].state != Free && slots[i].generation == r.1 && slots[i].held &&
      slots[i].range.Covers(r.0)
  }

  /** Every entry the manager wrote, in the table or still cached, points into a held backing. */
  lemma EntriesAreHeld(slots: seq<Slot>, pte: map<nat, Entry>, refs: set<(nat, nat)>, r: (nat, nat))
    requires Inv(slots, pte, refs) && r in refs && r.1 != 0
    ensures HeldFor(slots, r)
  {
    hide Exclusive, Complete;
    assert Owned(slots, r);
    var i :| 0 <= i < |slots| && Active(slots[i]) && slots[i].generation == r.1 && slots[i].range.Covers(r.0);
    SlotFacts(slots[i]);
  }

  lemma PublishedFacts(slots: seq<Slot>, pte: map<nat, Entry>, refs: set<(nat, nat)>, i: nat)
    requires Inv(slots, pte, refs) && i < |slots| && slots[i].state == Published
    ensures Active(slots[i]) && slots[i].held && |slots[i].backing.pages| == slots[i].range.Pages()
    ensures ValidRange(slots[i].range)
    ensures WrittenUpTo(slots[i], pte, slots[i].range.Pages())
  {
    hide EncodeGgtt;
    assert SlotOk(slots[i]) && Complete(slots[i], pte);
  }

  lemma UserAdded(slots: seq<Slot>, pte: map<nat, Entry>, refs: set<(nat, nat)>, i: nat, users: nat)
    requires Inv(slots, pte, refs) && i < |slots| && (slots[i].users > 0 || slots[i].state == Published)
    ensures Inv(slots[i := slots[i].(users := users)], pte, refs)
  {
    hide EncodeGgtt;
    assert SlotOk(slots[i]) && Complete(slots[i], pte) && Exclusive(slots[i], pte);
    var s := slots[i].(users := users);
    assert forall k | 0 <= k < |s.backing.pages| :: Expected(s, k) == Expected(slots[i], k);
    SlotChange(slots, pte, refs, i, s);
  }

  /** Ending a mapping ends its hold. */
  function AfterRelease(regions: seq<Region>, s: Slot, status: Status): seq<Region> {
    if status == Ok && s.held then WithHeld(regions, s.backing, false) else regions
  }

  /** A published mapping is quarantined; any other stays what it is. */
  function Doubted(s: Slot): Slot {
    if s.state == Published then s.(state := Quarantined) else s
  }

  /** How many answers it takes to take a mapping down. */
  function Questions(s: Slot): (n: nat)
    ensures n > 0 && (s.held ==> n > 1)
  {
    1 + (if s.touched && !s.cleared then 6 + 9 * s.range.Pages() else 0) + (if s.held then 1 else 0)
  }

  lemma StillWritable(s: Slot)
    requires Writable(s)
    ensures Writable(s.(touched := true))
  {
    hide EncodeGgtt;
    assert forall k | 0 <= k < |s.backing.pages| :: Expected(s.(touched := true), k) == Expected(s, k);
  }

  lemma NothingHeard(tape: nat -> Reply, at: nat)
    ensures Heard(tape, at, at, 0)
  {
  }

  /** A slot that is freed, or keeps its generation and range, leaves the books in order. */
  lemma BooksKept(slots: seq<Slot>, serial: nat, grants: seq<Range>, i: nat, s: Slot)
    requires SerialOk(slots, serial) && Granted(slots, grants) && i < |slots|
    requires s.state == Free || (slots[i].state != Free && s.generation == slots[i].generation &&
                                 s.range == slots[i].range)
    ensures SerialOk(slots[i := s], serial) && Granted(slots[i := s], grants)
  {
    hide Inside;
  }

  /** A reservation that took hold of a backing. */
  function HeldFrom(s: Slot, b: Backing, pat: nat): Slot {
    s.(state := Quarantined, backing := b, pat := pat, held := true)
  }

  /** Every page of the backing has an entry. */
  predicate Encodable(s: Slot) {
    forall k | 0 <= k < |s.backing.pages| :: Expected(s, k).Some?
  }

  /** What publishing a reserved mapping may have done to it and to the region table. */
  predicate PublishEffect(before: Slot, after: Slot, b: Backing, regions: seq<Region>, regions': seq<Region>,
                          status: Status) {
    || (after == before && regions' == regions && status in {Unavailable, Invalid})
    || (after == EMPTY && regions' == regions && status in {Invalid, Io})
    || (&& after.state != Free && after.state != Reserved && after.held && after.users == 0
        && after.backing == b && after.generation == before.generation
        && after.owner == before.owner && after.range == before.range && after.pat == 3
        && (status == Ok <==> after.state == Published) && status in {Ok, Quarantine}
        && regions' == WithHeld(regions, b, true) && Record(regions, b).Some? && !Record(regions, b).value.held)
  }

  lemma ReservedSlot(slots: seq<Slot>, pte: map<nat, Entry>, refs: set<(nat, nat)>, i: nat)
    requires Inv(slots, pte, refs) && i < |slots|
    ensures slots[i].state == Reserved ==>
              !slots[i].held && !slots[i].touched && !slots[i].cleared && slots[i].users == 0
  {
    hide Exclusive, Complete;
  }

  lemma HeldSlot(slots: seq<Slot>, pte: map<nat, Entry>, refs: set<(nat, nat)>, i: nat, b: Backing, pat: nat)
    requires Inv(slots, pte, refs) && i < |slots| && slots[i].state == Reserved && pat <= 3
    requires |b.pages| == slots[i].range.Pages()
    ensures Inv(slots[i := slots[i].(state := Quarantined, backing := b, pat := pat, held := true)], pte, refs)
  {
    hide EncodeGgtt;
    assert SlotOk(slots[i]);
    SlotChange(slots, pte, refs, i, slots[i].(state := Quarantined, backing := b, pat := pat, held := true));
  }

  /** Holding and releasing again leaves the table as it was. */
  lemma HoldTwice(regions: seq<Region>, b: Backing)
    ensures FindBacking(WithHeld(regions, b, true), b) == FindBacking(regions, b)
    ensures Record(regions, b).Some? && !Record(regions, b).value.held ==>
              WithHeld(WithHeld(regions, b, true), b, false) == regions
  {
    var i := FindBacking(regions, b);
    if i < |regions| {
      var held := WithHeld(regions, b, true);
      assert forall j | 0 <= j < |regions| :: Matches(held[j], b) == Matches(regions[j], b);
      var j := FindBacking(held, b);
      assert j == i;
    }
  }

  /** The region's hold was released, and nothing else changed. */
  predicate HoldEnded(before: seq<Region>, after: seq<Region>, b: Backing) {
    after == WithHeld(before, b, false) && Record(before, b).Some? && Record(before, b).value.held
  }

  lemma PublishedSlot(slots: seq<Slot>, pte: map<nat, Entry>, refs: set<(nat, nat)>, i: nat)
    requires Inv(slots, pte, refs) && i < |slots| && slots[i].state == Quarantined && Active(slots[i])
    requires WrittenUpTo(slots[i], pte, slots[i].range.Pages())
    ensures Inv(slots[i := slots[i].(state := Published)], pte, refs)
  {
    hide EncodeGgtt;
    assert SlotOk(slots[i]);
    var s := slots[i].(state := Published);
    assert forall k | 0 <= k < |s.backing.pages| :: Expected(s, k) == Expected(slots[i], k);
    SlotChange(slots, pte, refs, i, s);
  }

  datatype Outcome = Done | Stuck | Failed

  /** Ready for its first entry: quarantined, held, every page encodable. */
  ghost predicate Writable(s: Slot) {
    && s.state == Quarantined && s.held && !s.cleared && s.users == 0 && |s.backing.pages| == s.range.Pages()
    && Encodable(s)
  }

  /** The first `n` entries are exactly what the mapping wants, written by it. */
  ghost predicate WrittenUpTo(s: Slot, pte: map<nat, Entry>, n: nat) {
    n <= |s.backing.pages| && forall k | 0 <= k < n ::
      Expected(s, k).Some? && At(pte, s.range.At(k)) == Entry(Expected(s, k).value, s.generation)
  }

  lemma WrittenGrows(s: Slot, pte: map<nat, Entry>, k: nat)
    requires WrittenUpTo(s, pte, k) && k < |s.backing.pages| && Expected(s, k).Some?
    ensures WrittenUpTo(s, pte[s.range.At(k) := Entry(Expected(s, k).value, s.generation)], k + 1)
  {
    hide EncodeGgtt;
  }

  lemma TouchedSlot(slots: seq<Slot>, pte: map<nat, Entry>, refs: set<(nat, nat)>, i: nat)
    requires Inv(slots, pte, refs) && i < |slots| && Writable(slots[i]) && !slots[i].touched
    requires ZeroUpTo(slots[i].range, pte, slots[i].range.Pages())
    ensures Inv(slots[i := slots[i].(touched := true)], pte, refs)
  {
    hide EncodeGgtt;
    assert SlotOk(slots[i]);
    var s := slots[i].(touched := true);
    assert forall k | 0 <= k < |s.backing.pages| :: Expected(s, k) == Expected(slots[i], k);
    SlotChange(slots, pte, refs, i, s);
  }

  /** Only slot `i` may differ. */
  predicate SlotOnly(before: seq<Slot>, after: seq<Slot>, i: nat) {
    |before| == |after| && i < |before| && after == before[i := after[i]]
  }

  /** Still the same mapping with the same hold and users. */
  predicate SameHold(before: Slot, after: Slot) {
    after.state != Free && after.generation == before.generation && after.owner == before.owner &&
    after.range == before.range && after.pat == before.pat &&
    after.backing == before.backing && after.held == before.held && after.users == before.users
  }

  lemma FreedSlot(slots: seq<Slot>, pte: map<nat, Entry>, refs: set<(nat, nat)>, i: nat)
    requires Inv(slots, pte, refs) && i < |slots| && !Active(slots[i])
    ensures Inv(slots[i := EMPTY], pte, refs)
  {
    hide EncodeGgtt;
    SlotChange(slots, pte, refs, i, EMPTY);
  }

  lemma QuarantinedSlot(slots: seq<Slot>, pte: map<nat, Entry>, refs: set<(nat, nat)>, i: nat)
    requires Inv(slots, pte, refs) && i < |slots| && slots[i].state != Free
    ensures Inv(slots[i := slots[i].(state := Quarantined)], pte, refs)
  {
    hide EncodeGgtt;
    var s := slots[i].(state := Quarantined);
    assert forall k | 0 <= k < |s.backing.pages| :: Expected(s, k) == Expected(slots[i], k);
    SlotChange(slots, pte, refs, i, s);
  }

  ghost predicate ZeroUpTo(r: Range, pte: map<nat, Entry>, n: nat) {
    forall k | 0 <= k < n :: At(pte, r.At(k)).value == 0
  }

  lemma ZeroGrows(r: Range, pte: map<nat, Entry>, k: nat, writer: nat)
    requires ZeroUpTo(r, pte, k)
    ensures ZeroUpTo(r, pte[r.At(k) := Entry(0, writer)], k + 1)
  {
  }

  lemma HeldBacking(slots: seq<Slot>, pte: map<nat, Entry>, refs: set<(nat, nat)>, i: nat)
    requires Inv(slots, pte, refs) && i < |slots| && slots[i].state != Free
    ensures (slots[i].touched ==> slots[i].held) && (slots[i].cleared ==> slots[i].touched)
    ensures slots[i].held ==> |slots[i].backing.pages| == slots[i].range.Pages()
    ensures 0 < slots[i].generation && 0 < slots[i].range.Pages()
  {
    hide Exclusive, Complete;
    SlotFacts(slots[i]);
  }

  /** With the pages zero and the caches refilled only from the table, no entry of the mapping is left. */
  lemma NothingLeft(slots: seq<Slot>, pte: map<nat, Entry>, refs: set<(nat, nat)>, i: nat)
    requires Inv(slots, pte, refs) && i < |slots| && Active(slots[i]) && refs == RefsOf(pte, {})
    requires ZeroUpTo(slots[i].range, pte, slots[i].range.Pages())
    ensures forall r <- refs :: r.1 != slots[i].generation
  {
    hide Exclusive, Complete;
    SlotFacts(slots[i]);
    forall r | r in refs
      ensures r.1 != slots[i].generation
    {
      if r.1 == slots[i].generation {
        OwnEntry(slots, pte, refs, i, r);
        CoveredPage(slots[i].range, r.0);
      }
    }
  }

  /** An entry of a live mapping's generation lies on one of that mapping's pages. */
  lemma OwnEntry(slots: seq<Slot>, pte: map<nat, Entry>, refs: set<(nat, nat)>, i: nat, r: (nat, nat))
    requires Inv(slots, pte, refs) && i < |slots| && slots[i].state != Free && r in refs && r.1 == slots[i].generation
    ensures slots[i].range.Covers(r.0)
  {
    hide Exclusive, Complete;
    SlotFacts(slots[i]);
    assert Owned(slots, r);
    var j :| 0 <= j < |slots| && Active(slots[j]) && slots[j].generation == r.1 && slots[j].range.Covers(r.0);
  }

  lemma ClearedSlot(slots: seq<Slot>, pte: map<nat, Entry>, refs: set<(nat, nat)>, i: nat)
    requires Inv(slots, pte, refs) && i < |slots| && Active(slots[i]) && slots[i].state == Quarantined
    requires slots[i].users == 0
    requires forall r <- refs :: r.1 != slots[i].generation
    ensures Inv(slots[i := slots[i].(cleared := true)], pte, refs)
  {
    hide EncodeGgtt;
    assert SlotOk(slots[i]);
    var s := slots[i].(cleared := true);
    assert forall k | 0 <= k < |s.backing.pages| :: Expected(s, k) == Expected(slots[i], k);
    SlotChange(slots, pte, refs, i, s);
  }

  /** A write that did not land may only have been seen as not landed. */
  lemma StillSafe(slots: seq<Slot>, pte: map<nat, Entry>, refs: set<(nat, nat)>, i: nat, k: nat, refs': set<(nat, nat)>)
    requires Inv(slots, pte, refs) && i < |slots| && Active(slots[i]) && k < slots[i].range.Pages()
    requires forall r <- refs' :: r in refs || r == (slots[i].range.At(k), slots[i].generation)
    ensures Inv(slots, pte, refs')
  {
    hide EncodeGgtt, Exclusive, Complete;
    SlotFacts(slots[i]);
    PageAddress(slots[i].range, k);
    forall r | r in refs' && r.1 != 0
      ensures Owned(slots, r)
    {
      if r !in refs { assert Active(slots[i]) && slots[i].generation == r.1 && slots[i].range.Covers(r.0); }
    }
  }

  predicate RequestOk(owner: nat, bytes: nat, alignment: nat) {
    owner != 0 && bytes != 0 && bytes % PAGE == 0 && bytes / PAGE <= MAX_PAGES && PAGE <= alignment <= U32 &&
    PowerOfTwo(alignment)
  }

  /** One more mapping, reserved, in a slot that was free, under a generation never used before. */
  predicate Reservation(before: seq<Slot>, serial: nat, owner: nat, r: Range, h: Handle, after: seq<Slot>) {
    && serial != 0 && h.generation == serial && h.slot < |before| && before[h.slot].state == Free
    && (forall j | 0 <= j < h.slot :: before[j].state != Free)
    && after == before[h.slot := EMPTY.(state := Reserved, owner := owner, generation := serial, range := r)]
  }

  lemma SlotsSize(slots: seq<Slot>, pte: map<nat, Entry>, refs: set<(nat, nat)>)
    requires Inv(slots, pte, refs)
    ensures |slots| == MAX_MAPPINGS
  {
  }

  lemma PlacementUsable(slots: seq<Slot>, grants: seq<Range>, g: nat, at: nat, bytes: nat, alignment: nat)
    requires GrantsOk(grants) && g < |grants| && RequestOk(1, bytes, alignment)
    requires Placement(slots, grants[g], at, bytes, alignment)
    ensures ValidRange(Range(at, bytes)) && Inside(Range(at, bytes), grants) && Vacant(slots, at, bytes)
  {
    hide PowerOfTwo;
    assert PowerOfTwo(PAGE) by { PagePower(); }
    PowersDivide(PAGE, alignment);
    MultipleOfMultiple(at, alignment, PAGE);
  }
}
