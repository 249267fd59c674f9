/**
 The values of the GGTT manager: address ranges, mapping slots, page-table entries tagged
 with the mapping that wrote them, and the invariant that ties the three together.
 */
module GgttModel {
  import opened Arithmetic
  import opened PteFormat

  const MAX_RANGES: nat := 32
  const MAX_MAPPINGS: nat := 64
  const MAX_PAGES: nat := 16384

  datatype Status = Ok | Invalid | WrongOwner | WrongEpoch | NotFound | NoSpace | Busy | Unavailable | Io | Quarantine
  datatype State = Free | Reserved | Published | Quarantined

  datatype Range = Range(address: nat, bytes: nat)
  {
    function End(): nat { address + bytes }
    function Pages(): nat { bytes / PAGE }
    function At(page: nat): nat { address + page * PAGE }
    predicate Covers(a: nat) { address <= a < address + bytes && (a - address) % PAGE == 0 }
  }

  predicate ValidRange(r: Range) {
    r.bytes > 0 && r.address % PAGE == 0 && r.bytes % PAGE == 0 && r.End() <= U32
  }

  predicate Overlap(a: Range, b: Range) {
    a.address < b.End() && b.address < a.End()
  }

  /** What a mapping points at: a pinned allocation with its DMA pages. */
  datatype Backing = Backing(identity: nat, cookie: nat, cpu: nat, list: nat, pages: seq<nat>)

  const NO_BACKING: Backing := Backing(0, 0, 0, 0, [])

  datatype Handle = Handle(slot: nat, generation: nat)

  datatype Slot = Slot(state: State, owner: nat, generation: nat, range: Range, backing: Backing, pat: nat, users: nat,
                       held: bool, touched: bool, cleared: bool)

  const EMPTY: Slot := Slot(Free, 0, 0, Range(0, 0), NO_BACKING, 0, 0, false, false, false)

  /** A page-table entry and the generation of the mapping that wrote it; 0 stands for
      whatever was there before the manager. */
  datatype Entry = Entry(value: nat, src: nat)

  function At(pte: map<nat, Entry>, a: nat): Entry {
    if a in pte then pte[a] else Entry(0, 0)
  }

  /** The value publish wants in page `k` of a mapping. */
  function Expected(s: Slot, k: nat): Option<nat>
    requires k < |s.backing.pages|
  {
    EncodeGgtt(s.backing.pages[k], s.pat)
  }

  /** The mapping's entries may be in the table or cached. */
  predicate Active(s: Slot) {
    s.state != Free && s.touched && !s.cleared
  }

  predicate SlotOk(s: Slot) {
    if s.state == Free then s == EMPTY
    else
      && 0 < s.generation < U64 && ValidRange(s.range) && s.range.Pages() <= MAX_PAGES
      && (s.state == Reserved ==> !s.held && s.users == 0)
      && (s.state == Published ==> Active(s))
      && (s.touched ==> s.held) && (s.cleared ==> s.touched)
      && (s.held ==> |s.backing.pages| == s.range.Pages() && s.pat <= 3)
      && (s.touched ==> forall k | 0 <= k < |s.backing.pages| :: Expected(s, k).Some?)
      && (s.users > 0 ==> Active(s))
  }

  /** Every entry, in the table or cached, that some mapping wrote belongs to an active
      mapping of that generation whose range holds its address: its backing is held. */
  ghost predicate Owned(slots: seq<Slot>, r: (nat, nat)) {
    exists i :: 0 <= i < |slots| && Active(slots[i]) && slots[i].generation == r.1 && slots[i].range.Covers(r.0)
  }

  ghost predicate Safe(slots: seq<Slot>, refs: set<(nat, nat)>) {
    forall r <- refs :: r.1 != 0 ==> Owned(slots, r)
  }

  /** The table under an active mapping holds only its own entries or zeros. */
  ghost predicate Exclusive(s: Slot, pte: map<nat, Entry>) {
    Active(s) ==> forall k | 0 <= k < s.range.Pages() ::
      At(pte, s.range.At(k)).value == 0 || At(pte, s.range.At(k)).src == s.generation
  }

  /** A published mapping is exactly what its backing says. */
  ghost predicate Complete(s: Slot, pte: map<nat, Entry>) {
    s.state == Published && SlotOk(s) ==>
      forall k | 0 <= k < |s.backing.pages| :: At(pte, s.range.At(k)) == Entry(Expected(s, k).value, s.generation)
  }

  ghost predicate Apart(a: Slot, b: Slot) {
    a.state != Free && b.state != Free ==> !Overlap(a.range, b.range) && a.generation != b.generation
  }

  ghost predicate Inv(slots: seq<Slot>, pte: map<nat, Entry>, refs: set<(nat, nat)>) {
    && |slots| == MAX_MAPPINGS
    && (forall i | 0 <= i < |slots| :: SlotOk(slots[i]) && Exclusive(slots[i], pte) && Complete(slots[i], pte))
    && (forall i, j | 0 <= i < j < |slots| :: Apart(slots[i], slots[j]))
    && Safe(slots, refs)
  }

  // ------------------------------------------------------------ one slot changes

  /** A slot may change in any way that keeps its own facts and, if it stops being
      active, leaves no entry of its generation behind. */
  lemma SlotChange(slots: seq<Slot>, pte: map<nat, Entry>, refs: set<(nat, nat)>, i: nat, s: Slot)
    requires Inv(slots, pte, refs) && i < |slots|
    requires SlotOk(s) && Exclusive(s, pte) && Complete(s, pte)
    requires s.state != Free ==>
              slots[i].state != Free && s.generation == slots[i].generation && s.range == slots[i].range
    requires Active(slots[i]) && !Active(s) ==> forall r <- refs :: r.1 != slots[i].generation
    ensures Inv(slots[i := s], pte, refs)
  {
    hide EncodeGgtt, SlotOk, Exclusive, Complete;
    var u := slots[i := s];
    forall a, b | 0 <= a < b < |u| ensures Apart(u[a], u[b]) { assert Apart(slots[a], slots[b]); }
    forall r | r in refs && r.1 != 0
      ensures Owned(u, r)
    {
      var j :| 0 <= j < |slots| && Active(slots[j]) && slots[j].generation == r.1 && slots[j].range.Covers(r.0);
      assert Active(u[j]) && u[j].generation == r.1 && u[j].range.Covers(r.0);
    }
  }

  /** A fresh reservation in a free slot. */
  lemma SlotReserve(slots: seq<Slot>, pte: map<nat, Entry>, refs: set<(nat, nat)>, i: nat, s: Slot)
    requires Inv(slots, pte, refs) && i < |slots| && slots[i].state == Free
    requires SlotOk(s) && s.state == Reserved
    requires forall j | 0 <= j < |slots| && slots[j].state != Free ::
              !Overlap(s.range, slots[j].range) && s.generation != slots[j].generation
    ensures Inv(slots[i := s], pte, refs)
  {
    hide EncodeGgtt;
    var u := slots[i := s];
    forall a, b | 0 <= a < b < |u| ensures Apart(u[a], u[b]) { assert Apart(slots[a], slots[b]); }
    forall r | r in refs && r.1 != 0
      ensures Owned(u, r)
    {
      var j :| 0 <= j < |slots| && Active(slots[j]) && slots[j].generation == r.1 && slots[j].range.Covers(r.0);
      assert j != i;
      assert Active(u[j]) && u[j].generation == r.1 && u[j].range.Covers(r.0);
    }
  }

  // ------------------------------------------------------------ one entry changes

  lemma PageAddress(r: Range, k: nat)
    requires ValidRange(r) && k < r.Pages()
    ensures r.Covers(r.At(k)) && (r.At(k) - r.address) / PAGE == k
  {
    assert r.bytes == r.Pages() * PAGE;
    assert k * PAGE + PAGE <= r.bytes;
    DivMod(k, 0, PAGE);
  }

  lemma CoveredPage(r: Range, a: nat)
    requires ValidRange(r) && r.Covers(a)
    ensures (a - r.address) / PAGE < r.Pages() && r.At((a - r.address) / PAGE) == a
  {
    assert r.bytes == r.Pages() * PAGE;
    assert a - r.address == (a - r.address) / PAGE * PAGE;
  }

  /** Writing one's own entry, or a zero, under an active mapping disturbs nobody. */
  lemma EntryChange(slots: seq<Slot>, pte: map<nat, Entry>, refs: set<(nat, nat)>, i: nat, k: nat, e: Entry,
                    refs': set<(nat, nat)>)
    requires Inv(slots, pte, refs) && i < |slots| && Active(slots[i]) && slots[i].state != Published
    requires k < slots[i].range.Pages()
    requires e.value == 0 || e.src == slots[i].generation
    requires forall r <- refs' :: r in refs || (r == (slots[i].range.At(k), e.src) && e.src == slots[i].generation)
    ensures Inv(slots, pte[slots[i].range.At(k) := e], refs')
  {
    hide EncodeGgtt, SlotOk;
    var a := slots[i].range.At(k);
    var pte' := pte[a := e];
    assert ValidRange(slots[i].range) by { SlotFacts(slots[i]); }
    PageAddress(slots[i].range, k);
    forall j | 0 <= j < |slots|
      ensures SlotOk(slots[j]) && Exclusive(slots[j], pte') && Complete(slots[j], pte')
    {
      assert SlotOk(slots[j]) && Exclusive(slots[j], pte) && Complete(slots[j], pte);
      if j == i {
        forall n | 0 <= n < slots[i].range.Pages()
          ensures At(pte', slots[i].range.At(n)).value == 0 || At(pte', slots[i].range.At(n)).src == slots[i].generation
        {
          assert At(pte, slots[i].range.At(n)).value == 0 || At(pte, slots[i].range.At(n)).src == slots[i].generation;
        }
      } else if slots[j].state != Free {
        assert if i < j then Apart(slots[i], slots[j]) else Apart(slots[j], slots[i]);
        SlotFacts(slots[j]);
        forall n | 0 <= n < slots[j].range.Pages()
          ensures At(pte', slots[j].range.At(n)) == At(pte, slots[j].range.At(n))
        {
          PageAddress(slots[j].range, n);
        }
      }
    }
    forall r | r in refs' && r.1 != 0
      ensures Owned(slots, r)
    {
      if r !in refs {
        assert Active(slots[i]) && slots[i].generation == r.1 && slots[i].range.Covers(r.0);
      }
    }
  }

  lemma SlotFacts(s: Slot)
    requires SlotOk(s) && s.state != Free
    ensures 0 < s.generation && ValidRange(s.range) && 0 < s.range.Pages() <= MAX_PAGES
    ensures s.held ==> |s.backing.pages| == s.range.Pages() && s.pat <= 3
    ensures s.touched ==> s.held
    ensures s.state == Published ==> Active(s)
  {
  }

  lemma FewerRefs(slots: seq<Slot>, pte: map<nat, Entry>, refs: set<(nat, nat)>, refs': set<(nat, nat)>)
    requires Inv(slots, pte, refs) && refs' <= refs
    ensures Inv(slots, pte, refs')
  {
    hide SlotOk, Exclusive, Complete;
  }

  /** No entry of an inactive mapping is left anywhere. */
  lemma InactiveHasNoEntries(slots: seq<Slot>, pte: map<nat, Entry>, refs: set<(nat, nat)>, i: nat)
    requires Inv(slots, pte, refs) && i < |slots| && slots[i].state != Free && !Active(slots[i])
    ensures forall r <- refs :: r.1 != slots[i].generation
  {
    hide Exclusive, Complete;
    SlotFacts(slots[i]);
  }
}
