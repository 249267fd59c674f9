/**
 What the four-level page table means: a finite map from pages to leaf entries, plus a
 budget of table pages. Nothing here mentions slots, words or tree nodes.
 */
module PageTableSpec {
  import opened Arithmetic
  import opened PteFormat

  datatype Status = Ok | Invalid | NoSpace | NotFound | WrongOwner | Busy

  const FAN: nat := 512
  const PAGES: nat := 0x10_0000_0000

  /** The page number with its `j` lowest 9-bit index fields dropped. */
  function Up(page: nat, j: nat): (r: nat)
    ensures r <= page
  {
    if j == 0 then page else Up(page, j - 1) / FAN
  }

  /** The index into the level-`level` table on the path of `page`. */
  function Index(page: nat, level: nat): (r: nat)
    ensures r < FAN
  {
    Up(page, level) % FAN
  }

  /** A table is named by its level and by the index prefix that leads to it. */
  datatype Key = Key(level: nat, prefix: nat)

  const ROOT: Key := Key(3, 0)

  function KeyOf(page: nat, level: nat): Key {
    Key(level, Up(page, level + 1))
  }

  function Child(k: Key, i: nat): Key
    requires 0 < k.level
  {
    Key(k.level - 1, k.prefix * FAN + i)
  }

  /** The page that entry `i` of leaf table `k` maps. */
  function PageOf(k: Key, i: nat): nat {
    k.prefix * FAN + i
  }

  /** Every table that the mapped pages need: the root and one table per distinct prefix. */
  function Tables(pages: set<nat>): set<Key> {
    {ROOT} + (set p | p in pages ::
                KeyOf(p, 2)) + (set p | p in pages :: KeyOf(p, 1)) + (set p | p in pages :: KeyOf(p, 0))
  }

  function PathTables(page: nat): set<Key> {
    {KeyOf(page, 2), KeyOf(page, 1), KeyOf(page, 0)}
  }

  function Missing(pages: set<nat>, page: nat): nat {
    |PathTables(page) - Tables(pages)|
  }

  /** No mapped page is one of the table's own pages. */
  ghost predicate Guarded(m: map<nat, nat>, poolDma: seq<nat>) {
    forall p <- m.Keys :: AddressOf(m[p]) !in poolDma
  }

  lemma EmptyGuarded(poolDma: seq<nat>)
    ensures Guarded(map[], poolDma)
  {
  }

  lemma GuardedAdd(m: map<nat, nat>, poolDma: seq<nat>, page: nat, dma: nat, pat: nat, writable: bool)
    requires Guarded(m, poolDma) && dma !in poolDma && DmaPage(dma) && pat <= 15
    ensures Guarded(m[page := EncodePte4K(dma, pat, writable).value], poolDma)
  {
    hide EncodePte4K, AddressOf;
    PteRoundTrip(dma, pat, writable);
  }

  /** The specification state. `poolDma` are the addresses of the table pages themselves. */
  datatype Spec =
    | Blank
    | Live(owner: nat, tablePat: nat, poolDma: seq<nat>, sealed: bool, m: map<nat, nat>)
  {
    /** What every reachable state satisfies. */
    ghost predicate Wf() {
      Live? ==>
        && |Tables(m.Keys)| <= |poolDma|
        && (forall p <- m.Keys :: p < PAGES)
        && (forall p <- m.Keys :: m[p] % 2 == 1)
        && Guarded(m, poolDma)
    }

    function UsedPages(): nat {
      if Blank? then 0 else |Tables(m.Keys)|
    }

    function Lookup(caller: nat, va: nat): (Status, nat) {
      if Blank? || va % PAGE != 0 then (Invalid, 0)
      else if caller != owner then (WrongOwner, 0)
      else if VA_LIMIT <= va then (Invalid, 0)
      else if va / PAGE in m then (Ok, m[va / PAGE])
      else (NotFound, 0)
    }

    function Map(caller: nat, va: nat, dma: nat, pat: nat, writable: bool): (Status, Spec) {
      if Blank? || va % PAGE != 0 then (Invalid, this)
      else if caller != owner then (WrongOwner, this)
      else if sealed then (Busy, this)
      else
        var pte := EncodePte4K(dma, pat, writable);
        if VA_LIMIT <= va || pte.None? || dma in poolDma then (Invalid, this)
        else if va / PAGE in m then (Busy, this)
        else if Missing(m.Keys, va / PAGE) > |poolDma| - |Tables(m.Keys)| then (NoSpace, this)
        else (Ok, this.(m := m[va / PAGE := pte.value]))
    }

    function Unmap(caller: nat, va: nat): (Status, Spec) {
      if Live? && sealed then (Busy, this)
      else
        var found := Lookup(caller, va).0;
        if found != Ok then (found, this)
        else (Ok, this.(m := m - {va / PAGE}))
    }

    function Seal(caller: nat): (Status, Spec) {
      if Blank? then (Invalid, this)
      else if caller != owner then (WrongOwner, this)
      else (Ok, this.(sealed := true))
    }
  }

  // ---------------------------------------------------------------- prefixes

  lemma UpStep(page: nat, level: nat)
    ensures Up(page, level + 1) * FAN + Index(page, level) == Up(page, level)
  {
    assert Up(page, level + 1) == Up(page, level) / FAN;
  }

  /** Descending by the page's own index follows the page's own path. */
  lemma PathStep(page: nat, level: nat)
    requires 0 < level
    ensures Child(KeyOf(page, level), Index(page, level)) == KeyOf(page, level - 1)
  {
    UpStep(page, level);
  }

  /** A page below the root's span is reached from the root. */
  lemma PathStart(page: nat)
    requires page < PAGES
    ensures KeyOf(page, 3) == ROOT
  {
    assert Up(page, 1) == page / FAN < 0x800_0000;
    assert Up(page, 2) < 0x4_0000;
    assert Up(page, 3) < 0x200;
    assert Up(page, 4) == Up(page, 3) / FAN == 0;
  }

  lemma ChildInjective(a: Key, i: nat, b: Key, j: nat)
    requires 0 < a.level && 0 < b.level && i < FAN && j < FAN
    requires Child(a, i) == Child(b, j)
    ensures a == b && i == j
  {
    assert (a.prefix * FAN + i) / FAN == a.prefix;
    assert (b.prefix * FAN + j) / FAN == b.prefix;
  }

  lemma PageInjective(a: Key, i: nat, b: Key, j: nat)
    requires i < FAN && j < FAN && a.level == b.level && PageOf(a, i) == PageOf(b, j)
    ensures a == b && i == j
  {
    assert PageOf(a, i) / FAN == a.prefix;
    assert PageOf(b, j) / FAN == b.prefix;
  }

  /** A page is entry `Index(page, 0)` of its leaf table, and of no other. */
  lemma PageHome(k: Key, i: nat)
    requires k.level == 0 && i < FAN
    ensures KeyOf(PageOf(k, i), 0) == k && Index(PageOf(k, i), 0) == i
  {
    var p := PageOf(k, i);
    UpStep(p, 0);
    PageInjective(KeyOf(p, 0), Index(p, 0), k, i);
  }

  // ------------------------------------------------------------ needed tables

  lemma InTables(pages: set<nat>, k: Key)
    ensures k in Tables(pages) <==> k == ROOT || (k.level < 3 && exists p :: p in pages && KeyOf(p, k.level) == k)
  {
    if k.level < 3 && exists p :: p in pages && KeyOf(p, k.level) == k {
      var p :| p in pages && KeyOf(p, k.level) == k;
      assert k.level == 0 || k.level == 1 || k.level == 2;
    }
  }

  lemma TablesOfPage(pages: set<nat>, p: nat, level: nat)
    requires p in pages && level < 3
    ensures KeyOf(p, level) in Tables(pages)
  {
    InTables(pages, KeyOf(p, level));
  }

  /** The parent of a needed table is needed. */
  lemma ParentNeeded(pages: set<nat>, k: Key, i: nat)
    requires 0 < k.level <= 3 && i < FAN && Child(k, i) in Tables(pages)
    requires forall p <- pages :: p < PAGES
    ensures k in Tables(pages)
  {
    InTables(pages, Child(k, i));
    var p :| p in pages && KeyOf(p, k.level - 1) == Child(k, i);
    PathStep(p, k.level);
    ChildInjective(KeyOf(p, k.level), Index(p, k.level), k, i);
    if k.level == 3 { PathStart(p); } else { TablesOfPage(pages, p, k.level); }
  }

  lemma TablesGrow(pages: set<nat>, page: nat)
    ensures Tables(pages + {page}) == Tables(pages) + PathTables(page)
  {
    forall k
      ensures k in Tables(pages + {page}) <==> k in Tables(pages) + PathTables(page)
    {
      InTables(pages, k);
      InTables(pages + {page}, k);
      if k.level < 3 && k in Tables(pages) {
        var p :| p in pages && KeyOf(p, k.level) == k;
        assert p in pages + {page};
      }
      if k in PathTables(page) {
        assert page in pages + {page} && KeyOf(page, k.level) == k;
      }
    }
  }

  // ---------------------------------------------------------------- every run

  datatype Op =
    | MapOp(caller: nat, va: nat, dma: nat, pat: nat, writable: bool)
    | UnmapOp(caller: nat, va: nat)
    | SealOp(caller: nat)

  function Step(s: Spec, op: Op): (Status, Spec) {
    match op
    case MapOp(caller, va, dma, pat, writable) => s.Map(caller, va, dma, pat, writable)
    case UnmapOp(caller, va) => s.Unmap(caller, va)
    case SealOp(caller) => s.Seal(caller)
  }

  function Run(s: Spec, ops: seq<Op>): Spec {
    if ops == [] then s else Step(Run(s, ops[..|ops| - 1]), ops[|ops| - 1]).1
  }

  /** A failing call changes neither the map nor the accounting. */
  lemma FailureChangesNothing(s: Spec, op: Op)
    ensures Step(s, op).0 != Ok ==> Step(s, op).1 == s
  {
  }

  /** A caller that is not the owner reads nothing and changes nothing, in any run. */
  lemma {:induction false} StrangersChangeNothing(s: Spec, ops: seq<Op>)
    requires s.Live? && forall op <- ops :: op.caller != s.owner
    ensures Run(s, ops) == s
    ensures forall caller: nat, va: nat | caller != s.owner :: s.Lookup(caller, va).0 != Ok
  {
    hide Tables, Missing, EncodePte4K;
    if ops != [] {
      var n := |ops| - 1;
      StrangersChangeNothing(s, ops[..n]);
      assert ops[n] in ops;
    }
  }

  lemma StepKeepsWf(s: Spec, op: Op)
    requires s.Wf()
    ensures Step(s, op).1.Wf()
  {
    hide Tables, PathTables, EncodePte4K, AddressOf;
    var s' := Step(s, op).1;
    if s.Live? && s'.m != s.m {
      var page := op.va / PAGE;
      if op.MapOp? {
        TablesGrow(s.m.Keys, page);
        assert s'.m.Keys == s.m.Keys + {page};
        PtePresent(op.dma, op.pat, op.writable);
        GuardedAdd(s.m, s.poolDma, page, op.dma, op.pat, op.writable);
        GrowSize(s.m.Keys, page);
      } else {
        TablesGrow(s'.m.Keys, page);
        assert s'.m.Keys + {page} == s.m.Keys;
        SubsetCard(Tables(s'.m.Keys), Tables(s.m.Keys));
      }
    }
  }

  lemma UnionSize<T>(a: set<T>, b: set<T>)
    ensures |a + b| == |a| + |b - a|
  {
    assert a + b == a + (b - a);
  }

  /** Mapping a page costs exactly the tables missing on its path. */
  lemma GrowSize(pages: set<nat>, page: nat)
    ensures |Tables(pages + {page})| == |Tables(pages)| + Missing(pages, page)
  {
    TablesGrow(pages, page);
    UnionSize(Tables(pages), PathTables(page));
  }

  lemma {:induction false} RunKeepsWf(s: Spec, ops: seq<Op>)
    requires s.Wf()
    ensures Run(s, ops).Wf()
  {
    if ops != [] {
      RunKeepsWf(s, ops[..|ops| - 1]);
      StepKeepsWf(Run(s, ops[..|ops| - 1]), ops[|ops| - 1]);
    }
  }

  ghost predicate Touches(op: Op, va: nat) {
    !op.SealOp? && op.va == va
  }

  lemma StepElsewhere(s: Spec, op: Op, caller: nat, va: nat)
    requires !Touches(op, va)
    ensures Step(s, op).1.Lookup(caller, va) == s.Lookup(caller, va)
  {
    hide Tables, PathTables, EncodePte4K;
    if !op.SealOp? && Step(s, op).0 == Ok && va % PAGE == 0 {
      assert op.va / PAGE * PAGE == op.va && va / PAGE * PAGE == va;
    }
  }

  /** In every run, a lookup is decided by the calls that named its own address. */
  lemma {:induction false} RunElsewhere(s: Spec, ops: seq<Op>, caller: nat, va: nat)
    requires forall op <- ops :: !Touches(op, va)
    ensures Run(s, ops).Lookup(caller, va) == s.Lookup(caller, va)
  {
    if ops != [] {
      RunElsewhere(s, ops[..|ops| - 1], caller, va);
      assert ops[|ops| - 1] in ops;
      StepElsewhere(Run(s, ops[..|ops| - 1]), ops[|ops| - 1], caller, va);
    }
  }

  lemma {:induction false} RunAppend(s: Spec, before: seq<Op>, after: seq<Op>)
    ensures Run(s, before + after) == Run(Run(s, before), after)
  {
    if after == [] {
      assert before + after == before;
    } else {
      var n := |after| - 1;
      assert (before + after)[..|before + after| - 1] == before + after[..n];
      RunAppend(s, before, after[..n]);
    }
  }

  /** In every run, a lookup returns the entry of the last accepted map of that address,
      whatever happened before it and to other addresses after it. */
  lemma LastMapWins(s: Spec, before: seq<Op>, op: Op, after: seq<Op>)
    requires op.MapOp? && Step(Run(s, before), op).0 == Ok
    requires forall o <- after :: !Touches(o, op.va)
    ensures Run(s, before + [op] + after).Lookup(op.caller, op.va) ==
              (Ok, EncodePte4K(op.dma, op.pat, op.writable).value)
  {
    RunAppend(s, before + [op], after);
    RunAppend(s, before, [op]);
    assert Run(Run(s, before), [op]) == Step(Run(Run(s, before), []), op).1;
    RunElsewhere(Run(s, before + [op]), after, op.caller, op.va);
  }

  /** In every run, an address whose last accepted call was an unmap is not found. */
  lemma LastUnmapWins(s: Spec, before: seq<Op>, op: Op, after: seq<Op>)
    requires op.UnmapOp? && Step(Run(s, before), op).0 == Ok
    requires forall o <- after :: !Touches(o, op.va)
    ensures Run(s, before + [op] + after).Lookup(op.caller, op.va).0 == NotFound
  {
    RunAppend(s, before + [op], after);
    RunAppend(s, before, [op]);
    assert Run(Run(s, before), [op]) == Step(Run(Run(s, before), []), op).1;
    RunElsewhere(Run(s, before + [op]), after, op.caller, op.va);
  }

  /** Unmapping a new mapping restores the state, and with it the page accounting. */
  lemma UnmapUndoesMap(s: Spec, caller: nat, va: nat, dma: nat, pat: nat, writable: bool)
    requires s.Map(caller, va, dma, pat, writable).0 == Ok
    ensures s.Map(caller, va, dma, pat, writable).1.Unmap(caller, va) == (Ok, s)
  {
    hide Tables, PathTables, EncodePte4K;
    var s' := s.Map(caller, va, dma, pat, writable).1;
    assert s'.m - {va / PAGE} == s.m;
  }

  /** Once sealed, always sealed with the same map. */
  lemma {:induction false} SealedForever(s: Spec, ops: seq<Op>)
    requires s.Live? && s.sealed
    ensures Run(s, ops) == s
  {
    if ops != [] {
      SealedForever(s, ops[..|ops| - 1]);
    }
  }
}
