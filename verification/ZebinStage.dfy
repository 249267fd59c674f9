/**
 XeZebin::Image::stage: relocations of a parsed image planned in full, then the segments written.
 */
module ZebinStage {
  import opened Arithmetic
  import opened PteFormat
  import opened ZebinBytes
  import opened ZebinMemory

  datatype Error = Fine | Unsupported | Relocation | UnresolvedSymbol | InvalidBinding

  datatype Segment = Segment(section: nat, fileOffset: nat, bytes: nat, alignment: nat, executable: bool,
                             zeroInit: bool)
  datatype Symbol = Symbol(name: string, section: nat, value: nat, bytes: nat)
  datatype Entry = Entry(offset: nat, kind: nat, symbol: nat, addend: nat)
  /** A REL or RELA section: the section it patches, whether it names the symbol table, and its entries. */
  datatype Relocations = Relocations(rela: bool, section: nat, linked: bool, entries: seq<Entry>)

  /** What parsing leaves: `data` is the file, which stays at `at`; `cross` and `inlined` are payload sizes,
      `text` the code segment, `skip` the second entry point. */
  datatype Image = Image(at: nat, data: seq<Byte>, segments: seq<Segment>, symbols: seq<Symbol>,
                         relocations: seq<Relocations>,
                         text: nat, cross: nat, inlined: nat, skip: nat)

  const MAX_SEGMENTS: nat := 8
  const MAX_RELOCATIONS: nat := 64
  const ABSOLUTE: nat := 0xfff1
  const CROSS_THREAD: string := "__INTEL_PATCH_CROSS_THREAD_OFFSET_OFF_R0"
  const PER_THREAD: string := "__INTEL_PER_THREAD_OFF"

  /** What parsing has checked. */
  predicate Parsed(im: Image) {
    && 0 < |im.segments| <= MAX_SEGMENTS && im.text < |im.segments| && im.inlined <= im.cross < U32
    && im.at + |im.data| <= U64
    && (forall s <- im.segments ::
          0 < s.bytes && s.alignment > 0 && (s.executable ==> !s.zeroInit) &&
          (!s.zeroInit ==> s.fileOffset + s.bytes <= |im.data|))
    && (forall s <- im.symbols :: s.value < U64 && s.bytes < U64)
    && (forall r <- im.relocations :: forall e <- r.entries :: e.offset < U64 && e.addend < U64)
  }

  /** The first segment made from a section. */
  function SegmentFor(segments: seq<Segment>, section: nat): (i: nat)
    ensures i <= |segments| && (i < |segments| ==> segments[i].section == section)
    ensures forall j | 0 <= j < i :: segments[j].section != section
  {
    if segments == [] || segments[0].section == section then 0 else 1 + SegmentFor(segments[1..], section)
  }

  /** The bytes a segment starts with. */
  function Initial(im: Image, i: nat): (s: seq<Byte>)
    requires Parsed(im) && i < |im.segments|
    ensures |s| == im.segments[i].bytes
  {
    var s := im.segments[i];
    if s.zeroInit then seq(s.bytes, _ => 0) else im.data[s.fileOffset..s.fileOffset + s.bytes]
  }

  // ------------------------------------------------------------ one relocation

  datatype Result<T> = Ok(value: T) | Err(error: Error)
  datatype Base = Base(value: nat, special: bool)

  function Width(kind: nat): nat {
    if kind == 1 then 8 else 4
  }

  /** The value a relocation's symbol stands for. */
  function BaseOf(im: Image, addresses: seq<nat>, target: nat, e: Entry): (r: Result<Base>)
    requires Parsed(im) && |addresses| == |im.segments| && target < |im.segments|
    requires e.symbol < |im.symbols| && Range(e.offset, Width(e.kind), im.segments[target].bytes)
    ensures r.Err? ==> r.error != Fine
  {
    var sym := im.symbols[e.symbol];
    var segment := im.segments[target];
    if sym.section == 0 && sym.name == CROSS_THREAD then
      if !segment.executable || e.kind != 2 ||
         Value(Initial(im, target)[e.offset..e.offset + 4]) != 0 then Err(Relocation) else Ok(Base(0, true))
    else if e.kind == 4 || (sym.section == 0 && sym.name == PER_THREAD) then
      if !segment.executable || e.kind == 1 || e.kind == 3 then Err(Relocation)
        else Ok(Base(im.cross - im.inlined, true))
    else if sym.section == ABSOLUTE then Ok(Base(sym.value, false))
    else
      var from := SegmentFor(im.segments, sym.section);
      if from == |im.segments| then Err(UnresolvedSymbol)
      else if !Range(sym.value, sym.bytes, im.segments[from].bytes) then Err(Relocation)
      else Ok(Base(addresses[from] + sym.value, false))
  }

  /** Adds a two's complement addend, refusing a result outside 64 bits. */
  function AddAddend(value: nat, raw: nat): Result<nat> {
    if raw >= U64 / 2 then
      var magnitude := U64 - raw;
      if magnitude > value then Err(Relocation) else Ok(value - magnitude)
    else if raw > U64 - 1 - value then Err(Relocation) else Ok(value + raw)
  }

  function Signed(raw: nat): int {
    if raw >= U64 / 2 then raw - U64 else raw
  }

  /** The sum is exact, and refused exactly when it does not fit. */
  lemma AddendExact(value: nat, raw: nat)
    requires value < U64 && raw < U64
    ensures var sum := value + Signed(raw); AddAddend(value, raw) == if 0 <= sum < U64 then Ok(sum) else Err(Relocation)
  {
  }

  function Part(kind: nat, value: nat): nat {
    if kind == 2 then value % U32 else if kind == 3 then value / U32 else value
  }

  datatype Fix = Fix(segment: nat, offset: nat, value: nat, width: nat)

  predicate FixOk(im: Image, f: Fix) {
    f.segment < |im.segments| && f.width in {4, 8} && f.offset + f.width <= im.segments[f.segment].bytes
  }

  /** What one relocation writes. Data keeps what was there and adds; code is replaced. */
  function Resolve(im: Image, addresses: seq<nat>, target: nat, rela: bool, e: Entry): (r: Result<Fix>)
    requires Parsed(im) && |addresses| == |im.segments| && target < |im.segments|
    ensures r.Err? ==> r.error != Fine
    ensures r.Ok? ==>
              FixOk(im, r.value) && r.value.segment == target && r.value.offset == e.offset &&
              r.value.width == Width(e.kind)
  {
    if e.kind > 4 || e.symbol >= |im.symbols| ||
       !Range(e.offset, Width(e.kind), im.segments[target].bytes) then Err(Relocation)
    else
      match BaseOf(im, addresses, target, e)
      case Err(x) => Err(x)
      case Ok(base) =>
        if rela && base.special && e.addend != 0 then Err(Unsupported)
        else
          match (if rela then AddAddend(base.value, e.addend) else Ok(base.value))
          case Err(x) => Err(x)
          case Ok(value) =>
            var data := !im.segments[target].executable && !im.segments[target].zeroInit;
            var before := if data then Value(Initial(im, target)[e.offset..e.offset + Width(e.kind)]) else 0;
            Ok(Fix(target, e.offset, (Part(e.kind, value) + before) % U64, Width(e.kind)))
  }

  // ------------------------------------------------------------ all relocations

  /** The fixes of one section's entries, in order. */
  function Fixes(im: Image, addresses: seq<nat>, target: nat, rela: bool, entries: seq<Entry>): (r: Result<seq<Fix>>)
    requires Parsed(im) && |addresses| == |im.segments| && target < |im.segments|
  {
    if entries == [] then Ok([])
    else
      var rest, e := Fixes(im, addresses, target, rela, entries[..|entries| - 1]), entries[|entries| - 1];
      if rest.Err? || e.kind == 0 then rest
      else
        match Resolve(im, addresses, target, rela, e)
        case Err(x) => Err(x)
        case Ok(f) => Ok(rest.value + [f])
  }

  function SectionFixes(im: Image, addresses: seq<nat>, r: Relocations): Result<seq<Fix>>
    requires Parsed(im) && |addresses| == |im.segments|
  {
    var target := SegmentFor(im.segments, r.section);
    if target == |im.segments| || !r.linked then Err(Unsupported) else Fixes(im, addresses, target, r.rela, r.entries)
  }

  function AllFixes(im: Image, addresses: seq<nat>, rs: seq<Relocations>): Result<seq<Fix>>
    requires Parsed(im) && |addresses| == |im.segments|
  {
    if rs == [] then Ok([])
    else
      var rest := AllFixes(im, addresses, rs[..|rs| - 1]);
      if rest.Err? then rest
      else
        match SectionFixes(im, addresses, rs[|rs| - 1])
        case Err(x) => Err(x)
        case Ok(fs) => Ok(rest.value + fs)
  }

  predicate Clash(f: Fix, g: Fix) {
    f.segment == g.segment && f.offset < g.offset + g.width && g.offset < f.offset + f.width
  }

  /** Few enough, and no two in each other's way. */
  predicate Tidy(fs: seq<Fix>) {
    |fs| <= MAX_RELOCATIONS && forall i, j | 0 <= i < j < |fs| :: !Clash(fs[i], fs[j])
  }

  predicate Plannable(im: Image, addresses: seq<nat>)
    requires Parsed(im) && |addresses| == |im.segments|
  {
    var all := AllFixes(im, addresses, im.relocations);
    all.Ok? && Tidy(all.value)
  }

  /** A refused beginning makes the whole refused; an accepted whole has accepted beginnings. */
  lemma {:induction false} FixesPrefix(im: Image, addresses: seq<nat>, target: nat, rela: bool, entries: seq<Entry>,
                                       k: nat)
    requires Parsed(im) && |addresses| == |im.segments| && target < |im.segments| && k <= |entries|
    ensures var whole, part :=
              Fixes(im, addresses, target, rela, entries), Fixes(im, addresses, target, rela, entries[..k]);
            whole.Ok? ==> part.Ok? && part.value <= whole.value
  {
    hide Resolve, Parsed;
    if k == |entries| {
      assert entries[..k] == entries;
    } else {
      FixesPrefix(im, addresses, target, rela, entries[..|entries| - 1], k);
      assert entries[..|entries| - 1][..k] == entries[..k];
    }
  }

  lemma {:induction false} AllPrefix(im: Image, addresses: seq<nat>, rs: seq<Relocations>, k: nat)
    requires Parsed(im) && |addresses| == |im.segments| && k <= |rs|
    ensures var whole, part := AllFixes(im, addresses, rs), AllFixes(im, addresses, rs[..k]);
            whole.Ok? ==> part.Ok? && part.value <= whole.value
  {
    hide SectionFixes, Parsed;
    if k == |rs| {
      assert rs[..k] == rs;
    } else {
      AllPrefix(im, addresses, rs[..|rs| - 1], k);
      assert rs[..|rs| - 1][..k] == rs[..k];
    }
  }

  lemma TidyPrefix(a: seq<Fix>, b: seq<Fix>)
    requires a <= b && Tidy(b)
    ensures Tidy(a)
  {
  }

  // ------------------------------------------------------------ planning

  method FindClash(fixes: seq<Fix>, f: Fix) returns (clash: bool)
    ensures clash <==> exists j | 0 <= j < |fixes| :: Clash(f, fixes[j])
  {
    for j := 0 to |fixes|
      invariant forall i | 0 <= i < j :: !Clash(f, fixes[i])
    {
      if Clash(f, fixes[j]) { return true; }
    }
    return false;
  }

  lemma TidyOne(fixes: seq<Fix>, f: Fix, clash: bool)
    requires Tidy(fixes) && (clash <==> exists j | 0 <= j < |fixes| :: Clash(f, fixes[j]))
    ensures |fixes| <= MAX_RELOCATIONS && (Tidy(fixes + [f]) <==> |fixes| < MAX_RELOCATIONS && !clash)
  {
    if clash && |fixes| < MAX_RELOCATIONS {
      var j :| 0 <= j < |fixes| && Clash(f, fixes[j]);
      var all := fixes + [f];
      assert Clash(all[j], all[|fixes|]);
    }
  }

  /** Plans one section behind what is planned already. */
  method PlanSection(im: Image, addresses: seq<nat>, target: nat, rela: bool, entries: seq<Entry>, done: seq<Fix>)
    returns (error: Error, fixes: seq<Fix>)
    requires Parsed(im) && |addresses| == |im.segments| && target < |im.segments| && Tidy(done)
    ensures var mine := Fixes(im, addresses, target, rela, entries);
            if error == Fine then mine.Ok? && fixes == done + mine.value && Tidy(fixes)
              else mine.Err? || !Tidy(done + mine.value)
  {
    hide Resolve, Parsed, Tidy, Fixes;
    fixes := done;
    ghost var mine: seq<Fix> := [];
    NoFixes(im, addresses, target, rela);
    for i := 0 to |entries|
      invariant Fixes(im, addresses, target, rela, entries[..i]) == Ok(mine) && fixes == done + mine && Tidy(fixes)
    {
      var e := entries[i];
      FixesPrefix(im, addresses, target, rela, entries, i + 1);
      NextFix(im, addresses, target, rela, entries, i);
      if e.kind != 0 {
        var r := Resolve(im, addresses, target, rela, e);
        if r.Err? { return r.error, fixes; }
        var clash := FindClash(fixes, r.value);
        TidyOne(fixes, r.value, clash);
        assert done + (mine + [r.value]) == fixes + [r.value];
        if |fixes| == MAX_RELOCATIONS || clash {
          Untidy(im, addresses, target, rela, entries, done, mine + [r.value]);
          return Relocation, fixes;
        }
        fixes, mine := fixes + [r.value], mine + [r.value];
      }
    }
    assert entries[..|entries|] == entries;
    return Fine, fixes;
  }

  lemma NoFixes(im: Image, addresses: seq<nat>, target: nat, rela: bool)
    requires Parsed(im) && |addresses| == |im.segments| && target < |im.segments|
    ensures Fixes(im, addresses, target, rela, []) == Ok([])
  {
  }

  lemma NextFix(im: Image, addresses: seq<nat>, target: nat, rela: bool, entries: seq<Entry>, i: nat)
    requires Parsed(im) && |addresses| == |im.segments| && target < |im.segments| && i < |entries|
    requires Fixes(im, addresses, target, rela, entries[..i]).Ok?
    ensures var r := Resolve(im, addresses, target, rela, entries[i]);
            Fixes(im, addresses, target, rela, entries[..i + 1]) ==
            if entries[i].kind == 0 then Fixes(im, addresses, target, rela, entries[..i])
            else if r.Err? then Err(r.error) else Ok(Fixes(im, addresses, target, rela, entries[..i]).value + [r.value])
  {
    hide Resolve, Parsed;
    assert entries[..i + 1][..i] == entries[..i];
  }

  lemma Untidy(im: Image, addresses: seq<nat>, target: nat, rela: bool, entries: seq<Entry>, done: seq<Fix>,
               part: seq<Fix>)
    requires Parsed(im) && |addresses| == |im.segments| && target < |im.segments| && !Tidy(done + part)
    requires var whole := Fixes(im, addresses, target, rela, entries); whole.Ok? ==> part <= whole.value
    ensures var whole := Fixes(im, addresses, target, rela, entries); whole.Ok? ==> !Tidy(done + whole.value)
  {
    hide Fixes, Parsed, Tidy;
    var whole := Fixes(im, addresses, target, rela, entries);
    if whole.Ok? && Tidy(done + whole.value) {
      assert done + part <= done + whole.value;
      TidyPrefix(done + part, done + whole.value);
      assert false;
    }
  }

  /** Plans every relocation before anything is written. */
  method Plan(im: Image, addresses: seq<nat>) returns (error: Error, fixes: seq<Fix>)
    requires Parsed(im) && |addresses| == |im.segments|
    ensures error == Fine <==> Plannable(im, addresses)
    ensures error == Fine ==> Ok(fixes) == AllFixes(im, addresses, im.relocations)
  {
    hide Parsed, Tidy, Fixes, AllFixes;
    var rs := im.relocations;
    fixes := [];
    NoneAll(im, addresses);
    for i := 0 to |rs|
      invariant AllFixes(im, addresses, rs[..i]) == Ok(fixes) && Tidy(fixes)
    {
      AllPrefix(im, addresses, rs, i + 1);
      NextSection(im, addresses, rs, i);
      var target := SegmentFor(im.segments, rs[i].section);
      if target == |im.segments| || !rs[i].linked { return Unsupported, fixes; }
      var before := fixes;
      error, fixes := PlanSection(im, addresses, target, rs[i].rela, rs[i].entries, before);
      if error != Fine {
        Refuse(im, addresses, i);
        return;
      }
    }
    assert rs[..|rs|] == rs;
    return Fine, fixes;
  }

  lemma NoneAll(im: Image, addresses: seq<nat>)
    requires Parsed(im) && |addresses| == |im.segments|
    ensures AllFixes(im, addresses, im.relocations[..0]) == Ok([]) && Tidy([])
  {
  }

  lemma NextSection(im: Image, addresses: seq<nat>, rs: seq<Relocations>, i: nat)
    requires Parsed(im) && |addresses| == |im.segments| && i < |rs| && AllFixes(im, addresses, rs[..i]).Ok?
    ensures var r := SectionFixes(im, addresses, rs[i]);
            AllFixes(im, addresses, rs[..i + 1]) == if r.Err? then Err(r.error)
              else Ok(AllFixes(im, addresses, rs[..i]).value + r.value)
  {
    hide SectionFixes, Parsed;
    assert rs[..i + 1][..i] == rs[..i];
  }

  lemma Refuse(im: Image, addresses: seq<nat>, i: nat)
    requires Parsed(im) && |addresses| == |im.segments| && i < |im.relocations|
    requires var part := AllFixes(im, addresses, im.relocations[..i + 1]); part.Err? || !Tidy(part.value)
    ensures !Plannable(im, addresses)
  {
    hide Parsed, AllFixes, Tidy;
    AllPrefix(im, addresses, im.relocations, i + 1);
    var whole, part := AllFixes(im, addresses, im.relocations), AllFixes(im, addresses, im.relocations[..i + 1]);
    if whole.Ok? && Tidy(whole.value) { TidyPrefix(part.value, whole.value); }
  }

  // ------------------------------------------------------------ binding

  datatype Destination = Destination(cpu: nat, capacity: nat, address: nat)

  predicate Placed(s: Segment, d: Destination)
    requires s.alignment > 0
  {
    && d.capacity >= s.bytes && d.cpu != 0 && d.capacity > 0 && d.cpu + d.capacity <= U64
    && d.address != 0 && d.address % PAGE == 0 && d.address % s.alignment == 0 && Range(d.address, s.bytes, VA_LIMIT)
  }

  predicate Separate(s: Segment, d: Destination, t: Segment, e: Destination) {
    !Overlap(d.address, s.bytes, e.address, t.bytes) && !Overlap(d.cpu, s.bytes, e.cpu, t.bytes)
  }

  predicate Bindable(im: Image, s: Segment, d: Destination)
    requires s.alignment > 0
  {
    Placed(s, d) && !Overlap(d.cpu, s.bytes, im.at, |im.data|)
  }

  predicate Bound(im: Image, dest: seq<Destination>)
    requires Parsed(im)
  {
    && |dest| == |im.segments|
    && (forall i | 0 <= i < |dest| :: Bindable(im, im.segments[i], dest[i]))
    && (forall i, j | 0 <= j < i < |dest| :: Separate(im.segments[i], dest[i], im.segments[j], dest[j]))
  }

  method CheckBindings(im: Image, dest: seq<Destination>) returns (ok: bool)
    requires Parsed(im)
    ensures ok <==> Bound(im, dest)
  {
    hide Bindable, Separate;
    if |dest| != |im.segments| { return false; }
    for i := 0 to |dest|
      invariant forall k | 0 <= k < i :: Bindable(im, im.segments[k], dest[k])
      invariant forall k, j | 0 <= j < k < i :: Separate(im.segments[k], dest[k], im.segments[j], dest[j])
    {
      assert im.segments[i] in im.segments;
      if !Bindable(im, im.segments[i], dest[i]) { return false; }
      for j := 0 to i
        invariant forall k | 0 <= k < j :: Separate(im.segments[i], dest[i], im.segments[k], dest[k])
      {
        if !Separate(im.segments[i], dest[i], im.segments[j], dest[j]) { return false; }
      }
    }
    return true;
  }

  /** The file and the destinations share no byte. */
  predicate Disjoint(im: Image, dest: seq<Destination>)
    requires |dest| == |im.segments|
  {
    && (forall i | 0 <= i < |dest| :: !Shares(dest[i].cpu, im.segments[i].bytes, im.at, |im.data|))
    && (forall i, j | 0 <= i < |dest| && 0 <= j < |dest| && i != j ::
          !Shares(dest[i].cpu, im.segments[i].bytes, dest[j].cpu, im.segments[j].bytes))
  }

  /** What the test leaves to the caller: a destination that ends at the very top of the address space starts no earlier
      than the others end, and shares nothing with the file, nor does any destination if the file ends there. */
  predicate TopApart(im: Image, dest: seq<Destination>)
    requires |dest| == |im.segments|
  {
    && (forall i, j | 0 <= i < |dest| && 0 <= j < |dest| && i != j && dest[i].cpu + im.segments[i].bytes == U64 ::
          dest[j].cpu + im.segments[j].bytes <= dest[i].cpu)
    && (forall i | 0 <= i < |dest| && (dest[i].cpu + im.segments[i].bytes == U64 || im.at + |im.data| == U64) ::
          !Shares(dest[i].cpu, im.segments[i].bytes, im.at, |im.data|))
  }

  lemma PairApart(im: Image, dest: seq<Destination>, i: nat, j: nat)
    requires Parsed(im) && Bound(im, dest) && j < i < |dest|
    ensures var m, n := im.segments[i].bytes, im.segments[j].bytes;
            && 0 < m && 0 < n && dest[i].cpu + m <= U64 && dest[j].cpu + n <= U64
            && (Shares(dest[i].cpu, m, dest[j].cpu, n) ==> dest[i].cpu + m == U64 || dest[j].cpu + n == U64)
  {
    hide Overlap;
    BoundFacts(im, dest);
    assert im.segments[i] in im.segments && im.segments[j] in im.segments;
    assert Separate(im.segments[i], dest[i], im.segments[j], dest[j]);
    OverlapExact(dest[i].cpu, im.segments[i].bytes, dest[j].cpu, im.segments[j].bytes);
  }

  lemma FileApart(im: Image, dest: seq<Destination>, i: nat)
    requires Parsed(im) && Bound(im, dest) && i < |dest|
    ensures Shares(dest[i].cpu, im.segments[i].bytes, im.at, |im.data|) ==>
              dest[i].cpu + im.segments[i].bytes == U64 || im.at + |im.data| == U64
  {
    hide Overlap;
    BoundFacts(im, dest);
    assert Bindable(im, im.segments[i], dest[i]);
    OverlapExact(dest[i].cpu, im.segments[i].bytes, im.at, |im.data|);
  }

  /** Accepted destinations share no byte with each other or the file if and only if that holds at the top. */
  lemma BoundDisjoint(im: Image, dest: seq<Destination>)
    requires Parsed(im) && Bound(im, dest)
    ensures Disjoint(im, dest) <==> TopApart(im, dest)
  {
    hide Bound, Parsed;
    BoundFacts(im, dest);
    forall i, j | 0 <= j < i < |dest|
      ensures var m, n := im.segments[i].bytes, im.segments[j].bytes;
              && 0 < m && 0 < n && dest[i].cpu + m <= U64 && dest[j].cpu + n <= U64
              && (Shares(dest[i].cpu, m, dest[j].cpu, n) ==> dest[i].cpu + m == U64 || dest[j].cpu + n == U64)
    {
      PairApart(im, dest, i, j);
    }
    forall i | 0 <= i < |dest|
      ensures Shares(dest[i].cpu, im.segments[i].bytes, im.at, |im.data|) ==>
                dest[i].cpu + im.segments[i].bytes == U64 || im.at + |im.data| == U64
    {
      FileApart(im, dest, i);
    }
  }

  /** At the top it is not: two segments bound to the same last page are accepted. */
  lemma BoundTwice(im: Image)
    requires Parsed(im) && |im.segments| == 2 && im.at + |im.data| <= U64 - PAGE
    requires forall s <- im.segments :: s.bytes == PAGE && s.alignment == PAGE
    ensures var dest := [Destination(U64 - PAGE, PAGE, PAGE), Destination(U64 - PAGE, PAGE, 2 * PAGE)];
            Bound(im, dest) && !Disjoint(im, dest)
  {
    var dest := [Destination(U64 - PAGE, PAGE, PAGE), Destination(U64 - PAGE, PAGE, 2 * PAGE)];
    TopOverlap();
    OverlapExact(U64 - PAGE, PAGE, im.at, |im.data|);
    assert im.segments[0] in im.segments && im.segments[1] in im.segments;
    assert Shares(dest[1].cpu, im.segments[1].bytes, dest[0].cpu, im.segments[0].bytes);
  }

  function Addresses(dest: seq<Destination>): seq<nat> {
    seq(|dest|, i requires 0 <= i < |dest| => dest[i].address)
  }

  // ------------------------------------------------------------ what the segments become

  function PatchOf(f: Fix): Patch {
    Patch(f.offset, Little(f.value, f.width))
  }

  /** The patches of one segment, in planning order. */
  function PatchesOf(fs: seq<Fix>, segment: nat): seq<Patch> {
    if fs == [] then []
    else
      var rest, f := PatchesOf(fs[..|fs| - 1], segment), fs[|fs| - 1];
      if f.segment == segment then rest + [PatchOf(f)] else rest
  }

  lemma {:induction false} PatchesExact(fs: seq<Fix>, segment: nat)
    ensures forall p :: p in PatchesOf(fs, segment) <==> exists f <- fs :: f.segment == segment && p == PatchOf(f)
  {
    if fs != [] {
      var last := |fs| - 1;
      PatchesExact(fs[..last], segment);
      assert fs == fs[..last] + [fs[last]];
    }
  }

  lemma {:induction false} PatchesApart(fs: seq<Fix>, segment: nat)
    requires forall i, j | 0 <= i < j < |fs| :: !Clash(fs[i], fs[j])
    ensures AllApart(PatchesOf(fs, segment))
  {
    hide Little;
    if fs != [] {
      var last := |fs| - 1;
      PatchesApart(fs[..last], segment);
      PatchesExact(fs[..last], segment);
      var rest := PatchesOf(fs[..last], segment);
      forall i | 0 <= i < |rest| && fs[last].segment == segment ensures Apart(rest[i], PatchOf(fs[last])) {
        assert rest[i] in rest;
        var f :| f in fs[..last] && f.segment == segment && rest[i] == PatchOf(f);
        var k :| 0 <= k < last && fs[k] == f;
        assert !Clash(fs[k], fs[last]);
      }
    }
  }

  predicate AllFixOk(im: Image, fs: seq<Fix>) {
    forall f <- fs :: FixOk(im, f)
  }

  lemma PatchesWithin(im: Image, fs: seq<Fix>, segment: nat)
    requires AllFixOk(im, fs) && segment < |im.segments|
    ensures AllWithin(PatchesOf(fs, segment), im.segments[segment].bytes)
  {
    hide Little;
    PatchesExact(fs, segment);
  }

  /** The staged bytes of a segment: its file contents or zeros, changed by its patches. */
  function Staged(im: Image, fs: seq<Fix>, segment: nat): (s: seq<Byte>)
    requires Parsed(im) && segment < |im.segments| && AllFixOk(im, fs)
    ensures |s| == im.segments[segment].bytes
  {
    PatchesWithin(im, fs, segment);
    PutAll(Initial(im, segment), PatchesOf(fs, segment))
  }

  /** `f` is what some relocation of the image asks for. */
  ghost predicate Asked(im: Image, addresses: seq<nat>, rs: seq<Relocations>, f: Fix)
    requires Parsed(im) && |addresses| == |im.segments|
  {
    exists r <- rs, e <- r.entries :: AskedBy(im, addresses, r, e, f)
  }

  predicate AskedBy(im: Image, addresses: seq<nat>, r: Relocations, e: Entry, f: Fix)
    requires Parsed(im) && |addresses| == |im.segments|
  {
    var target := SegmentFor(im.segments, r.section);
    e.kind != 0 && target < |im.segments| && Resolve(im, addresses, target, r.rela, e) == Ok(f)
  }

  lemma {:induction false} FixesExact(im: Image, addresses: seq<nat>, target: nat, rela: bool, entries: seq<Entry>)
    requires Parsed(im) && |addresses| == |im.segments| && target < |im.segments|
    requires Fixes(im, addresses, target, rela, entries).Ok?
    ensures forall f ::
              f in Fixes(im, addresses, target, rela, entries).value <==>
                exists e <- entries :: e.kind != 0 && Resolve(im, addresses, target, rela, e) == Ok(f)
  {
    hide Resolve, Parsed;
    if entries != [] {
      var last := |entries| - 1;
      FixesExact(im, addresses, target, rela, entries[..last]);
      assert entries == entries[..last] + [entries[last]];
    }
  }

  lemma SectionExact(im: Image, addresses: seq<nat>, r: Relocations, f: Fix)
    requires Parsed(im) && |addresses| == |im.segments| && SectionFixes(im, addresses, r).Ok?
    ensures f in SectionFixes(im, addresses, r).value <==> exists e <- r.entries :: AskedBy(im, addresses, r, e, f)
  {
    hide Resolve, Parsed, Fixes;
    var target := SegmentFor(im.segments, r.section);
    FixesExact(im, addresses, target, r.rela, r.entries);
    if e :| e in r.entries && e.kind != 0 && Resolve(im, addresses, target, r.rela, e) == Ok(f) {
      assert AskedBy(im, addresses, r, e, f);
    }
  }

  /** The plan holds exactly what the relocations ask for. */
  lemma {:induction false} PlanExact(im: Image, addresses: seq<nat>, rs: seq<Relocations>, f: Fix)
    requires Parsed(im) && |addresses| == |im.segments| && AllFixes(im, addresses, rs).Ok?
    ensures f in AllFixes(im, addresses, rs).value <==> Asked(im, addresses, rs, f)
  {
    hide SectionFixes, Parsed, AskedBy;
    if rs != [] {
      var last := |rs| - 1;
      PlanExact(im, addresses, rs[..last], f);
      SectionExact(im, addresses, rs[last], f);
      assert rs == rs[..last] + [rs[last]];
    }
  }

  lemma PlanOk(im: Image, addresses: seq<nat>, rs: seq<Relocations>)
    requires Parsed(im) && |addresses| == |im.segments| && AllFixes(im, addresses, rs).Ok?
    ensures AllFixOk(im, AllFixes(im, addresses, rs).value)
  {
    hide Parsed, AllFixes, Resolve;
    forall f | f in AllFixes(im, addresses, rs).value ensures FixOk(im, f) {
      PlanExact(im, addresses, rs, f);
      var r, e :| r in rs && e in r.entries && AskedBy(im, addresses, r, e, f);
    }
  }

  // ------------------------------------------------------------ committing

  predicate Loaded(im: Image, m: seq<Byte>) {
    im.at + |im.data| <= |m| && m[im.at..im.at + |im.data|] == im.data
  }

  method CopySegment(im: Image, i: nat, memory: array<Byte>, cpu: nat)
    requires Parsed(im) && i < |im.segments| && cpu + im.segments[i].bytes <= memory.Length
    requires im.at + |im.data| <= memory.Length
    modifies memory
    ensures OnlyIn(old(memory[..]), memory[..], cpu, im.segments[i].bytes)
    ensures old(Loaded(im, memory[..])) && !Shares(cpu, im.segments[i].bytes, im.at, |im.data|) ==>
              memory[..] == Put(old(memory[..]), Patch(cpu, Initial(im, i)))
  {
    var s := im.segments[i];
    assert s in im.segments;
    ghost var source := Initial(im, i);
    ghost var clean := Loaded(im, memory[..]) && !Shares(cpu, s.bytes, im.at, |im.data|);
    for b := 0 to s.bytes
      invariant forall k | 0 <= k < memory.Length && !(cpu <= k < cpu + b) :: memory[k] == old(memory[k])
      invariant clean ==> forall k | 0 <= k < b :: memory[cpu + k] == source[k]
    {
      if clean && !s.zeroInit { FileByte(im, i, b, old(memory[..])); }
      memory[cpu + b] := if s.zeroInit then 0 else memory[im.at + s.fileOffset + b];
    }
  }

  lemma FileByte(im: Image, i: nat, b: nat, m: seq<Byte>)
    requires Parsed(im) && i < |im.segments| && !im.segments[i].zeroInit && b < im.segments[i].bytes && Loaded(im, m)
    ensures im.at + im.segments[i].fileOffset + b < im.at + |im.data| <= |m|
    ensures m[im.at + im.segments[i].fileOffset + b] == Initial(im, i)[b]
  {
    var s := im.segments[i];
    assert s in im.segments;
    assert m[im.at + (s.fileOffset + b)] == m[im.at..im.at + |im.data|][s.fileOffset + b];
  }

  predicate InWindow(im: Image, dest: seq<Destination>, a: nat)
    requires |dest| == |im.segments|
  {
    exists i | 0 <= i < |dest| :: dest[i].cpu <= a < dest[i].cpu + im.segments[i].bytes
  }

  /** Every window of memory is its segment under the fixes. */
  predicate Holds(im: Image, dest: seq<Destination>, fixes: seq<Fix>, m: seq<Byte>)
    requires Parsed(im) && |dest| == |im.segments| && AllFixOk(im, fixes)
  {
    forall i | 0 <= i < |dest| ::
      dest[i].cpu + im.segments[i].bytes <= |m| &&
      m[dest[i].cpu..dest[i].cpu + im.segments[i].bytes] == Staged(im, fixes, i)
  }

  predicate OnlyWindows(im: Image, dest: seq<Destination>, before: seq<Byte>, after: seq<Byte>)
    requires |dest| == |im.segments|
  {
    |before| == |after| && forall a | 0 <= a < |before| && !InWindow(im, dest, a) :: after[a] == before[a]
  }

  /** Writes every segment, then every patch. */
  method Commit(im: Image, memory: array<Byte>, dest: seq<Destination>, fixes: seq<Fix>)
    requires Parsed(im) && Bound(im, dest) && AllFixOk(im, fixes) && memory.Length == U64 && Loaded(im, memory[..])
    modifies memory
    ensures OnlyWindows(im, dest, old(memory[..]), memory[..])
    ensures Disjoint(im, dest) ==> Holds(im, dest, fixes, memory[..])
  {
    hide Parsed, Placed, Initial, Staged, InWindow, Disjoint, AllFixOk, Loaded, OnlyIn, Holds;
    BoundFacts(im, dest);
    CopyAll(im, memory, dest);
    assert fixes[..0] == [];
    for j := 0 to |fixes|
      invariant AllFixOk(im, fixes[..j]) && OnlyWindows(im, dest, old(memory[..]), memory[..])
      invariant Disjoint(im, dest) ==> Holds(im, dest, fixes[..j], memory[..])
    {
      FixFits(im, dest, fixes, j);
      ghost var before := memory[..];
      PutBytes(memory, dest[fixes[j].segment].cpu + fixes[j].offset, fixes[j].value, fixes[j].width);
      OneFix(im, dest, fixes, j, old(memory[..]), before);
    }
    assert fixes[..|fixes|] == fixes;
  }

  method CopyAll(im: Image, memory: array<Byte>, dest: seq<Destination>)
    requires Parsed(im) && Bound(im, dest) && memory.Length == U64 && Loaded(im, memory[..])
    modifies memory
    ensures OnlyWindows(im, dest, old(memory[..]), memory[..])
    ensures AllFixOk(im, []) && (Disjoint(im, dest) ==> Holds(im, dest, [], memory[..]))
  {
    hide Parsed, Placed, Initial, Staged, InWindow, Loaded, OnlyIn, Shares;
    BoundFacts(im, dest);
    for i := 0 to |dest|
      invariant OnlyWindows(im, dest, old(memory[..]), memory[..])
      invariant Disjoint(im, dest) ==> Loaded(im, memory[..]) && CopiedUpTo(im, dest, i, memory[..])
    {
      ghost var before := memory[..];
      CopySegment(im, i, memory, dest[i].cpu);
      OneCopy(im, dest, i, old(memory[..]), before, memory[..]);
    }
    forall k | 0 <= k < |dest| ensures Staged(im, [], k) == Initial(im, k) { NoPatches(im, k); }
  }

  predicate CopiedUpTo(im: Image, dest: seq<Destination>, n: nat, m: seq<Byte>)
    requires Parsed(im) && n <= |dest| == |im.segments|
  {
    forall k | 0 <= k < n ::
      dest[k].cpu + im.segments[k].bytes <= |m| && m[dest[k].cpu..dest[k].cpu + im.segments[k].bytes] == Initial(im, k)
  }

  /** Copying one segment disturbs neither the file nor the segments before it. */
  lemma OneCopy(im: Image, dest: seq<Destination>, i: nat, first: seq<Byte>, before: seq<Byte>, after: seq<Byte>)
    requires Parsed(im) && |dest| == |im.segments| && i < |dest| && |after| == |before| == U64
    requires dest[i].cpu + im.segments[i].bytes <= U64
    requires OnlyIn(before, after, dest[i].cpu, im.segments[i].bytes) && OnlyWindows(im, dest, first, before)
    requires Disjoint(im, dest) ==>
              Loaded(im, before) && CopiedUpTo(im, dest, i, before) &&
              after == Put(before, Patch(dest[i].cpu, Initial(im, i)))
    ensures OnlyWindows(im, dest, first, after)
    ensures Disjoint(im, dest) ==> Loaded(im, after) && CopiedUpTo(im, dest, i + 1, after)
  {
    hide Parsed, Initial, Shares, Put;
    forall a | 0 <= a < |first| && !InWindow(im, dest, a) ensures after[a] == first[a] {
      assert !(dest[i].cpu <= a < dest[i].cpu + im.segments[i].bytes);
    }
    if Disjoint(im, dest) {
      var p := Patch(dest[i].cpu, Initial(im, i));
      PutElsewhere(before, p, im.at, |im.data|);
      forall k | 0 <= k < i ensures after[dest[k].cpu..dest[k].cpu + im.segments[k].bytes] == Initial(im, k) {
        PutElsewhere(before, p, dest[k].cpu, im.segments[k].bytes);
      }
      PutInside(before, p, dest[i].cpu, im.segments[i].bytes);
      PutWhole(before[dest[i].cpu..dest[i].cpu + im.segments[i].bytes], p.data);
    }
  }

  lemma PutWhole(a: seq<Byte>, b: seq<Byte>)
    requires |a| == |b|
    ensures Put(a, Patch(0, b)) == b
  {
  }

  lemma FixFits(im: Image, dest: seq<Destination>, fixes: seq<Fix>, j: nat)
    requires Parsed(im) && Bound(im, dest) && AllFixOk(im, fixes) && j < |fixes|
    ensures FixOk(im, fixes[j]) && |dest| == |im.segments|
    ensures dest[fixes[j].segment].cpu + im.segments[fixes[j].segment].bytes <= U64
    ensures AllFixOk(im, fixes[..j]) && AllFixOk(im, fixes[..j + 1])
  {
    hide Parsed, Placed;
    BoundFacts(im, dest);
    assert fixes[j] in fixes;
  }

  /** One fix changes its own segment's window, there as its patch says. */
  lemma OneFix(im: Image, dest: seq<Destination>, fixes: seq<Fix>, j: nat, first: seq<Byte>, before: seq<Byte>)
    requires Parsed(im) && |dest| == |im.segments| && j < |fixes| && FixOk(im, fixes[j]) && |before| == U64
    requires AllFixOk(im, fixes[..j]) && AllFixOk(im, fixes[..j + 1])
    requires dest[fixes[j].segment].cpu + im.segments[fixes[j].segment].bytes <= U64
    requires OnlyWindows(im, dest, first, before) && (Disjoint(im, dest) ==> Holds(im, dest, fixes[..j], before))
    ensures var f := fixes[j]; var p := Patch(dest[f.segment].cpu + f.offset, Little(f.value, f.width));
            && Within(p, |before|) && OnlyWindows(im, dest, first, Put(before, p))
            && (Disjoint(im, dest) ==> Holds(im, dest, fixes[..j + 1], Put(before, p)))
  {
    hide Parsed, Staged, AllFixOk, Shares, Little;
    var f := fixes[j];
    var p := Patch(dest[f.segment].cpu + f.offset, Little(f.value, f.width));
    assert OnlyWindows(im, dest, first, Put(before, p)) by {
      forall a | 0 <= a < |first| && !InWindow(im, dest, a) ensures Put(before, p)[a] == first[a] {
        assert !(dest[f.segment].cpu <= a < dest[f.segment].cpu + im.segments[f.segment].bytes);
      }
    }
    if Disjoint(im, dest) {
      forall k | 0 <= k < |dest|
        ensures Put(before, p)[dest[k].cpu..dest[k].cpu + im.segments[k].bytes] == Staged(im, fixes[..j + 1], k)
      {
        OnePatch(im, fixes, j, k);
        if k == f.segment {
          PutInside(before, p, dest[k].cpu, im.segments[k].bytes);
        } else {
          NarrowMiss(dest[f.segment].cpu, im.segments[f.segment].bytes, dest[k].cpu, im.segments[k].bytes, p.offset,
                     |p.data|);
          PutElsewhere(before, p, dest[k].cpu, im.segments[k].bytes);
        }
      }
    }
  }

  lemma NarrowMiss(a: nat, n: nat, b: nat, m: nat, c: nat, l: nat)
    requires !Shares(a, n, b, m) && a <= c && c + l <= a + n
    ensures !Shares(c, l, b, m)
  {
  }

  lemma BoundFacts(im: Image, dest: seq<Destination>)
    requires Parsed(im) && Bound(im, dest)
    ensures |dest| == |im.segments| && im.at + |im.data| <= U64 && forall i | 0 <= i < |dest| ::
              dest[i].cpu + im.segments[i].bytes <= U64
  {
    hide Overlap;
    forall i | 0 <= i < |dest| ensures dest[i].cpu + im.segments[i].bytes <= U64 {
      assert Bindable(im, im.segments[i], dest[i]);
    }
  }

  lemma NoPatches(im: Image, k: nat)
    requires Parsed(im) && k < |im.segments|
    ensures AllFixOk(im, []) && Staged(im, [], k) == Initial(im, k)
  {
  }

  lemma OnePatch(im: Image, fixes: seq<Fix>, j: nat, k: nat)
    requires Parsed(im) && k < |im.segments| && j < |fixes| && AllFixOk(im, fixes[..j]) && AllFixOk(im, fixes[..j + 1])
    ensures var f := fixes[j]; var was := Staged(im, fixes[..j], k);
            Staged(im, fixes[..j + 1], k) == if f.segment == k && Within(PatchOf(f), |was|) then Put(was, PatchOf(f))
              else was
    ensures fixes[j].segment == k ==> Within(PatchOf(fixes[j]), |Staged(im, fixes[..j], k)|)
  {
    hide Parsed, Little, Initial;
    assert fixes[..j + 1][..j] == fixes[..j];
    assert fixes[j] in fixes[..j + 1];
    PatchesWithin(im, fixes[..j + 1], k);
    PatchesWithin(im, fixes[..j], k);
  }

  datatype StagedImage = StagedImage(kernel: nat, skipEntry: nat, textBytes: nat, relocations: nat)

  /** All or nothing: either no byte of memory changes, or only the destinations' do, and each becomes
      its segment under exactly the patches its relocations ask for. */
  method Stage(valid: bool, im: Image, memory: array<Byte>, dest: seq<Destination>)
    returns (error: Error, out: StagedImage, ghost fixes: seq<Fix>)
    requires memory.Length == U64 && (valid ==> Parsed(im) && Loaded(im, memory[..]))
    modifies memory
    ensures error == Fine <==> valid && Bound(im, dest) && Plannable(im, Addresses(dest))
    ensures !valid ==> error == InvalidBinding
    ensures error != Fine ==> memory[..] == old(memory[..])
    ensures error == Fine ==>
              Ok(fixes) == AllFixes(im, Addresses(dest), im.relocations) && AllFixOk(im, fixes) && Tidy(fixes)
    ensures error == Fine ==> OnlyWindows(im, dest, old(memory[..]), memory[..])
    ensures error == Fine && Disjoint(im, dest) ==> Holds(im, dest, fixes, memory[..])
    ensures error == Fine ==>
              out == StagedImage(dest[im.text].address, dest[im.text].address + im.skip, im.segments[im.text].bytes,
                                 |fixes|)
  {
    hide Parsed, Bindable, Separate, AllFixes, Tidy, Staged, AllFixOk, Disjoint, Loaded, InWindow, Holds;
    out, fixes := StagedImage(0, 0, 0, 0), [];
    if !valid { return InvalidBinding, out, fixes; }
    var ok := CheckBindings(im, dest);
    if !ok { return InvalidBinding, out, fixes; }
    var plan;
    error, plan := Plan(im, Addresses(dest));
    fixes := plan;
    if error != Fine { return; }
    PlanOk(im, Addresses(dest), im.relocations);
    TextFacts(im);
    Commit(im, memory, dest, plan);
    out := StagedImage(dest[im.text].address, dest[im.text].address + im.skip, im.segments[im.text].bytes, |plan|);
  }

  lemma TextFacts(im: Image)
    requires Parsed(im)
    ensures im.text < |im.segments|
  {
  }

  // ------------------------------------------------------------ what staging guarantees

  /** Every fix can be read back from the staged segment, cut to its width. */
  lemma FixReads(im: Image, fixes: seq<Fix>, f: Fix)
    requires Parsed(im) && AllFixOk(im, fixes) && Tidy(fixes) && f in fixes
    ensures FixOk(im, f)
    ensures Value(Staged(im, fixes, f.segment)[f.offset..f.offset + f.width]) == f.value % Power(f.width)
  {
    hide Parsed, Little, Value, Initial, PutAll;
    PatchesWithin(im, fixes, f.segment);
    PatchesApart(fixes, f.segment);
    PatchesExact(fixes, f.segment);
    var ps := PatchesOf(fixes, f.segment);
    assert PatchOf(f) in ps;
    var i :| 0 <= i < |ps| && ps[i] == PatchOf(f);
    PutAllReads(Initial(im, f.segment), ps, i);
    LittleValue(f.value, f.width);
  }

  /** Every byte no fix covers is the segment's own. */
  lemma RestKept(im: Image, fixes: seq<Fix>, segment: nat, k: nat)
    requires Parsed(im) && AllFixOk(im, fixes) && Tidy(fixes) && segment < |im.segments|
    requires k < im.segments[segment].bytes
    requires forall f <- fixes :: !(f.segment == segment && f.offset <= k < f.offset + f.width)
    ensures Staged(im, fixes, segment)[k] == Initial(im, segment)[k]
  {
    hide Parsed, Little, Initial, PutAll;
    PatchesWithin(im, fixes, segment);
    PatchesApart(fixes, segment);
    PatchesExact(fixes, segment);
    var ps := PatchesOf(fixes, segment);
    PutAllAt(Initial(im, segment), ps, k);
    forall i | 0 <= i < |ps| ensures !Covers(ps[i], k) {
      assert ps[i] in ps;
      var f :| f in fixes && f.segment == segment && ps[i] == PatchOf(f);
    }
  }

  /** The same relocations in any order, in any sections, stage the same bytes. */
  lemma OrderFree(im: Image, other: Image, addresses: seq<nat>, segment: nat)
    requires Parsed(im) && other == im.(relocations := other.relocations) && Parsed(other)
    requires |addresses| == |im.segments| && segment < |im.segments|
    requires Plannable(im, addresses) && Plannable(other, addresses)
    requires forall f :: Asked(im, addresses, im.relocations, f) <==> Asked(other, addresses, other.relocations, f)
    ensures var a, b :=
              AllFixes(im, addresses, im.relocations).value, AllFixes(other, addresses, other.relocations).value;
            AllFixOk(im, a) && AllFixOk(other, b) && Staged(im, a, segment) == Staged(other, b, segment)
  {
    hide Parsed, Little, AllFixes, Asked, PutAll;
    var a, b := AllFixes(im, addresses, im.relocations).value, AllFixes(other, addresses, other.relocations).value;
    PlanOk(im, addresses, im.relocations);
    PlanOk(other, addresses, other.relocations);
    forall f ensures f in a <==> f in b {
      PlanExact(im, addresses, im.relocations, f);
      PlanExact(other, addresses, other.relocations, f);
    }
    PatchesExact(a, segment);
    PatchesExact(b, segment);
    PatchesApart(a, segment);
    PatchesApart(b, segment);
    PatchesWithin(im, a, segment);
    AnyOrder(Initial(im, segment), PatchesOf(a, segment), PatchesOf(b, segment));
  }

  // ------------------------------------------------------------ the order of entries and sections

  lemma LastEntry(im: Image, addresses: seq<nat>, target: nat, rela: bool, es: seq<Entry>, e: Entry)
    requires Parsed(im) && |addresses| == |im.segments| && target < |im.segments|
    ensures var all, rest, own := Fixes(im, addresses, target, rela, es + [e]), Fixes(im, addresses, target, rela, es),
              Fixes(im, addresses, target, rela, [e]);
            (all.Ok? <==> rest.Ok? && own.Ok?) && (all.Ok? ==> all.value == rest.value + own.value)
  {
    hide Resolve, Parsed;
    assert (es + [e])[..|es|] == es && [e][..0] == [];
  }

  lemma {:induction false} InsertEntry(im: Image, addresses: seq<nat>, target: nat, rela: bool, u: seq<Entry>, x: Entry,
                                       v: seq<Entry>)
    requires Parsed(im) && |addresses| == |im.segments| && target < |im.segments|
    ensures var with, without :=
              Fixes(im, addresses, target, rela, u + [x] + v), Fixes(im, addresses, target, rela, u + v);
            var own := Fixes(im, addresses, target, rela, [x]);
            && (with.Ok? <==> without.Ok? && own.Ok?)
            && (with.Ok? ==> multiset(with.value) == multiset(without.value) + multiset(own.value))
    decreases |v|
  {
    hide Fixes, Parsed;
    if v == [] {
      assert u + [x] + v == u + [x] && u + v == u;
      LastEntry(im, addresses, target, rela, u, x);
    } else {
      var v', last := v[..|v| - 1], v[|v| - 1];
      InsertEntry(im, addresses, target, rela, u, x, v');
      assert u + [x] + v == (u + [x] + v') + [last] && u + v == (u + v') + [last];
      LastEntry(im, addresses, target, rela, u + [x] + v', last);
      LastEntry(im, addresses, target, rela, u + v', last);
    }
  }

  lemma {:induction false} EntryOrder(im: Image, addresses: seq<nat>, target: nat, rela: bool, es: seq<Entry>,
                                      gs: seq<Entry>)
    requires Parsed(im) && |addresses| == |im.segments| && target < |im.segments| && multiset(es) == multiset(gs)
    ensures var a, b := Fixes(im, addresses, target, rela, es), Fixes(im, addresses, target, rela, gs);
            (a.Ok? <==> b.Ok?) && (a.Ok? ==> multiset(a.value) == multiset(b.value))
    decreases |es|
  {
    hide Fixes, Parsed;
    if es == [] {
      assert |multiset(gs)| == 0;
    } else {
      var x, rest := es[|es| - 1], es[..|es| - 1];
      assert es == rest + [x] == rest + [x] + [];
      assert x in multiset(gs);
      var k :| 0 <= k < |gs| && gs[k] == x;
      assert gs == gs[..k] + [x] + gs[k + 1..];
      assert rest == rest + [];
      Removed(rest, x, gs, k);
      EntryOrder(im, addresses, target, rela, rest, gs[..k] + gs[k + 1..]);
      InsertEntry(im, addresses, target, rela, rest, x, []);
      InsertEntry(im, addresses, target, rela, gs[..k], x, gs[k + 1..]);
    }
  }

  /** The same section with its entries in another order. */
  predicate Shuffled(r: Relocations, q: Relocations) {
    q == r.(entries := q.entries) && multiset(r.entries) == multiset(q.entries)
  }

  predicate EachShuffled(rs: seq<Relocations>, qs: seq<Relocations>) {
    |rs| == |qs| && forall i | 0 <= i < |rs| :: Shuffled(rs[i], qs[i])
  }

  lemma {:induction false} ShuffledFixes(im: Image, addresses: seq<nat>, rs: seq<Relocations>, qs: seq<Relocations>)
    requires Parsed(im) && |addresses| == |im.segments| && EachShuffled(rs, qs)
    ensures var a, b := AllFixes(im, addresses, rs), AllFixes(im, addresses, qs);
            (a.Ok? <==> b.Ok?) && (a.Ok? ==> multiset(a.value) == multiset(b.value))
  {
    hide Fixes, Parsed;
    if rs != [] {
      var n := |rs| - 1;
      ShuffledFixes(im, addresses, rs[..n], qs[..n]);
      assert Shuffled(rs[n], qs[n]);
      var target := SegmentFor(im.segments, rs[n].section);
      if target < |im.segments| { EntryOrder(im, addresses, target, rs[n].rela, rs[n].entries, qs[n].entries); }
    }
  }

  lemma {:induction false} InsertSection(im: Image, addresses: seq<nat>, u: seq<Relocations>, x: Relocations,
                                         v: seq<Relocations>)
    requires Parsed(im) && |addresses| == |im.segments|
    ensures var with, without, own :=
              AllFixes(im, addresses, u + [x] + v), AllFixes(im, addresses, u + v), SectionFixes(im, addresses, x);
            && (with.Ok? <==> without.Ok? && own.Ok?)
            && (with.Ok? ==> multiset(with.value) == multiset(without.value) + multiset(own.value))
    decreases |v|
  {
    hide SectionFixes, Parsed;
    var all, rest := u + [x] + v, u + v;
    if v == [] {
      assert all[..|all| - 1] == u == rest;
    } else {
      var v' := v[..|v| - 1];
      InsertSection(im, addresses, u, x, v');
      assert all[..|all| - 1] == u + [x] + v' && rest[..|rest| - 1] == u + v' && all[|all| - 1] == rest[|rest| - 1];
    }
  }

  lemma Removed<T>(rest: seq<T>, x: T, qs: seq<T>, k: nat)
    requires k < |qs| && qs[k] == x && multiset(rest + [x]) == multiset(qs)
    ensures multiset(rest) == multiset(qs[..k] + qs[k + 1..])
  {
    assert qs == qs[..k] + [x] + qs[k + 1..];
    assert multiset(rest) + multiset{x} == multiset(qs[..k] + qs[k + 1..]) + multiset{x};
    assert multiset(rest) == multiset(rest) + multiset{x} - multiset{x};
    assert multiset(qs[..k] + qs[k + 1..]) == multiset(qs[..k] + qs[k + 1..]) + multiset{x} - multiset{x};
  }

  lemma {:induction false} SectionOrder(im: Image, addresses: seq<nat>, rs: seq<Relocations>, qs: seq<Relocations>)
    requires Parsed(im) && |addresses| == |im.segments| && multiset(rs) == multiset(qs)
    ensures var a, b := AllFixes(im, addresses, rs), AllFixes(im, addresses, qs);
            (a.Ok? <==> b.Ok?) && (a.Ok? ==> multiset(a.value) == multiset(b.value))
    decreases |rs|
  {
    hide SectionFixes, Parsed;
    if rs == [] {
      assert |multiset(qs)| == 0;
    } else {
      var x, rest := rs[|rs| - 1], rs[..|rs| - 1];
      assert rs == rest + [x] == rest + [x] + [];
      assert x in multiset(qs);
      var k :| 0 <= k < |qs| && qs[k] == x;
      assert qs == qs[..k] + [x] + qs[k + 1..];
      assert rest == rest + [];
      Removed(rest, x, qs, k);
      SectionOrder(im, addresses, rest, qs[..k] + qs[k + 1..]);
      InsertSection(im, addresses, rest, x, []);
      InsertSection(im, addresses, qs[..k], x, qs[k + 1..]);
    }
  }

  lemma {:induction false} OnlyOnce(fs: seq<Fix>, f: Fix)
    requires (forall i, j | 0 <= i < j < |fs| :: !Clash(fs[i], fs[j])) && f.width > 0
    ensures multiset(fs)[f] <= 1
  {
    if fs != [] {
      var last := |fs| - 1;
      OnlyOnce(fs[..last], f);
      assert fs == fs[..last] + [fs[last]];
      forall i | 0 <= i < last ensures !(fs[i] == f && fs[last] == f) { assert !Clash(fs[i], fs[last]); }
      assert fs[last] == f ==> f !in fs[..last];
    }
  }

  lemma TidyOrder(fs: seq<Fix>, gs: seq<Fix>)
    requires Tidy(fs) && multiset(fs) == multiset(gs) && forall f <- fs :: f.width > 0
    ensures Tidy(gs)
  {
    assert |gs| == |multiset(gs)| == |fs|;
    forall i, j | 0 <= i < j < |gs| ensures !Clash(gs[i], gs[j]) {
      var a, b := gs[i], gs[j];
      assert a in multiset(gs) && b in multiset(gs);
      assert a in fs && b in fs;
      OnlyOnce(fs, a);
      assert gs == gs[..i] + [a] + gs[i + 1..j] + [b] + gs[j + 1..];
      assert a == b ==> multiset(gs)[a] >= 2;
      var m, n :| 0 <= m < |fs| && 0 <= n < |fs| && fs[m] == a && fs[n] == b;
      assert m < n ==> !Clash(fs[m], fs[n]);
      assert n < m ==> !Clash(fs[n], fs[m]);
    }
  }

  /** `other` has the same relocations: each section's entries in some order, as in `mid`, and those sections
      in some order. */
  predicate Reordered(im: Image, mid: seq<Relocations>, other: Image) {
    other == im.(relocations := other.relocations) && EachShuffled(im.relocations, mid) &&
    multiset(mid) == multiset(other.relocations)
  }

  lemma PlannableOrder(im: Image, mid: seq<Relocations>, other: Image, addresses: seq<nat>)
    requires Parsed(im) && Parsed(other) && Reordered(im, mid, other) && |addresses| == |im.segments|
    requires Plannable(im, addresses) || Plannable(other, addresses)
    ensures Plannable(im, addresses)
    ensures Plannable(other, addresses)
    ensures multiset(AllFixes(im, addresses, im.relocations).value) ==
              multiset(AllFixes(other, addresses, other.relocations).value)
  {
    hide Parsed, AllFixes, Tidy;
    ShuffledFixes(im, addresses, im.relocations, mid);
    SectionOrder(im, addresses, mid, other.relocations);
    SameImage(im, other, addresses, other.relocations);
    PlanOk(im, addresses, im.relocations);
    PlanOk(other, addresses, other.relocations);
    var a, b := AllFixes(im, addresses, im.relocations).value, AllFixes(other, addresses, other.relocations).value;
    if Tidy(a) { TidyOrder(a, b); } else { TidyOrder(b, a); }
  }

  /** Fixes depend on the relocations given, not on the ones the image lists. */
  lemma {:induction false} SameImage(im: Image, other: Image, addresses: seq<nat>, rs: seq<Relocations>)
    requires Parsed(im) && Parsed(other) && other == im.(relocations := other.relocations)
    requires |addresses| == |im.segments|
    ensures AllFixes(im, addresses, rs) == AllFixes(other, addresses, rs)
  {
    hide Fixes, Parsed;
    if rs != [] {
      SameImage(im, other, addresses, rs[..|rs| - 1]);
      var r := rs[|rs| - 1];
      var target := SegmentFor(im.segments, r.section);
      if target < |im.segments| { SameFixes(im, other, addresses, target, r.rela, r.entries); }
    }
  }

  lemma SameResolve(im: Image, other: Image, addresses: seq<nat>, target: nat, rela: bool, e: Entry)
    requires Parsed(im) && Parsed(other) && other == im.(relocations := other.relocations)
    requires |addresses| == |im.segments| && target < |im.segments|
    ensures Resolve(im, addresses, target, rela, e) == Resolve(other, addresses, target, rela, e)
  {
    hide Parsed, Value, AddAddend, Part, SegmentFor;
    assert Initial(im, target) == Initial(other, target);
    if e.symbol < |im.symbols| && Range(e.offset, Width(e.kind), im.segments[target].bytes) {
      assert BaseOf(im, addresses, target, e) == BaseOf(other, addresses, target, e);
    }
  }

  lemma {:induction false} SameFixes(im: Image, other: Image, addresses: seq<nat>, target: nat, rela: bool,
                                     entries: seq<Entry>)
    requires Parsed(im) && Parsed(other) && other == im.(relocations := other.relocations)
    requires |addresses| == |im.segments| && target < |im.segments|
    ensures Fixes(im, addresses, target, rela, entries) == Fixes(other, addresses, target, rela, entries)
  {
    hide Parsed, Resolve;
    if entries != [] {
      SameFixes(im, other, addresses, target, rela, entries[..|entries| - 1]);
      SameResolve(im, other, addresses, target, rela, entries[|entries| - 1]);
    }
  }

  /** The order of sections and of the entries in them decides neither whether staging succeeds nor what it writes. */
  lemma InAnyOrder(im: Image, mid: seq<Relocations>, other: Image, addresses: seq<nat>, segment: nat)
    requires Parsed(im) && Parsed(other) && Reordered(im, mid, other) && |addresses| == |im.segments|
    requires segment < |im.segments|
    ensures Plannable(im, addresses) <==> Plannable(other, addresses)
    ensures Plannable(im, addresses) ==>
              var a, b := AllFixes(im, addresses, im.relocations).value,
                AllFixes(other, addresses, other.relocations).value;
              AllFixOk(im, a) && AllFixOk(other, b) && Staged(im, a, segment) == Staged(other, b, segment)
  {
    hide Parsed, AllFixes, Tidy, Asked, Staged;
    if Plannable(im, addresses) || Plannable(other, addresses) {
      PlannableOrder(im, mid, other, addresses);
      var a, b := AllFixes(im, addresses, im.relocations).value, AllFixes(other, addresses, other.relocations).value;
      forall f ensures Asked(im, addresses, im.relocations, f) <==> Asked(other, addresses, other.relocations, f) {
        PlanExact(im, addresses, im.relocations, f);
        PlanExact(other, addresses, other.relocations, f);
        assert f in a <==> f in multiset(a);
        assert f in b <==> f in multiset(b);
      }
      OrderFree(im, other, addresses, segment);
    }
  }

  /** An ordinary symbol: address plus offset plus signed addend, the part its kind selects, added to data
      already there. */
  lemma SymbolRelocation(im: Image, addresses: seq<nat>, target: nat, rela: bool, e: Entry, f: Fix)
    requires Parsed(im) && |addresses| == |im.segments| && target < |im.segments| && e.addend < U64
    requires e.kind in {1, 2, 3} && Resolve(im, addresses, target, rela, e) == Ok(f)
    requires var sym := im.symbols[e.symbol]; sym.section != 0 && sym.section != ABSOLUTE
    requires forall a <- addresses :: a + 0x400_0000 < U64
    requires forall s <- im.segments :: s.bytes <= 0x400_0000
    ensures var sym := im.symbols[e.symbol];
            var from := SegmentFor(im.segments, sym.section);
            && from < |im.segments| && sym.value + sym.bytes <= im.segments[from].bytes
            && var sum := addresses[from] + sym.value + if rela then Signed(e.addend) else 0;
            && 0 <= sum < U64
            && var before := if im.segments[target].executable || im.segments[target].zeroInit then 0
              else Value(Initial(im, target)[e.offset..e.offset + f.width]);
            f.value == ((if e.kind == 1 then sum else if e.kind == 2 then sum % U32 else sum / U32) + before) % U64
  {
    hide Parsed, Initial, Value;
    var from := SegmentFor(im.segments, im.symbols[e.symbol].section);
    if from < |im.segments| {
      assert addresses[from] in addresses && im.segments[from] in im.segments;
      AddendExact(addresses[from] + im.symbols[e.symbol].value, e.addend);
    }
  }

  /** What a relocation to this sum leaves in the segment: the part its kind selects, on top of data already there. */
  function Patched(im: Image, target: nat, e: Entry, sum: nat): nat
    requires Parsed(im) && target < |im.segments| && e.offset + Width(e.kind) <= im.segments[target].bytes
  {
    var part := if e.kind == 1 then sum else if e.kind == 2 then sum % U32 else sum / U32;
    var before := if im.segments[target].executable || im.segments[target].zeroInit then 0
                  else Value(Initial(im, target)[e.offset..e.offset + Width(e.kind)]);
    (part + before) % U64 % Power(Width(e.kind))
  }

  /** An absolute symbol stages its own value, whatever the segments' addresses are. */
  lemma AbsoluteStaged(im: Image, addresses: seq<nat>, target: nat, rela: bool, e: Entry, fixes: seq<Fix>, f: Fix)
    requires Parsed(im) && |addresses| == |im.segments| && target < |im.segments| && e.addend < U64
    requires e.kind in {1, 2, 3} && Resolve(im, addresses, target, rela, e) == Ok(f)
    requires AllFixOk(im, fixes) && Tidy(fixes) && f in fixes && im.symbols[e.symbol].section == ABSOLUTE
    ensures var sum := im.symbols[e.symbol].value + if rela then Signed(e.addend) else 0;
            && 0 <= sum < U64
            && Value(Staged(im, fixes, target)[e.offset..e.offset + f.width]) == Patched(im, target, e, sum)
  {
    hide Initial, Value, Staged, Tidy, AllFixOk;
    var value := im.symbols[e.symbol].value;
    assert im.symbols[e.symbol] in im.symbols;
    AddendExact(value, e.addend);
    FixReads(im, fixes, f);
  }

  /** An ordinary symbol stages its segment's GPU address plus its offset. */
  lemma SymbolStaged(im: Image, addresses: seq<nat>, target: nat, rela: bool, e: Entry, fixes: seq<Fix>, f: Fix)
    requires Parsed(im) && |addresses| == |im.segments| && target < |im.segments| && e.addend < U64
    requires e.kind in {1, 2, 3} && Resolve(im, addresses, target, rela, e) == Ok(f)
    requires AllFixOk(im, fixes) && Tidy(fixes) && f in fixes
    requires var sym := im.symbols[e.symbol]; sym.section != 0 && sym.section != ABSOLUTE
    requires forall a <- addresses :: a + 0x400_0000 < U64
    requires forall s <- im.segments :: s.bytes <= 0x400_0000
    ensures var from := SegmentFor(im.segments, im.symbols[e.symbol].section);
            && from < |im.segments|
            && var sum := addresses[from] + im.symbols[e.symbol].value + if rela then Signed(e.addend) else 0;
            && 0 <= sum < U64
            && Value(Staged(im, fixes, target)[e.offset..e.offset + f.width]) == Patched(im, target, e, sum)
  {
    hide Parsed, Initial, Value, Staged, Tidy, AllFixOk;
    SymbolRelocation(im, addresses, target, rela, e, f);
    FixReads(im, fixes, f);
  }

  /** The per-thread payload begins where the cross-thread payload, less its inline part, ends. */
  lemma PerThreadStaged(im: Image, addresses: seq<nat>, target: nat, rela: bool, e: Entry, fixes: seq<Fix>, f: Fix)
    requires Parsed(im) && |addresses| == |im.segments| && target < |im.segments|
    requires Resolve(im, addresses, target, rela, e) == Ok(f) && AllFixOk(im, fixes) && Tidy(fixes) && f in fixes
    requires var sym := im.symbols[e.symbol];
             !(sym.section == 0 && sym.name == CROSS_THREAD) &&
             (e.kind == 4 || (sym.section == 0 && sym.name == PER_THREAD))
    ensures im.segments[target].executable && (rela ==> e.addend == 0)
    ensures Value(Staged(im, fixes, target)[e.offset..e.offset + 4]) == im.cross - im.inlined
  {
    hide Initial, Value, Staged, Tidy, AllFixOk, SegmentFor;
    FixReads(im, fixes, f);
    assert Power(4) == U32;
  }

  /** The implicit-argument prefix is empty: the word was zero and stays zero. */
  lemma CrossThreadStaged(im: Image, addresses: seq<nat>, target: nat, rela: bool, e: Entry, fixes: seq<Fix>, f: Fix)
    requires Parsed(im) && |addresses| == |im.segments| && target < |im.segments|
    requires Resolve(im, addresses, target, rela, e) == Ok(f) && AllFixOk(im, fixes) && Tidy(fixes) && f in fixes
    requires im.symbols[e.symbol].section == 0 && im.symbols[e.symbol].name == CROSS_THREAD
    ensures im.segments[target].executable && e.kind == 2 && (rela ==> e.addend == 0)
    ensures Value(Initial(im, target)[e.offset..e.offset + 4]) == 0
    ensures Value(Staged(im, fixes, target)[e.offset..e.offset + 4]) == 0
  {
    hide Initial, Value, Staged, Tidy, AllFixOk, SegmentFor;
    FixReads(im, fixes, f);
    assert Power(4) == U32;
  }
}
