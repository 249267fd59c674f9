/**
 The argument layout XeZebin accepts from a kernel's metadata, and the cross-thread payload it
 builds from it.
 */
module ZebinPayload {
  import opened Arithmetic
  import opened PteFormat
  import opened ZebinBytes

  datatype Error = Fine | Metadata | Duplicate | InvalidBinding

  datatype ArgType = GlobalOffset | LocalSize | ByAddress | ByValue
  datatype Mode = NoMode | Stateless | Bindless
  datatype Argument = Argument(kind: ArgType, mode: Mode, offset: nat, size: nat, index: nat, writable: bool)

  const MAX_PAYLOAD: nat := 256
  const INLINE: nat := 32
  const PER_THREAD_BYTES: nat := 192

  /** Which of the eight arguments of the profile this is, if it is well formed. */
  function Slot(a: Argument): Option<nat> {
    if a.size == 0 || !Range(a.offset, a.size, MAX_PAYLOAD) then None
    else
      match a.kind
      case GlobalOffset => if a.size == 12 then Some(0) else None
      case LocalSize => if a.size == 12 then Some(1) else None
      case ByValue => if a.size == 4 && 2 <= a.index <= 3 then Some(a.index + 2) else None
      case ByAddress =>
        if a.index > 1 || a.writable != (a.index == 1) then None
        else if a.mode == Stateless && a.size == 8 then Some(a.index + 2)
        else if a.mode == Bindless && a.size == 4 then Some(a.index + 6)
        else None
  }

  predicate Overlaps(a: Argument, b: Argument) {
    a.offset < b.offset + b.size && b.offset < a.offset + a.size
  }

  function Largest(args: seq<Argument>): nat {
    if args == [] then 0
    else
      var rest, a := Largest(args[..|args| - 1]), args[|args| - 1];
      if a.offset + a.size > rest then a.offset + a.size else rest
  }

  function CrossBytes(args: seq<Argument>): nat {
    AlignUp(Largest(args), 32)
  }

  /** Eight different arguments, each in its own bytes. */
  predicate LayoutOk(args: seq<Argument>) {
    && |args| == 8
    && (forall a <- args :: Slot(a).Some?)
    && (forall i, j | 0 <= j < i < |args| :: Slot(args[i]) != Slot(args[j]) && !Overlaps(args[i], args[j]))
    && INLINE <= CrossBytes(args) <= MAX_PAYLOAD
  }

  /** The size is the least multiple of 32 that holds every argument. */
  lemma CrossLeast(args: seq<Argument>)
    requires args != []
    ensures forall a <- args :: a.offset + a.size <= CrossBytes(args)
    ensures CrossBytes(args) % 32 == 0
    ensures forall n: nat | n % 32 == 0 && forall a <- args :: a.offset + a.size <= n :: CrossBytes(args) <= n
  {
    AlignUpLeast(Largest(args), 32);
    LargestBounds(args);
    forall n: nat | n % 32 == 0 && forall a <- args :: a.offset + a.size <= n ensures CrossBytes(args) <= n {
      var a :| a in args && a.offset + a.size == Largest(args);
    }
  }

  lemma {:induction false} LargestBounds(args: seq<Argument>)
    ensures forall a <- args :: a.offset + a.size <= Largest(args)
    ensures args != [] ==> exists a <- args :: a.offset + a.size == Largest(args)
  {
    if args != [] {
      var last := |args| - 1;
      LargestBounds(args[..last]);
      assert args == args[..last] + [args[last]];
      assert args[last] in args;
      if Largest(args) != args[last].offset + args[last].size {
        var a :| a in args[..last] && a.offset + a.size == Largest(args[..last]);
        assert a in args;
      }
    }
  }

  function SlotsOf(args: seq<Argument>): set<nat> {
    set a <- args | Slot(a).Some? :: Slot(a).value
  }

  lemma SlotBound(a: Argument)
    ensures Slot(a).Some? ==> Slot(a).value < 8
  {
  }

  /** Eight different slots of eight are all of them. */
  lemma AllSlots(args: seq<Argument>)
    requires |args| == 8 && (forall a <- args :: Slot(a).Some?) && forall i, j | 0 <= j < i < |args| ::
              Slot(args[i]) != Slot(args[j])
    ensures SlotsOf(args) == {0, 1, 2, 3, 4, 5, 6, 7}
  {
    hide Slot;
    var want: set<nat> := {0, 1, 2, 3, 4, 5, 6, 7};
    forall a | a in args ensures Slot(a).value in want { SlotBound(a); }
    assert SlotsOf(args) <= want;
    SlotCount(args);
    SubsetCard(SlotsOf(args), want);
  }

  lemma {:induction false} SlotCount(args: seq<Argument>)
    requires (forall a <- args :: Slot(a).Some?) && forall i, j | 0 <= j < i < |args| :: Slot(args[i]) != Slot(args[j])
    ensures |SlotsOf(args)| == |args|
  {
    hide Slot;
    if args != [] {
      var last := |args| - 1;
      SlotCount(args[..last]);
      assert args == args[..last] + [args[last]];
      assert args[last] in args;
      var s := Slot(args[last]).value;
      assert SlotsOf(args) == SlotsOf(args[..last]) + {s};
      assert s !in SlotsOf(args[..last]);
    }
  }

  predicate Admitted(args: seq<Argument>) {
    && (forall a <- args :: Slot(a).Some?)
    && (forall i, j | 0 <= j < i < |args| :: Slot(args[i]) != Slot(args[j]) && !Overlaps(args[i], args[j]))
  }

  lemma AdmitOne(args: seq<Argument>, i: nat)
    requires i < |args| && Admitted(args[..i])
    ensures Admitted(args[..i + 1]) <==>
            Slot(args[i]).Some? && Slot(args[i]).value !in SlotsOf(args[..i]) && forall j | 0 <= j < i ::
              !Overlaps(args[i], args[j])
    ensures Admitted(args) ==> Admitted(args[..i + 1])
    ensures var end, rest := args[i].offset + args[i].size, Largest(args[..i]);
            Largest(args[..i + 1]) == if end > rest then end else rest
    ensures Slot(args[i]).Some? ==> SlotsOf(args[..i + 1]) == SlotsOf(args[..i]) + {Slot(args[i]).value}
  {
    hide Slot, Overlaps;
    var part := args[..i + 1];
    assert part == args[..i] + [args[i]] && part[..i] == args[..i];
    if Slot(args[i]).Some? {
      if Slot(args[i]).value in SlotsOf(args[..i]) { Seen(args, i); } else { NotSeen(args, i); }
    }
    if Admitted(part) {
      assert args[i] in part;
      forall j | 0 <= j < i ensures !Overlaps(args[i], args[j]) && Slot(args[i]) != Slot(args[j]) {
        assert part[j] == args[j];
      }
    }
  }

  lemma Missing(args: seq<Argument>)
    requires SlotsOf(args) != {0, 1, 2, 3, 4, 5, 6, 7}
    ensures !LayoutOk(args)
  {
    hide Slot, Overlaps, CrossBytes;
    if LayoutOk(args) { AllSlots(args); }
  }

  method FindOverlap(args: seq<Argument>, i: nat) returns (found: bool)
    requires i < |args|
    ensures found <==> exists j | 0 <= j < i :: Overlaps(args[i], args[j])
  {
    for j := 0 to i
      invariant forall k | 0 <= k < j :: !Overlaps(args[i], args[k])
    {
      if Overlaps(args[i], args[j]) { return true; }
    }
    return false;
  }

  /** Accepts exactly the layouts in which eight different arguments do not overlap. */
  method CheckLayout(args: seq<Argument>) returns (error: Error, cross: nat)
    ensures error == Fine <==> LayoutOk(args)
    ensures error == Fine ==> cross == CrossBytes(args)
  {
    hide Slot, AlignUp, Overlaps, SlotsOf, Largest;
    assert LayoutOk(args) ==> Admitted(args);
    if |args| != 8 { return Metadata, 0; }
    var seen: set<nat>, largest := {}, 0;
    assert args[..0] == [];
    Nothing();
    for i := 0 to |args|
      invariant Admitted(args[..i]) && largest == Largest(args[..i]) && seen == SlotsOf(args[..i])
    {
      AdmitOne(args, i);
      var slot := Slot(args[i]);
      if slot.None? { return Metadata, 0; }
      if slot.value in seen { return Duplicate, 0; }
      seen := seen + {slot.value};
      var found := FindOverlap(args, i);
      if found { return Metadata, 0; }
      if args[i].offset + args[i].size > largest { largest := args[i].offset + args[i].size; }
    }
    assert args[..|args|] == args;
    if seen != {0, 1, 2, 3, 4, 5, 6, 7} {
      Missing(args);
      return Metadata, 0;
    }
    cross := AlignUp(largest, 32);
    if cross > MAX_PAYLOAD || INLINE > cross { return Metadata, 0; }
    return Fine, cross;
  }

  lemma Nothing()
    ensures Largest([]) == 0 && SlotsOf([]) == {}
  {
  }

  lemma Seen(args: seq<Argument>, i: nat)
    requires i < |args| && Slot(args[i]).Some? && Slot(args[i]).value in SlotsOf(args[..i])
    ensures exists j | 0 <= j < i :: Slot(args[i]) == Slot(args[j])
  {
    hide Slot;
    var b :| b in args[..i] && Slot(b).Some? && Slot(b).value == Slot(args[i]).value;
    var j :| 0 <= j < i && args[j] == b;
  }

  lemma NotSeen(args: seq<Argument>, i: nat)
    requires i < |args| && Slot(args[i]).Some? && Slot(args[i]).value !in SlotsOf(args[..i])
    ensures forall j | 0 <= j < i :: Slot(args[i]) != Slot(args[j])
    ensures SlotsOf(args[..i + 1]) == SlotsOf(args[..i]) + {Slot(args[i]).value}
  {
    hide Slot;
    assert args[..i + 1] == args[..i] + [args[i]];
    forall j | 0 <= j < i ensures Slot(args[i]) != Slot(args[j]) { assert args[j] in args[..i]; }
  }

  // ------------------------------------------------------------ values

  datatype Values = Values(inputAddress: nat, outputAddress: nat, inputBytes: nat, outputBytes: nat,
                           inputSurface: nat, outputSurface: nat, nonce: nat, count: nat, globalOffset: seq<nat>,
                             localSize: seq<nat>)

  /** The fields have their widths. */
  predicate Sized(v: Values) {
    && v.inputAddress < U64 && v.outputAddress < U64 && v.inputBytes < U64 && v.outputBytes < U64
    && v.inputSurface < U32 && v.outputSurface < U32 && v.nonce < U32 && v.count < U32
    && |v.globalOffset| == |v.localSize| == 3 && forall i | 0 <= i < 3 ::
         v.globalOffset[i] < U32 && v.localSize[i] < U32
  }

  predicate Usable(v: Values)
    requires Sized(v)
  {
    && v.count > 0 && v.inputAddress > 0 && v.outputAddress > 0 && v.inputAddress % 4 == 0 && v.outputAddress % 4 == 0
    && v.count * 4 <= v.inputBytes && v.count * 4 <= v.outputBytes
    && Range(v.inputAddress, v.inputBytes, VA_LIMIT) && Range(v.outputAddress, v.outputBytes, VA_LIMIT)
    && GroupOk(v)
  }

  function Product(s: seq<nat>): nat {
    if s == [] then 1 else Product(s[..|s| - 1]) * s[|s| - 1]
  }

  lemma Quota(w: nat, n: nat)
    requires n > 0
    ensures w > 1024 / n <==> w * n > 1024
  {
    Quotient(1024, n);
    if w > 1024 / n { MulGap(1024 / n, w, n); } else if w < 1024 / n { MulGap(w, 1024 / n, n); }
  }

  lemma {:induction false} ProductGrows(s: seq<nat>, k: nat)
    requires k <= |s| && forall i | 0 <= i < |s| :: s[i] > 0
    ensures 0 < Product(s[..k]) <= Product(s)
  {
    if k == |s| {
      assert s[..k] == s;
      if s != [] { ProductGrows(s[..|s| - 1], |s| - 1); assert s[..|s| - 1][..|s| - 1] == s[..|s| - 1]; }
    } else {
      ProductGrows(s[..|s| - 1], k);
      assert s[..|s| - 1][..k] == s[..k];
      assert Product(s[..|s| - 1]) <= Product(s[..|s| - 1]) * s[|s| - 1];
    }
  }

  predicate GroupOk(v: Values)
    requires Sized(v)
  {
    (forall i | 0 <= i < 3 :: 0 < v.localSize[i] && v.globalOffset[i] + v.localSize[i] < U32) &&
    Product(v.localSize) <= 1024
  }

  /** Multiplies the work-group sizes without ever leaving the limit. */
  method CheckGroup(v: Values) returns (ok: bool)
    requires Sized(v)
    ensures ok <==> GroupOk(v)
  {
    hide Product;
    var workgroup := 1;
    EmptyProduct();
    assert v.localSize[..0] == [];
    for i := 0 to 3
      invariant forall k | 0 <= k < i :: 0 < v.localSize[k] && v.globalOffset[k] + v.localSize[k] < U32
      invariant 0 < workgroup == Product(v.localSize[..i]) <= 1024
    {
      var n := v.localSize[i];
      if n == 0 { return false; }
      NextProduct(v.localSize, i);
      Quota(workgroup, n);
      OverQuota(v, i);
      if n > 1024 || workgroup > 1024 / n || v.globalOffset[i] > U32 - 1 - n { return false; }
      workgroup := workgroup * n;
    }
    assert v.localSize[..3] == v.localSize;
    return true;
  }

  lemma EmptyProduct()
    ensures Product([]) == 1
  {
  }

  lemma NextProduct(s: seq<nat>, i: nat)
    requires i < |s|
    ensures Product(s[..i + 1]) == Product(s[..i]) * s[i]
  {
    assert s[..i + 1][..i] == s[..i];
  }

  lemma OverQuota(v: Values, i: nat)
    requires Sized(v) && i < 3
    ensures GroupOk(v) ==> 0 < Product(v.localSize[..i]) * v.localSize[i] <= 1024 && v.localSize[i] <= 1024
  {
    if GroupOk(v) {
      ProductGrows(v.localSize, i);
      ProductGrows(v.localSize, i + 1);
      NextProduct(v.localSize, i);
      Factor(Product(v.localSize[..i]), v.localSize[i]);
    }
  }

  lemma Factor(a: nat, b: nat)
    requires a > 0
    ensures b <= a * b
  {
  }

  // ------------------------------------------------------------ the payload

  function Triple(t: seq<nat>): (s: seq<Byte>)
    requires |t| == 3
    ensures |s| == 12
  {
    Little(t[0], 4) + Little(t[1], 4) + Little(t[2], 4)
  }

  /** The bytes of one argument. */
  function DataOf(a: Argument, v: Values): (s: seq<Byte>)
    requires Sized(v)
    ensures Slot(a).Some? ==> |s| == a.size
  {
    match a.kind
    case GlobalOffset => Triple(v.globalOffset)
    case LocalSize => Triple(v.localSize)
    case ByValue => Little(if a.index == 2 then v.nonce else v.count, 4)
    case ByAddress =>
      if a.mode == Stateless then Little(if a.index != 0 then v.outputAddress else v.inputAddress, 8)
      else Little(if a.index != 0 then v.outputSurface else v.inputSurface, 4)
  }

  function Patches(args: seq<Argument>, v: Values): (ps: seq<Patch>)
    requires Sized(v)
    ensures |ps| == |args| && forall i | 0 <= i < |args| :: ps[i] == Patch(args[i].offset, DataOf(args[i], v))
  {
    seq(|args|, i requires 0 <= i < |args| => Patch(args[i].offset, DataOf(args[i], v)))
  }

  lemma PatchesFit(args: seq<Argument>, v: Values)
    requires Sized(v) && Admitted(args)
    ensures AllWithin(Patches(args, v), MAX_PAYLOAD) && AllApart(Patches(args, v))
  {
    hide DataOf;
    forall i | 0 <= i < |args|
      ensures Within(Patches(args, v)[i], MAX_PAYLOAD) && |DataOf(args[i], v)| == args[i].size
    {
      assert args[i] in args;
    }
    forall i, j | 0 <= i < j < |args| ensures Apart(Patches(args, v)[i], Patches(args, v)[j]) {
      assert !Overlaps(args[j], args[i]);
    }
  }

  function Blank(): (s: seq<Byte>)
    ensures |s| == MAX_PAYLOAD
  {
    seq(MAX_PAYLOAD, _ => 0)
  }

  /** The payload of a layout and its values. */
  function PayloadBytes(args: seq<Argument>, v: Values): (s: seq<Byte>)
    requires Sized(v) && Admitted(args)
    ensures |s| == MAX_PAYLOAD
  {
    PatchesFit(args, v);
    PutAll(Blank(), Patches(args, v))
  }

  lemma NextPatch(args: seq<Argument>, v: Values, i: nat)
    requires Sized(v) && i < |args| && Admitted(args)
    ensures Admitted(args[..i]) && Admitted(args[..i + 1]) && Slot(args[i]).Some?
    ensures Within(Patch(args[i].offset, DataOf(args[i], v)), MAX_PAYLOAD)
    ensures PayloadBytes(args[..i + 1], v) == Put(PayloadBytes(args[..i], v), Patch(args[i].offset, DataOf(args[i], v)))
  {
    hide DataOf, Slot, Overlaps;
    assert args[i] in args;
    PatchesFit(args, v);
    assert Patches(args, v)[i] in Patches(args, v);
    var ps := Patches(args[..i + 1], v);
    PatchesFit(args[..i + 1], v);
    assert ps[..i] == Patches(args[..i], v);
  }

  method PutTriple(a: array<Byte>, offset: nat, t: seq<nat>)
    requires |t| == 3 && Range(offset, 12, a.Length)
    modifies a
    ensures a[..] == Put(old(a[..]), Patch(offset, Triple(t)))
  {
    hide Little;
    PutBytes(a, offset, t[0], 4);
    PutBytes(a, offset + 4, t[1], 4);
    PutBytes(a, offset + 8, t[2], 4);
    ThreePuts(old(a[..]), offset, Little(t[0], 4), Little(t[1], 4), Little(t[2], 4));
  }

  lemma ThreePuts(buf: seq<Byte>, offset: nat, x: seq<Byte>, y: seq<Byte>, z: seq<Byte>)
    requires |x| == |y| == |z| == 4 && offset + 12 <= |buf|
    ensures Put(Put(Put(buf, Patch(offset, x)), Patch(offset + 4, y)), Patch(offset + 8, z)) ==
              Put(buf, Patch(offset, x + y + z))
  {
  }

  method PutArgument(bytes: array<Byte>, a: Argument, v: Values)
    requires Sized(v) && Slot(a).Some? && bytes.Length == MAX_PAYLOAD
    modifies bytes
    ensures Within(Patch(a.offset, DataOf(a, v)), MAX_PAYLOAD)
    ensures bytes[..] == Put(old(bytes[..]), Patch(a.offset, DataOf(a, v)))
  {
    hide Little, Triple, Put;
    match a.kind
    case GlobalOffset => PutTriple(bytes, a.offset, v.globalOffset);
    case LocalSize => PutTriple(bytes, a.offset, v.localSize);
    case ByValue => PutBytes(bytes, a.offset, if a.index == 2 then v.nonce else v.count, 4);
    case ByAddress =>
      if a.mode == Stateless {
        PutBytes(bytes, a.offset, if a.index != 0 then v.outputAddress else v.inputAddress, 8);
      } else {
        PutBytes(bytes, a.offset, if a.index != 0 then v.outputSurface else v.inputSurface, 4);
      }
  }

  method CheckValues(v: Values) returns (ok: bool)
    requires Sized(v)
    ensures ok <==> Usable(v)
  {
    hide GroupOk;
    var required := v.count * 4;
    if v.count == 0 || v.inputAddress == 0 || v.outputAddress == 0 || v.inputAddress % 4 != 0 ||
       v.outputAddress % 4 != 0
       || v.inputBytes < required || v.outputBytes < required
       || !Range(v.inputAddress, v.inputBytes, VA_LIMIT)
       || !Range(v.outputAddress, v.outputBytes, VA_LIMIT) { return false; }
    ok := CheckGroup(v);
  }

  /** How much of the payload goes inline, how much is fetched, and what each thread adds. */
  datatype Sizes = Sizes(size: nat, inlined: nat, indirect: nat, perThread: nat)

  /** Builds the payload, or refuses values that cannot be used. Only a parsed image is `valid`; `cross` is
      its payload size. */
  method BuildPayload(valid: bool, args: seq<Argument>, cross: nat, v: Values)
    returns (error: Error, bytes: array<Byte>, sizes: Sizes)
    requires Sized(v) && (valid ==> LayoutOk(args) && cross == CrossBytes(args))
    ensures error == if !valid then Metadata else if Usable(v) then Fine else InvalidBinding
    ensures error == Fine ==> bytes.Length == MAX_PAYLOAD && bytes[..] == PayloadBytes(args, v)
    ensures error == Fine ==>
              sizes.inlined == INLINE && sizes.perThread == PER_THREAD_BYTES &&
              sizes.inlined + sizes.indirect == sizes.size
    ensures error == Fine ==> sizes.size <= MAX_PAYLOAD && forall a <- args :: a.offset + a.size <= sizes.size
    ensures error == Fine ==>
              forall n: nat | n % 32 == 0 && forall a <- args :: a.offset + a.size <= n :: sizes.size <= n
    ensures error == Fine ==> forall k | sizes.size <= k < MAX_PAYLOAD :: bytes[k] == 0
  {
    hide Slot, DataOf, PayloadBytes, Usable, CrossBytes, Overlaps;
    bytes, sizes := new Byte[MAX_PAYLOAD](_ => 0), Sizes(0, 0, 0, 0);
    if !valid { return Metadata, bytes, sizes; }
    var ok := CheckValues(v);
    if !ok { return InvalidBinding, bytes, sizes; }
    sizes := Sizes(cross, INLINE, cross - INLINE, PER_THREAD_BYTES);
    Start(args, v);
    assert bytes[..] == Blank();
    assert Admitted(args);
    for i := 0 to |args|
      invariant Admitted(args[..i]) && bytes[..] == PayloadBytes(args[..i], v)
    {
      NextPatch(args, v, i);
      PutArgument(bytes, args[i], v);
    }
    assert args[..|args|] == args;
    CrossLeast(args);
    forall k | sizes.size <= k < MAX_PAYLOAD ensures bytes[k] == 0 {
      GapsAreZero(args, v, k);
      assert bytes[k] == bytes[..][k];
    }
    return Fine, bytes, sizes;
  }

  lemma Start(args: seq<Argument>, v: Values)
    requires Sized(v)
    ensures Admitted(args[..0]) && PayloadBytes(args[..0], v) == Blank()
  {
  }

  // ------------------------------------------------------------ reading it back

  lemma ArgumentBytes(args: seq<Argument>, v: Values, a: Argument)
    requires Sized(v) && Admitted(args) && a in args
    ensures Slot(a).Some? && a.offset + a.size <= MAX_PAYLOAD
    ensures PayloadBytes(args, v)[a.offset..a.offset + a.size] == DataOf(a, v)
  {
    hide DataOf, Overlaps;
    var i :| 0 <= i < |args| && args[i] == a;
    PatchesFit(args, v);
    PutAllReads(Blank(), Patches(args, v), i);
  }

  function Word(bytes: seq<Byte>, at: nat): nat
    requires at + 4 <= |bytes|
  {
    Value(bytes[at..at + 4])
  }

  lemma PowerWidths()
    ensures Power(4) == U32 && Power(8) == U64
  {
    assert Power(0) == 1 && Power(1) == 256 && Power(2) == 0x1_0000 && Power(3) == 0x100_0000 && Power(4) == U32;
    assert Power(5) == 256 * U32 && Power(6) == 0x1_0000 * U32 && Power(7) == 0x100_0000 * U32;
  }

  lemma WordReads(bytes: seq<Byte>, at: nat, v: nat)
    requires at + 4 <= |bytes| && bytes[at..at + 4] == Little(v, 4) && v < U32
    ensures Word(bytes, at) == v
  {
    hide Little, Value, Power;
    LittleValue(v, 4);
    PowerWidths();
    DivMod(0, v, U32);
  }

  /** Reading each argument at its offset gives the value supplied for it. */
  lemma ReadBack(args: seq<Argument>, v: Values, a: Argument)
    requires Sized(v) && Admitted(args) && a in args
    ensures Slot(a).Some? && a.offset + a.size <= MAX_PAYLOAD
    ensures var bytes := PayloadBytes(args, v);
            match a.kind
            case GlobalOffset => forall d | 0 <= d < 3 :: Word(bytes, a.offset + 4 * d) == v.globalOffset[d]
            case LocalSize => forall d | 0 <= d < 3 :: Word(bytes, a.offset + 4 * d) == v.localSize[d]
            case ByValue => Word(bytes, a.offset) == if a.index == 2 then v.nonce else v.count
            case ByAddress =>
              if a.mode == Stateless
              then Value(bytes[a.offset..a.offset + 8]) == if a.index == 1 then v.outputAddress else v.inputAddress
              else Word(bytes, a.offset) == if a.index == 1 then v.outputSurface else v.inputSurface
  {
    hide Little, Value, PayloadBytes, Word, Admitted, Power;
    ArgumentBytes(args, v, a);
    var bytes := PayloadBytes(args, v);
    match a.kind
    case GlobalOffset => TripleReads(bytes, a.offset, v.globalOffset);
    case LocalSize => TripleReads(bytes, a.offset, v.localSize);
    case ByValue => WordReads(bytes, a.offset, if a.index == 2 then v.nonce else v.count);
    case ByAddress =>
      if a.mode == Stateless {
        var w := if a.index == 1 then v.outputAddress else v.inputAddress;
        LittleValue(w, 8);
        PowerWidths();
        DivMod(0, w, U64);
      } else {
        WordReads(bytes, a.offset, if a.index == 1 then v.outputSurface else v.inputSurface);
      }
  }

  lemma TripleReads(bytes: seq<Byte>, at: nat, t: seq<nat>)
    requires |t| == 3 && at + 12 <= |bytes| && bytes[at..at + 12] == Triple(t) && forall d | 0 <= d < 3 :: t[d] < U32
    ensures forall d | 0 <= d < 3 :: Word(bytes, at + 4 * d) == t[d]
  {
    hide Little, Word;
    var b := Triple(t);
    assert b[0..4] == Little(t[0], 4) && b[4..8] == Little(t[1], 4) && b[8..12] == Little(t[2], 4);
    SubSlice(bytes, at, b, 0);
    SubSlice(bytes, at, b, 4);
    SubSlice(bytes, at, b, 8);
    WordReads(bytes, at, t[0]);
    WordReads(bytes, at + 4, t[1]);
    WordReads(bytes, at + 8, t[2]);
  }

  lemma SubSlice(bytes: seq<Byte>, at: nat, b: seq<Byte>, k: nat)
    requires at + |b| <= |bytes| && bytes[at..at + |b|] == b && k + 4 <= |b|
    ensures bytes[at + k..at + k + 4] == b[k..k + 4]
  {
    var x, y := bytes[at + k..at + k + 4], b[k..k + 4];
    forall i | 0 <= i < |x| ensures x[i] == y[i] { assert bytes[at..at + |b|][k + i] == bytes[at + k + i]; }
  }

  /** Bytes of no argument are zero. */
  lemma GapsAreZero(args: seq<Argument>, v: Values, k: nat)
    requires Sized(v) && Admitted(args) && k < MAX_PAYLOAD && forall a <- args :: !(a.offset <= k < a.offset + a.size)
    ensures PayloadBytes(args, v)[k] == 0
  {
    hide DataOf, Overlaps, Slot;
    PatchesFit(args, v);
    PutAllAt(Blank(), Patches(args, v), k);
    forall i | 0 <= i < |args| ensures !Covers(Patches(args, v)[i], k) {
      assert args[i] in args;
      assert |DataOf(args[i], v)| == args[i].size;
    }
  }
}
