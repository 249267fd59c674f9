/**
 Where the regions of XeGuCRegions::Owner lie in host memory: their CPU bytes and their DMA page
 lists. A region that passed the alias test and was published shares no byte with another.
 */
module RegionMemory {
  import opened Arithmetic
  import opened GgttModel
  import opened GgttBackend

  /** Owner::alias: the candidate's CPU bytes or page list touch its own list, or another region's bytes or list. */
  predicate Aliases(regions: seq<Region>, i: nat)
    requires i < |regions|
  {
    var c := regions[i];
    || Meets(c.cpu, c.bytes, c.pin.list, ListBytes(c))
    || exists j | 0 <= j < |regions| :: j != i && regions[j].state != RFree && AliasPair(c, regions[j])
  }

  predicate AliasPair(c: Region, s: Region) {
    || (s.pin.cookie != 0 && s.pin.cookie == c.pin.cookie)
    || (s.cpu != 0 && Meets(c.cpu, c.bytes, s.cpu, s.bytes))
    || (s.pin.list != 0 && 0 < |s.pin.pages| <= MAX_PAGES &&
        (|| s.pin.list + ListBytes(s) > UINTPTR_MAX
         || Meets(c.cpu, c.bytes, s.pin.list, ListBytes(s))
         || Meets(c.pin.list, ListBytes(c), s.pin.list, ListBytes(s))))
    || (s.cpu != 0 && Meets(c.pin.list, ListBytes(c), s.cpu, s.bytes))
  }

  function ListBytes(r: Region): nat {
    |r.pin.pages| * 8
  }

  // ------------------------------------------------------------ regions in use

  /** Host writes and firmware holds are given out on these only. */
  predicate Usable(r: Region) {
    r.state == RPublished && r.reserved
  }

  /** The region's own bytes and list are addressable and apart. */
  predicate Placed(r: Region) {
    && Canonical(r) && r.cpu != 0 && r.cpu + r.bytes <= UINTPTR_MAX
    && !Meets(r.cpu, r.bytes, r.pin.list, ListBytes(r))
  }

  /** Two regions share neither pin, nor CPU bytes, nor page list. */
  predicate Separate(a: Region, b: Region) {
    && a.pin.cookie != b.pin.cookie
    && !Meets(a.cpu, a.bytes, b.cpu, b.bytes)
    && !Meets(a.cpu, a.bytes, b.pin.list, ListBytes(b))
    && !Meets(b.cpu, b.bytes, a.pin.list, ListBytes(a))
    && !Meets(a.pin.list, ListBytes(a), b.pin.list, ListBytes(b))
  }

  predicate Separated(regions: seq<Region>) {
    && (forall i | 0 <= i < |regions| && Usable(regions[i]) :: Placed(regions[i]))
    && (forall i, j | 0 <= i < j < |regions| && Usable(regions[i]) && Usable(regions[j]) ::
          Separate(regions[i], regions[j]))
  }

  predicate SamePlace(a: Region, b: Region) {
    a.cpu == b.cpu && a.bytes == b.bytes && a.pin == b.pin && a.pinOwned == b.pinOwned
  }

  /** A record may change in place, or stop being usable. */
  lemma SeparatedKept(regions: seq<Region>, i: nat, r: Region)
    requires Separated(regions) && i < |regions|
    requires Usable(r) ==> Usable(regions[i]) && SamePlace(r, regions[i])
    ensures Separated(regions[i := r])
  {
    hide Meets;
    var u := regions[i := r];
    forall a, b | 0 <= a < b < |u| && Usable(u[a]) && Usable(u[b]) ensures Separate(u[a], u[b]) {
      assert Separate(regions[a], regions[b]);
    }
  }

  /** What the alias test is for: a candidate that passes it can be published beside all others. */
  lemma SeparatedGrows(regions: seq<Region>, i: nat, r: Region)
    requires Separated(regions) && i < |regions| && Placed(regions[i]) && !Aliases(regions, i)
    requires SamePlace(r, regions[i])
    ensures Separated(regions[i := r])
  {
    hide Meets;
    var u := regions[i := r];
    forall a, b | 0 <= a < b < |u| && Usable(u[a]) && Usable(u[b]) ensures Separate(u[a], u[b]) {
      if a == i {
        NoAlias(regions[i], regions[b]);
      } else if b == i {
        NoAlias(regions[i], regions[a]);
        SeparateBothWays(regions[i], regions[a]);
      } else {
        assert Separate(regions[a], regions[b]);
      }
    }
  }

  lemma NoAlias(c: Region, s: Region)
    requires Placed(c) && Placed(s) && !AliasPair(c, s)
    ensures Separate(c, s)
  {
    hide Meets;
    assert Meets(s.cpu, s.bytes, c.pin.list, ListBytes(c)) == Meets(c.pin.list, ListBytes(c), s.cpu, s.bytes) by {
      MeetsBothWays(s.cpu, s.bytes, c.pin.list, ListBytes(c));
    }
  }

  lemma MeetsBothWays(a: nat, n: nat, b: nat, m: nat)
    ensures Meets(a, n, b, m) == Meets(b, m, a, n)
  {
  }

  lemma SeparateBothWays(a: Region, b: Region)
    requires Separate(a, b)
    ensures Separate(b, a)
  {
  }

  /** The alias test looks at where things lie only. */
  lemma AliasSame(regions: seq<Region>, i: nat, r: Region)
    requires i < |regions| && SamePlace(r, regions[i])
    ensures Aliases(regions, i) == Aliases(regions[i := r], i)
  {
    var u := regions[i := r];
    assert forall j | 0 <= j < |regions| && j != i :: u[j] == regions[j];
    assert forall j | 0 <= j < |regions| && j != i :: AliasPair(r, u[j]) == AliasPair(regions[i], regions[j]);
  }

  // ------------------------------------------------------------ bytes

  function ByteAt(memory: map<nat, nat>, a: nat): nat {
    if a in memory then memory[a] else 0
  }

  /** `bytes` bytes came from `source` to `target`, and nothing else changed. */
  ghost predicate Copied(before: map<nat, nat>, after: map<nat, nat>, target: nat, source: nat, bytes: nat) {
    && (forall a: nat | target <= a < target + bytes :: ByteAt(after, a) == ByteAt(before, source + a - target))
    && (forall a: nat | a < target || target + bytes <= a :: ByteAt(after, a) == ByteAt(before, a))
  }

  ghost predicate SameBytes(before: map<nat, nat>, after: map<nat, nat>, start: nat, bytes: nat) {
    forall a: nat | start <= a < start + bytes :: ByteAt(after, a) == ByteAt(before, a)
  }

  /** Bytes that the copy does not aim at stay as they were. */
  lemma CopyMisses(before: map<nat, nat>, after: map<nat, nat>, target: nat, source: nat, bytes: nat, start: nat,
                   n: nat)
    requires Copied(before, after, target, source, bytes) && !Meets(target, bytes, start, n)
    ensures SameBytes(before, after, start, n)
  {
  }

  /** A copy into one usable region misses every page list and every other usable region. */
  lemma CopyStaysInside(regions: seq<Region>, i: nat, offset: nat, source: nat, bytes: nat, before: map<nat, nat>,
                        after: map<nat, nat>)
    requires Separated(regions) && i < |regions| && Usable(regions[i]) && offset + bytes <= regions[i].bytes
    requires Copied(before, after, regions[i].cpu + offset, source, bytes)
    ensures Isolated(regions, i, before, after)
  {
    hide Copied, SameBytes;
    var target := regions[i].cpu + offset;
    forall j | 0 <= j < |regions| && Usable(regions[j])
      ensures SameBytes(before, after, regions[j].pin.list, ListBytes(regions[j]))
      ensures j != i ==> SameBytes(before, after, regions[j].cpu, regions[j].bytes)
    {
      if i < j { assert Separate(regions[i], regions[j]); }
      if j < i { assert Separate(regions[j], regions[i]); }
      CopyMisses(before, after, target, source, bytes, regions[j].pin.list, ListBytes(regions[j]));
      if j != i { CopyMisses(before, after, target, source, bytes, regions[j].cpu, regions[j].bytes); }
    }
  }

  /** No page list in use changed, and of the regions in use only `i` may have other bytes. */
  ghost predicate Isolated(regions: seq<Region>, i: nat, before: map<nat, nat>, after: map<nat, nat>) {
    forall j | 0 <= j < |regions| && Usable(regions[j]) ::
      && SameBytes(before, after, regions[j].pin.list, ListBytes(regions[j]))
      && (j != i ==> SameBytes(before, after, regions[j].cpu, regions[j].bytes))
  }

  lemma CopyGrows(before: map<nat, nat>, after: map<nat, nat>, target: nat, source: nat, i: nat)
    requires Copied(before, after, target, source, i) && (source + i < target || target + i <= source + i)
    ensures Copied(before, after[target + i := ByteAt(after, source + i)], target, source, i + 1)
  {
    var next := after[target + i := ByteAt(after, source + i)];
    assert ByteAt(after, source + i) == ByteAt(before, source + i);
    forall a: nat | target <= a < target + i + 1 ensures ByteAt(next, a) == ByteAt(before, source + a - target) {
      if a < target + i { assert ByteAt(next, a) == ByteAt(after, a); }
    }
    forall a: nat | a < target || target + i + 1 <= a ensures ByteAt(next, a) == ByteAt(before, a) {
      assert ByteAt(next, a) == ByteAt(after, a);
    }
  }

  /** Owner::write copies upwards byte by byte; as source and target do not meet, that is one copy. */
  method CopyBytes(memory: map<nat, nat>, target: nat, source: nat, bytes: nat) returns (after: map<nat, nat>)
    requires !Meets(target, bytes, source, bytes)
    ensures Copied(memory, after, target, source, bytes)
  {
    after := memory;
    for i := 0 to bytes
      invariant Copied(memory, after, target, source, i)
    {
      CopyGrows(memory, after, target, source, i);
      after := after[target + i := ByteAt(after, source + i)];
    }
  }
}
