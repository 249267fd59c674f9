/**
 The range search of XeGgtt::Manager::reserve. Each granted range is tried at most
 MAX_MAPPINGS + 1 times; that bound never hides a placement.
 */
module GgttSearch {
  import opened Arithmetic
  import opened GgttModel

  predicate Clashes(s: Slot, at: nat, bytes: nat) {
    s.state != Free && Overlap(Range(at, bytes), s.range)
  }

  predicate Vacant(slots: seq<Slot>, at: nat, bytes: nat) {
    forall i | 0 <= i < |slots| :: !Clashes(slots[i], at, bytes)
  }

  /** An aligned, vacant placement inside one granted range. */
  predicate Placement(slots: seq<Slot>, grant: Range, at: nat, bytes: nat, alignment: nat)
    requires alignment > 0
  {
    at % alignment == 0 && grant.address <= at && at + bytes <= grant.End() && Vacant(slots, at, bytes)
  }

  /** The live slots that end beyond `at`: each failed try leaves fewer. */
  ghost function Ahead(slots: seq<Slot>, at: nat): set<nat> {
    set i: nat | i < |slots| && slots[i].state != Free && slots[i].range.End() > at
  }

  lemma {:induction false} AheadBound(slots: seq<Slot>, at: nat)
    ensures |Ahead(slots, at)| <= |slots|
  {
    if slots != [] {
      var n := |slots| - 1;
      AheadBound(slots[..n], at);
      assert Ahead(slots, at) <= Ahead(slots[..n], at) + {n} by {
        forall i | i in Ahead(slots, at) && i != n ensures i in Ahead(slots[..n], at) {
          assert slots[..n][i] == slots[i];
        }
      }
      SubsetCard(Ahead(slots, at), Ahead(slots[..n], at) + {n});
    }
  }

  lemma AheadShrinks(slots: seq<Slot>, at: nat, next: nat, w: nat)
    requires w in Ahead(slots, at) && at <= next && slots[w].range.End() <= next
    ensures |Ahead(slots, next)| < |Ahead(slots, at)|
  {
    assert Ahead(slots, next) <= Ahead(slots, at) - {w};
    SubsetCard(Ahead(slots, next), Ahead(slots, at) - {w});
  }

  /** Where to continue after `at`: past every clashing slot, or `at` itself when nothing clashes. */
  method Skip(slots: seq<Slot>, at: nat, bytes: nat, alignment: nat) returns (next: nat, ghost w: nat)
    requires alignment > 0 && bytes > 0
    ensures next == at ==> Vacant(slots, at, bytes)
    ensures next != at ==>
              at < next && w < |slots| && Clashes(slots[w], at, bytes) &&
              next == AlignUp(slots[w].range.End(), alignment)
  {
    next, w := at, 0;
    for j := 0 to |slots|
      invariant next == at ==> forall i | 0 <= i < j :: !Clashes(slots[i], at, bytes)
      invariant next != at ==>
                at < next && w < |slots| && Clashes(slots[w], at, bytes) &&
                next == AlignUp(slots[w].range.End(), alignment)
    {
      if Clashes(slots[j], at, bytes) {
        AlignUpLeast(slots[j].range.End(), alignment);
        var after := AlignUp(slots[j].range.End(), alignment);
        if after > next { next, w := after, j; }
      }
    }
  }

  /** Between a clash and the aligned end of the clashing slot there is no placement. */
  lemma NothingSkipped(slots: seq<Slot>, at: nat, bytes: nat, alignment: nat, w: nat, x: nat)
    requires alignment > 0 && bytes > 0 && w < |slots| && Clashes(slots[w], at, bytes)
    requires at <= x < AlignUp(slots[w].range.End(), alignment) && x % alignment == 0
    ensures !Vacant(slots, x, bytes)
  {
    AlignUpLeast(slots[w].range.End(), alignment);
    assert Clashes(slots[w], x, bytes);
  }

  method FindInRange(slots: seq<Slot>, grant: Range, bytes: nat, alignment: nat) returns (found: bool, at: nat)
    requires alignment > 0 && bytes > 0 && |slots| == MAX_MAPPINGS
    ensures found ==> Placement(slots, grant, at, bytes, alignment)
    ensures found ==> forall x: nat | x < at :: !Placement(slots, grant, x, bytes, alignment)
    ensures !found ==> forall x: nat :: !Placement(slots, grant, x, bytes, alignment)
  {
    hide AlignUp;
    AlignUpLeast(grant.address, alignment);
    at := AlignUp(grant.address, alignment);
    var attempt := 0;
    AheadBound(slots, at);
    while attempt <= MAX_MAPPINGS && at + bytes <= grant.End()
      invariant at % alignment == 0 && grant.address <= at
      invariant forall x: nat | x < at :: !Placement(slots, grant, x, bytes, alignment)
      invariant attempt + |Ahead(slots, at)| <= MAX_MAPPINGS
      decreases MAX_MAPPINGS + 1 - attempt
    {
      var next;
      ghost var w;
      next, w := Skip(slots, at, bytes, alignment);
      if next == at { return true, at; }
      forall x: nat | at <= x < next && x % alignment == 0
        ensures !Vacant(slots, x, bytes)
      {
        NothingSkipped(slots, at, bytes, alignment, w, x);
      }
      AlignUpLeast(slots[w].range.End(), alignment);
      AheadShrinks(slots, at, next, w);
      at := next;
      attempt := attempt + 1;
    }
    return false, at;
  }

  /** The first granted range with a placement, and the lowest placement in it. */
  method Find(slots: seq<Slot>, grants: seq<Range>, bytes: nat, alignment: nat) returns (found: bool, g: nat, at: nat)
    requires alignment > 0 && bytes > 0 && |slots| == MAX_MAPPINGS
    ensures found ==> g < |grants| && Placement(slots, grants[g], at, bytes, alignment)
    ensures found ==> forall x: nat | x < at :: !Placement(slots, grants[g], x, bytes, alignment)
    ensures forall h, x: nat | 0 <= h < (if found then g else |grants|) ::
              !Placement(slots, grants[h], x, bytes, alignment)
  {
    hide Placement;
    for i := 0 to |grants|
      invariant forall h, x: nat | 0 <= h < i :: !Placement(slots, grants[h], x, bytes, alignment)
    {
      found, at := FindInRange(slots, grants[i], bytes, alignment);
      if found { return true, i, at; }
    }
    return false, 0, 0;
  }
}
