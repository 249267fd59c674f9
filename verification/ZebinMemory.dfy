/**
 Host memory under XeZebin::Image::stage: the source's overlap test in 64-bit arithmetic, and writes
 that stay inside one window of memory.
 */
module ZebinMemory {
  import opened Arithmetic
  import opened ZebinBytes

  /** The source's test; its sums wrap. */
  predicate Overlap(a: nat, n: nat, b: nat, m: nat) {
    n > 0 && m > 0 && a < (b + m) % U64 && b < (a + n) % U64
  }

  /** There is a byte in both. */
  predicate Shares(a: nat, n: nat, b: nat, m: nat) {
    n > 0 && m > 0 && Meets(a, n, b, m)
  }

  /** For addressable ranges the test is right exactly where neither ends at the top of the address space. */
  lemma OverlapExact(a: nat, n: nat, b: nat, m: nat)
    requires a + n <= U64 && b + m <= U64
    ensures Overlap(a, n, b, m) <==> Shares(a, n, b, m) && a + n < U64 && b + m < U64
  {
    Wrap(a + n);
    Wrap(b + m);
  }

  lemma Wrap(x: nat)
    requires x <= U64
    ensures x % U64 == if x == U64 then 0 else x
  {
  }

  /** The last page of memory does not overlap itself. */
  lemma TopOverlap()
    ensures var a := U64 - 4096; Shares(a, 4096, a, 4096) && !Overlap(a, 4096, a, 4096)
  {
    OverlapExact(U64 - 4096, 4096, U64 - 4096, 4096);
  }

  lemma PutElsewhere(m: seq<Byte>, p: Patch, at: nat, n: nat)
    requires Within(p, |m|) && at + n <= |m| && !Shares(p.offset, |p.data|, at, n)
    ensures Put(m, p)[at..at + n] == m[at..at + n]
  {
    forall j | at <= j < at + n ensures Put(m, p)[j] == m[j] {
      assert !Covers(p, j);
    }
  }

  lemma PutInside(m: seq<Byte>, p: Patch, at: nat, n: nat)
    requires at <= p.offset && p.offset + |p.data| <= at + n <= |m|
    ensures Put(m, p)[at..at + n] == Put(m[at..at + n], Patch(p.offset - at, p.data))
  {
    var q := Patch(p.offset - at, p.data);
    var whole, part := Put(m, p), Put(m[at..at + n], q);
    forall k | 0 <= k < n ensures whole[at..at + n][k] == part[k] {
      if Covers(q, k) {
        assert part[k] == q.data[k - q.offset] == whole[at + k];
      } else {
        assert part[k] == m[at + k] == whole[at + k];
      }
    }
  }

  /** Nothing outside the window changed. */
  predicate OnlyIn(before: seq<Byte>, after: seq<Byte>, at: nat, n: nat) {
    |before| == |after| && forall k | 0 <= k < |before| && !(at <= k < at + n) :: after[k] == before[k]
  }
}
