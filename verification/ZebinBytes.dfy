/** Little-endian values and disjoint patches of a byte buffer, as XeZebin's loader writes them. */
module ZebinBytes {
  import opened Arithmetic

  type Byte = x: nat | x < 256

  predicate Range(start: nat, length: nat, limit: nat) {
    start <= limit && length <= limit - start
  }

  function Power(w: nat): (p: nat)
    ensures p > 0
  {
    if w == 0 then 1 else 256 * Power(w - 1)
  }

  /** The `w` low bytes of `v`, lowest first. */
  function Little(v: nat, w: nat): (s: seq<Byte>)
    ensures |s| == w
  {
    if w == 0 then [] else [v % 256] + Little(v / 256, w - 1)
  }

  function Value(s: seq<Byte>): nat {
    if s == [] then 0 else s[0] + 256 * Value(s[1..])
  }

  /** Reading back what was written gives the value cut to the width. */
  lemma {:induction false} LittleValue(v: nat, w: nat)
    ensures Value(Little(v, w)) == v % Power(w)
  {
    if w > 0 {
      LittleValue(v / 256, w - 1);
      assert Little(v, w)[1..] == Little(v / 256, w - 1);
      SplitMod(v, Power(w - 1));
    }
  }

  lemma SplitMod(v: nat, p: nat)
    requires p > 0
    ensures v % (256 * p) == v % 256 + 256 * (v / 256 % p)
  {
    var q, r := v / 256 / p, v / 256 % p;
    Quotient(v, 256);
    assert v / 256 == q * p + r;
    assert v == q * (256 * p) + (256 * r + v % 256) by { Regroup(v, q, p, r); }
    DivMod(q, 256 * r + v % 256, 256 * p);
  }

  lemma Regroup(v: nat, q: nat, p: nat, r: nat)
    requires v / 256 == q * p + r
    ensures v == q * (256 * p) + (256 * r + v % 256)
  {
    assert q * (256 * p) == 256 * (q * p);
  }

  /** Writing a value read from a buffer gives its bytes again. */
  lemma {:induction false} ValueLittle(s: seq<Byte>)
    ensures Little(Value(s), |s|) == s && Value(s) < Power(|s|)
  {
    if s != [] {
      ValueLittle(s[1..]);
      DivMod(Value(s[1..]), s[0], 256);
      assert s == [s[0]] + s[1..];
    }
  }

  // ------------------------------------------------------------ patches

  datatype Patch = Patch(offset: nat, data: seq<Byte>)

  predicate Within(p: Patch, n: nat) {
    p.offset + |p.data| <= n
  }

  predicate Covers(p: Patch, k: nat) {
    p.offset <= k < p.offset + |p.data|
  }

  predicate Apart(p: Patch, q: Patch) {
    p.offset + |p.data| <= q.offset || q.offset + |q.data| <= p.offset
  }

  predicate AllApart(ps: seq<Patch>) {
    forall i, j | 0 <= i < j < |ps| :: Apart(ps[i], ps[j])
  }

  predicate AllWithin(ps: seq<Patch>, n: nat) {
    forall p <- ps :: Within(p, n)
  }

  function Put(buf: seq<Byte>, p: Patch): (r: seq<Byte>)
    requires Within(p, |buf|)
    ensures |r| == |buf|
  {
    buf[..p.offset] + p.data + buf[p.offset + |p.data|..]
  }

  function PutAll(buf: seq<Byte>, ps: seq<Patch>): (r: seq<Byte>)
    requires AllWithin(ps, |buf|)
    ensures |r| == |buf|
  {
    if ps == [] then buf else Put(PutAll(buf, ps[..|ps| - 1]), ps[|ps| - 1])
  }

  /** Every byte is the patch's that covers it, or the buffer's. */
  lemma {:induction false} PutAllAt(buf: seq<Byte>, ps: seq<Patch>, k: nat)
    requires AllWithin(ps, |buf|) && AllApart(ps) && k < |buf|
    ensures forall i | 0 <= i < |ps| && Covers(ps[i], k) :: PutAll(buf, ps)[k] == ps[i].data[k - ps[i].offset]
    ensures (forall i | 0 <= i < |ps| :: !Covers(ps[i], k)) ==> PutAll(buf, ps)[k] == buf[k]
  {
    if ps != [] {
      var last := |ps| - 1;
      PutAllAt(buf, ps[..last], k);
      assert ps[last] in ps && Within(ps[last], |buf|);
      forall i | 0 <= i < last && Covers(ps[i], k) ensures !Covers(ps[last], k) && ps[..last][i] == ps[i] {
        assert Apart(ps[i], ps[last]);
      }
    }
  }

  /** The patched bytes can be read back whole. */
  lemma PutAllReads(buf: seq<Byte>, ps: seq<Patch>, i: nat)
    requires AllWithin(ps, |buf|) && AllApart(ps) && i < |ps|
    ensures Within(ps[i], |buf|) && PutAll(buf, ps)[ps[i].offset..ps[i].offset + |ps[i].data|] == ps[i].data
  {
    assert ps[i] in ps;
    forall j | 0 <= j < |ps[i].data| ensures PutAll(buf, ps)[ps[i].offset + j] == ps[i].data[j] {
      PutAllAt(buf, ps, ps[i].offset + j);
    }
  }

  /** Disjoint patches give the same bytes in whatever order they are written. */
  lemma AnyOrder(buf: seq<Byte>, ps: seq<Patch>, qs: seq<Patch>)
    requires AllWithin(ps, |buf|) && AllApart(ps) && AllApart(qs) && forall p :: p in ps <==> p in qs
    ensures AllWithin(qs, |buf|) && PutAll(buf, qs) == PutAll(buf, ps)
  {
    hide PutAll;
    forall k | 0 <= k < |buf| ensures PutAll(buf, qs)[k] == PutAll(buf, ps)[k] {
      PutAllAt(buf, ps, k);
      PutAllAt(buf, qs, k);
      if i :| 0 <= i < |qs| && Covers(qs[i], k) {
        assert qs[i] in ps;
        var j :| 0 <= j < |ps| && ps[j] == qs[i];
      } else {
        forall j | 0 <= j < |ps| ensures !Covers(ps[j], k) { assert ps[j] in qs; }
      }
    }
  }

  /** Writes the low bytes of a value, lowest first. */
  method PutBytes(a: array<Byte>, offset: nat, v: nat, width: nat)
    requires Range(offset, width, a.Length)
    modifies a
    ensures a[..] == Put(old(a[..]), Patch(offset, Little(v, width)))
  {
    ghost var all := Little(v, width);
    var rest := v;
    for i := 0 to width
      invariant all[i..] == Little(rest, width - i)
      invariant forall j | 0 <= j < a.Length :: a[j] == if offset <= j < offset + i then all[j - offset] else old(a[j])
    {
      a[offset + i] := rest % 256;
      assert all[i] == rest % 256 && all[i + 1..] == all[i..][1..];
      rest := rest / 256;
    }
  }
}
