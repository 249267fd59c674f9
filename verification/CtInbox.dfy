/**
 What the G2H ring means to the host: the messages the firmware posted and the host has not
 consumed, in order. Here a message may straddle the end of the ring.
 */
module CtInbox {
  import opened Arithmetic
  import opened CtRing

  /** The words posted and not consumed. */
  function Avail(tail: nat, head: nat, count: nat): nat
    requires head < count
  {
    (tail + count - head) % count
  }

  function WordAt(words: seq<nat>, i: nat): nat
    requires words != []
  {
    words[i % |words|]
  }

  /** `k` words of the ring from `head` on. */
  function View(words: seq<nat>, head: nat, k: nat): (v: seq<nat>)
    requires words != []
    ensures |v| == k
  {
    seq<nat>(k, i requires 0 <= i < k => WordAt(words, head + i))
  }

  function EncodeAll(ms: seq<Wire>): seq<nat> {
    if ms == [] then [] else Encode(ms[0]) + EncodeAll(ms[1..])
  }

  predicate Postable(m: Wire) {
    0 < |m.hxg| < 256 && m.fence < HALF
  }

  predicate Inbox(words: seq<nat>, head: nat, tail: nat, ms: seq<Wire>)
    requires head < |words|
  {
    && tail < |words| && (forall m <- ms :: Postable(m))
    && View(words, head, Avail(tail, head, |words|)) == EncodeAll(ms)
  }

  /** One message more in the ring, nothing unconsumed changed. */
  predicate Posts(words: seq<nat>, head: nat, tail: nat, m: Wire, words': seq<nat>, tail': nat)
    requires head < |words|
  {
    && |words'| == |words| && tail' < |words| && Postable(m)
    && var k := Avail(tail, head, |words|);
    && Avail(tail', head, |words|) == k + |m.hxg| + 1
    && View(words', head, k + |m.hxg| + 1) == View(words, head, k) + Encode(m)
  }

  lemma {:induction false} EncodeAllAppend(ms: seq<Wire>, m: Wire)
    ensures EncodeAll(ms + [m]) == EncodeAll(ms) + Encode(m)
  {
    if ms == [] {
      assert [m][1..] == [] && Encode(m) + [] == Encode(m) == [] + Encode(m);
      assert [] + [m] == [m];
    } else {
      assert (ms + [m])[1..] == ms[1..] + [m];
      EncodeAllAppend(ms[1..], m);
      assert Encode(ms[0]) + (EncodeAll(ms[1..]) + Encode(m)) == Encode(ms[0]) + EncodeAll(ms[1..]) + Encode(m);
    }
  }

  lemma PostAppends(words: seq<nat>, head: nat, tail: nat, ms: seq<Wire>, m: Wire, words': seq<nat>, tail': nat)
    requires head < |words| && Inbox(words, head, tail, ms) && Posts(words, head, tail, m, words', tail')
    ensures Inbox(words', head, tail', ms + [m])
  {
    hide View, EncodeAll, Encode, Avail;
    EncodeAllAppend(ms, m);
  }

  lemma InboxEmpty(words: seq<nat>, head: nat, tail: nat, ms: seq<Wire>)
    requires head < |words| && Inbox(words, head, tail, ms)
    ensures ms == [] <==> Avail(tail, head, |words|) == 0
  {
    hide Avail;
  }

  /** What the host reads at its head is the first message, whole. */
  lemma FirstIn(words: seq<nat>, head: nat, tail: nat, ms: seq<Wire>)
    requires head < |words| && Inbox(words, head, tail, ms) && ms != []
    ensures Postable(ms[0]) && WordAt(words, head) == ms[0].fence * HALF + |ms[0].hxg|
    ensures |ms[0].hxg| + 1 <= Avail(tail, head, |words|)
    ensures forall i | 0 <= i < |ms[0].hxg| :: WordAt(words, head + 1 + i) == ms[0].hxg[i]
  {
    hide Avail, WordAt;
    var m, v := ms[0], View(words, head, Avail(tail, head, |words|));
    assert m in ms;
    assert v == Encode(m) + EncodeAll(ms[1..]);
    assert v[0] == WordAt(words, head + 0) && v[0] == Encode(m)[0];
    forall i | 0 <= i < |m.hxg| ensures WordAt(words, head + 1 + i) == m.hxg[i] {
      assert v[1 + i] == WordAt(words, head + (1 + i)) && v[1 + i] == Encode(m)[1 + i];
    }
  }

  /** The fields of a posted header. */
  lemma HeaderFields(m: Wire)
    requires Postable(m)
    ensures var h := m.fence * HALF + |m.hxg|; h % 256 == |m.hxg| && h / 256 % 256 == 0 && h / HALF % HALF == m.fence
  {
    DivMod(m.fence, |m.hxg|, HALF);
    DivMod(m.fence * 256, |m.hxg|, 256);
    DivMod(m.fence, 0, 256);
    DivMod(0, m.fence, HALF);
  }

  lemma AvailCases(tail: nat, head: nat, count: nat)
    requires tail < count && head < count
    ensures Avail(tail, head, count) == Lag(head, tail, count)
  {
    if head <= tail { DivMod(1, tail - head, count); } else { DivMod(0, tail + count - head, count); }
  }

  lemma AvailAfter(tail: nat, head: nat, count: nat, n: nat)
    requires tail < count && head < count && n <= Avail(tail, head, count)
    ensures (head + n) % count < count && Avail(tail, (head + n) % count, count) == Avail(tail, head, count) - n
  {
    hide Avail;
    AvailCases(tail, head, count);
    if head + n >= count { DivMod(1, head + n - count, count); } else { DivMod(0, head + n, count); }
    AvailCases(tail, if head + n >= count then head + n - count else head + n, count);
  }

  lemma ViewAfter(words: seq<nat>, head: nat, n: nat, k: nat)
    requires head < |words| && n <= k
    ensures View(words, (head + n) % |words|, k - n) == View(words, head, k)[n..]
  {
    hide WordAt;
    var at := (head + n) % |words|;
    var v, u := View(words, at, k - n), View(words, head, k)[n..];
    forall i | 0 <= i < |v| ensures v[i] == u[i] { Wraps(words, head + n, i); }
  }

  lemma Wraps(words: seq<nat>, a: nat, i: nat)
    requires words != []
    ensures WordAt(words, a % |words| + i) == WordAt(words, a + i)
  {
    ModAdd(a, i, |words|);
  }

  lemma ModAdd(a: nat, i: nat, m: nat)
    requires m > 0
    ensures (a % m + i) % m == (a + i) % m
  {
    var q, r := a / m, a % m;
    var s, t := (r + i) / m, (r + i) % m;
    assert a + i == (q + s) * m + t;
    DivMod(q + s, t, m);
  }

  /** Consuming the first message leaves the others. */
  lemma Consume(words: seq<nat>, head: nat, tail: nat, ms: seq<Wire>)
    requires head < |words| && Inbox(words, head, tail, ms) && ms != []
    ensures var head' := (head + 1 + |ms[0].hxg|) % |words|; head' < |words| && Inbox(words, head', tail, ms[1..])
  {
    hide Avail, View;
    FirstIn(words, head, tail, ms);
    var n := 1 + |ms[0].hxg|;
    AvailAfter(tail, head, |words|, n);
    ViewAfter(words, head, n, Avail(tail, head, |words|));
    assert (Encode(ms[0]) + EncodeAll(ms[1..]))[n..] == EncodeAll(ms[1..]);
  }
}
