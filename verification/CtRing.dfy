/**
 What a GuC command-transport ring means to its reader: a queue of messages. Messages never
 straddle the end of the ring, and a header of length zero is padding.
 */
module CtRing {
  import opened Arithmetic

  datatype Wire = Wire(fence: nat, hxg: seq<nat>)

  const HALF: nat := 0x1_0000

  /** Header, then the words of the message. */
  function Encode(m: Wire): seq<nat> {
    [m.fence * HALF + |m.hxg|] + m.hxg
  }

  /** What the first header announces: one message, or nothing for padding. */
  function First(w: seq<nat>): seq<Wire>
    requires w != [] && w[0] % HALF < |w|
  {
    if w[0] % HALF == 0 then [] else [Wire(w[0] / HALF, w[1..w[0] % HALF + 1])]
  }

  /** The messages in a run of words, or nothing if the run breaks off inside one. */
  function Parse(w: seq<nat>): Option<seq<Wire>> {
    if w == [] then Some([])
    else if |w| <= w[0] % HALF then None
    else Join(Some(First(w)), Parse(w[w[0] % HALF + 1..]))
  }

  function Join(a: Option<seq<Wire>>, b: Option<seq<Wire>>): Option<seq<Wire>> {
    if a.Some? && b.Some? then Some(a.value + b.value) else None
  }

  /** The messages between head and tail of a ring: the part up to the end, then the part from the start. */
  function Messages(words: seq<nat>, head: nat, tail: nat): Option<seq<Wire>>
    requires head < |words| && tail < |words|
  {
    if head <= tail then Parse(words[head..tail]) else Join(Parse(words[head..]), Parse(words[..tail]))
  }

  /** Free words, one always kept back: `(head - tail - 1) & (count - 1)`, whatever the head says. */
  function Space(head: nat, tail: nat, count: nat): nat
    requires tail < count
  {
    (head + count - tail - 1) % count
  }

  lemma SpaceCases(head: nat, tail: nat, count: nat)
    requires head < count && tail < count
    ensures Space(head, tail, count) == if head > tail then head - tail - 1 else head + count - tail - 1
  {
    if head > tail { DivMod(1, head - tail - 1, count); }
  }

  /** Only the head's place in the ring counts. */
  lemma SpaceWraps(head: nat, tail: nat, count: nat)
    requires tail < count
    ensures head % count < count && Space(head, tail, count) == Space(head % count, tail, count)
  {
    var q, r := head / count, head % count;
    var s := (r + count - tail - 1) / count;
    var t := (r + count - tail - 1) % count;
    assert head + count - tail - 1 == (q + s) * count + t;
    DivMod(q + s, t, count);
  }

  /** The words the reader still has to pass. */
  function Lag(head: nat, tail: nat, count: nat): int {
    if head <= tail then tail - head else tail + count - head
  }

  lemma SpaceIsRest(head: nat, tail: nat, count: nat)
    requires head < count && tail < count
    ensures Space(head, tail, count) == count - 1 - Lag(head, tail, count)
  {
    SpaceCases(head, tail, count);
  }

  // ------------------------------------------------------------ parsing

  lemma JoinAssociates(a: Option<seq<Wire>>, b: Option<seq<Wire>>, c: Option<seq<Wire>>)
    ensures Join(Join(a, b), c) == Join(a, Join(b, c))
  {
    if a.Some? && b.Some? && c.Some? { assert a.value + b.value + c.value == a.value + (b.value + c.value); }
  }

  lemma JoinEmpty(a: Option<seq<Wire>>)
    ensures Join(a, Some([])) == a == Join(Some([]), a)
  {
    if a.Some? { assert a.value + [] == a.value == [] + a.value; }
  }

  lemma {:induction false} ParseConcat(a: seq<nat>, b: seq<nat>)
    requires Parse(a).Some?
    ensures Parse(a + b) == Join(Parse(a), Parse(b))
    decreases |a|
  {
    if a == [] {
      assert a + b == b;
      JoinEmpty(Parse(b));
    } else {
      var n := a[0] % HALF;
      assert (a + b)[n + 1..] == a[n + 1..] + b;
      assert First(a + b) == First(a) by { assert (a + b)[1..n + 1] == a[1..n + 1]; }
      ParseConcat(a[n + 1..], b);
      JoinAssociates(Some(First(a)), Parse(a[n + 1..]), Parse(b));
    }
  }

  lemma {:induction false} ParseZeros(w: seq<nat>)
    requires forall i | 0 <= i < |w| :: w[i] == 0
    ensures Parse(w) == Some([])
  {
    if w != [] {
      ParseZeros(w[1..]);
      JoinEmpty(Some([]));
    }
  }

  /** Decoding an encoded message gives the message back. */
  lemma ParseEncode(m: Wire)
    requires 0 < |m.hxg| < HALF
    ensures Parse(Encode(m)) == Some([m])
  {
    DivMod(m.fence, |m.hxg|, HALF);
    var w := Encode(m);
    assert w[1..|m.hxg| + 1] == m.hxg && w[|m.hxg| + 1..] == [];
    JoinEmpty(Some([m]));
  }

  // ------------------------------------------------------------ writing

  /** Only free words were written: the reader sees the same messages. */
  lemma WriteFree(words: seq<nat>, words': seq<nat>, head: nat, tail: nat)
    requires |words'| == |words| && head < |words| && tail < |words|
    requires forall i | 0 <= i < |words| && Unread(head, tail, i) :: words'[i] == words[i]
    ensures Messages(words', head, tail) == Messages(words, head, tail)
  {
    if head <= tail {
      assert words'[head..tail] == words[head..tail];
    } else {
      assert words'[head..] == words[head..] && words'[..tail] == words[..tail];
    }
  }

  /** The room for a message is free, and the tail does not reach the head. */
  lemma RoomIsFree(head: nat, tail: nat, count: nat, n: nat)
    requires head < count && tail < count && 0 < n <= Space(head, tail, count) && tail + n <= count
    ensures forall i | tail <= i < tail + n :: !Unread(head, tail, i)
    ensures (if tail + n == count then 0 else tail + n) !in {head, tail}
  {
    SpaceCases(head, tail, count);
  }

  /** Words written at the tail are appended to the queue. */
  lemma Append(words: seq<nat>, head: nat, tail: nat, w: seq<nat>, tail': nat)
    requires head < |words| && tail < |words| && 0 < |w| <= Space(head, tail, |words|) && tail + |w| <= |words|
    requires words[tail..tail + |w|] == w && tail' == (if tail + |w| == |words| then 0 else tail + |w|)
    requires Messages(words, head, tail).Some? && Parse(w).Some?
    ensures Messages(words, head, tail') == Join(Messages(words, head, tail), Parse(w))
  {
    hide Parse, Join;
    SpaceCases(head, tail, |words|);
    var from := if head <= tail then head else 0;
    AppendRun(words, from, tail, w);
    if head <= tail {
      if tail' == 0 {
        EmptyParse(words[..0]);
        JoinEmpty(Parse(words[head..]));
      }
    } else {
      assert Parse(words[..tail]).Some? by { JoinSome(Parse(words[head..]), Parse(words[..tail])); }
      JoinAssociates(Parse(words[head..]), Parse(words[..tail]), Parse(w));
    }
  }

  /** A message written at the tail is what the reader gets after everything before it. */
  lemma AppendSent(words: seq<nat>, head: nat, tail: nat, m: Wire, tail': nat, sent: seq<Wire>, taken: nat)
    requires head < |words| && tail < |words| && 0 < |m.hxg| < HALF
    requires |m.hxg| + 1 <= Space(head, tail, |words|) && tail + |m.hxg| + 1 <= |words|
    requires words[tail..tail + |m.hxg| + 1] == Encode(m)
    requires tail' == (if tail + |m.hxg| + 1 == |words| then 0 else tail + |m.hxg| + 1)
    requires taken <= |sent| && Messages(words, head, tail) == Some(sent[taken..])
    ensures Messages(words, head, tail') == Some((sent + [m])[taken..])
  {
    hide Parse, Messages, Space;
    ParseEncode(m);
    Append(words, head, tail, Encode(m), tail');
    assert sent[taken..] + [m] == (sent + [m])[taken..];
  }

  lemma JoinSome(a: Option<seq<Wire>>, b: Option<seq<Wire>>)
    ensures Join(a, b).Some? ==> a.Some? && b.Some?
  {
  }

  lemma AppendRun(words: seq<nat>, from: nat, tail: nat, w: seq<nat>)
    requires from <= tail && tail + |w| <= |words| && words[tail..tail + |w|] == w
    ensures Parse(words[from..tail]).Some? ==>
              Parse(words[from..tail + |w|]) == Join(Parse(words[from..tail]), Parse(w))
    ensures words[0..tail] == words[..tail] && words[0..tail + |w|] == words[..tail + |w|]
    ensures tail + |w| == |words| ==> words[from..tail + |w|] == words[from..]
  {
    hide Parse;
    assert words[from..tail + |w|] == words[from..tail] + w;
    if Parse(words[from..tail]).Some? { ParseConcat(words[from..tail], w); }
  }

  lemma EmptyParse(w: seq<nat>)
    requires |w| == 0
    ensures Parse(w) == Some([])
  {
  }

  lemma EmptyMessages(words: seq<nat>)
    requires words != []
    ensures Messages(words, 0, 0) == Some([])
  {
    hide Parse;
    EmptyParse(words[0..0]);
  }

  /** A message that does not fit before the end leaves room to pad: the head is past the start and not
      past the tail. */
  lemma PadRoom(head: nat, tail: nat, count: nat, n: nat)
    requires head < count && tail < count && n <= Space(head, tail, count) && tail + n > count
    ensures 0 < head <= tail
    ensures Space(head, 0, count) == Space(head, tail, count) - (count - tail)
  {
    SpaceCases(head, tail, count);
    SpaceCases(head, 0, count);
  }

  /** Padding moves the tail to the start without changing the queue. */
  lemma Pad(words: seq<nat>, head: nat, tail: nat)
    requires 0 < head <= tail < |words|
    requires forall i | tail <= i < |words| :: words[i] == 0
    requires Messages(words, head, tail).Some?
    ensures Messages(words, head, 0) == Messages(words, head, tail)
  {
    assert words[head..] == words[head..tail] + words[tail..];
    ParseZeros(words[tail..]);
    ParseConcat(words[head..tail], words[tail..]);
    EmptyParse(words[..0]);
    JoinEmpty(Parse(words[head..tail]));
  }

  // ------------------------------------------------------------ the queue

  /** The messages between head and tail are `ms`. */
  predicate Outbox(words: seq<nat>, head: nat, tail: nat, ms: seq<Wire>) {
    head < |words| && tail < |words| && Messages(words, head, tail) == Some(ms)
  }

  lemma OutboxKept(words: seq<nat>, words': seq<nat>, head: nat, tail: nat, ms: seq<Wire>, n: nat)
    requires Outbox(words, head, tail, ms) && |words'| == |words| && Lag(head, tail, |words|) + n < |words|
    requires tail + n <= |words|
    requires forall i | 0 <= i < |words| && !(tail <= i < tail + n) :: words'[i] == words[i]
    ensures Outbox(words', head, tail, ms)
  {
    hide Messages;
    WriteFree(words, words', head, tail);
  }

  lemma OutboxPadded(words: seq<nat>, head: nat, tail: nat, ms: seq<Wire>)
    requires Outbox(words, head, tail, ms) && 0 < head <= tail && forall i | tail <= i < |words| :: words[i] == 0
    ensures Outbox(words, head, 0, ms)
  {
    hide Messages;
    Pad(words, head, tail);
  }

  lemma OutboxGrows(words: seq<nat>, head: nat, tail: nat, sent: seq<Wire>, taken: nat, m: Wire, tail': nat)
    requires taken <= |sent| && Outbox(words, head, tail, sent[taken..]) && 0 < |m.hxg| < HALF
    requires tail + |m.hxg| + 1 <= |words|
    requires Lag(head, tail, |words|) + |m.hxg| + 1 < |words| && words[tail..tail + |m.hxg| + 1] == Encode(m)
    requires tail' == if tail + |m.hxg| + 1 == |words| then 0 else tail + |m.hxg| + 1
    ensures Outbox(words, head, tail', (sent + [m])[taken..])
  {
    hide Messages, Encode;
    SpaceIsRest(head, tail, |words|);
    AppendSent(words, head, tail, m, tail', sent, taken);
  }

  // ------------------------------------------------------------ reading

  /** How far the reader moves: past one padding word or one message. */
  function Next(words: seq<nat>, head: nat): nat
    requires head < |words|
  {
    var n := head + 1 + words[head] % HALF;
    if n == |words| then 0 else n
  }

  /** A reader that follows the headers takes the messages one by one, in order, and never reads across the end. */
  lemma Take(words: seq<nat>, head: nat, tail: nat)
    requires head < |words| && tail < |words| && head != tail && Messages(words, head, tail).Some?
    ensures head + words[head] % HALF < |words| && Next(words, head) < |words|
    ensures Messages(words, head, tail) == Join(Some(First(words[head..])), Messages(words, Next(words, head), tail))
    ensures Lag(Next(words, head), tail, |words|) < Lag(head, tail, |words|)
  {
    hide Parse;
    var n := words[head] % HALF;
    if head <= tail {
      TakeStraight(words, head, tail);
    } else {
      var run := words[head..];
      ParseOpen(run);
      JoinAssociates(Some(First(run)), Parse(run[n + 1..]), Parse(words[..tail]));
      if head + 1 + n == |words| {
        assert words[0..tail] == words[..tail];
        EmptyParse(run[n + 1..]);
        JoinEmpty(Parse(words[..tail]));
      } else {
        assert run[n + 1..] == words[head + 1 + n..];
      }
    }
  }

  lemma ParseOpen(w: seq<nat>)
    requires w != [] && Parse(w).Some?
    ensures w[0] % HALF < |w| && Parse(w) == Join(Some(First(w)), Parse(w[w[0] % HALF + 1..]))
  {
  }

  lemma TakeStraight(words: seq<nat>, head: nat, tail: nat)
    requires head < tail < |words| && Parse(words[head..tail]).Some?
    ensures head + words[head] % HALF < tail
    ensures Parse(words[head..tail]) ==
              Join(Some(First(words[head..])), Parse(words[head + words[head] % HALF + 1..tail]))
  {
    hide Parse;
    var n := words[head] % HALF;
    var run := words[head..tail];
    ParseOpen(run);
    assert run[0] == words[head] && n < |run|;
    SliceOfSlice(words, head, tail, n + 1, |run|);
    SliceOfSlice(words, head, tail, 1, n + 1);
    SliceOfSlice(words, head, |words|, 1, n + 1);
    assert run[n + 1..] == run[n + 1..|run|];
    assert words[head..] == words[head..|words|];
  }

  lemma SliceOfSlice<T>(s: seq<T>, a: nat, b: nat, i: nat, j: nat)
    requires a <= b <= |s| && i <= j <= b - a
    ensures s[a..b][i..j] == s[a + i..a + j]
  {
    var x, y := s[a..b][i..j], s[a + i..a + j];
    forall k | 0 <= k < |x| ensures x[k] == y[k] {
      assert x[k] == s[a..b][i + k];
    }
  }
}
