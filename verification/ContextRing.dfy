/** XeContext::appendRing: command words appended to a context's ring buffer. */
module ContextRing {
  import opened Arithmetic

  datatype Error = Fine | Invalid | Capacity

  predicate RingSize(bytes: nat) {
    4096 <= bytes <= 0x20_0000 && PowerOfTwo(bytes)
  }

  lemma RingSizeEven(bytes: nat)
    requires RingSize(bytes)
    ensures bytes % 8 == 0
  {
    PowersDivide(8, bytes);
  }

  /** The words the engine has yet to read, in order. */
  function Queue(ring: seq<nat>, head: nat, tail: nat): (q: seq<nat>)
    requires head < |ring| && tail < |ring|
    ensures q == [] <==> head == tail
  {
    if head <= tail then ring[head..tail] else ring[head..] + ring[..tail]
  }

  function Zeros(n: nat): (z: seq<nat>)
    ensures |z| == n
  {
    seq(n, _ => 0)
  }

  /** What one append puts behind the queue: a skip to the start if the commands do not fit before
      the end, the commands, and a no-op if their number is odd. */
  function Appended(commands: seq<nat>, skip: nat): seq<nat> {
    Zeros(skip) + commands + Zeros(|commands| % 2)
  }

  // ------------------------------------------------------------ in units of eight bytes

  function Free(n: nat, head: nat, tail: nat): int {
    if head <= tail then head + n - tail - 1 else head - tail - 1
  }

  /** The layout of one append: `at` is where the commands go. */
  predicate Fits(n: nat, head: nat, tail: nat, size: nat, skip: nat, at: nat) {
    && head < n && tail < n && size > 0
    && skip == (if size > n - tail then n - tail else 0) && at == (if skip > 0 then 0 else tail)
    && size + skip <= Free(n, head, tail)
  }

  function NextTail(n: nat, size: nat, at: nat): nat {
    if at + size == n then 0 else at + size
  }

  /** What an append writes lies in the free part and stops short of the head. */
  lemma FitsApart(n: nat, head: nat, tail: nat, size: nat, skip: nat, at: nat)
    requires Fits(n, head, tail, size, skip, at)
    ensures head < n && tail < n && size > 0 && at + size <= n
    ensures (skip > 0 ==> tail + skip == n && at == 0 && size < head <= tail)
    ensures skip == 0 ==>
              at == tail && (tail < head ==> tail + size < head) && (head <= tail && at + size == n ==> head > 0)
    ensures NextTail(n, size, at) != head && NextTail(n, size, at) < n
  {
  }

  // ------------------------------------------------------------ in words

  predicate Changed(was: seq<nat>, now: seq<nat>, tail: nat, commands: seq<nat>, skip: nat, at: nat) {
    && |was| == |now| && at + |commands| + |commands| % 2 <= |now| && tail + skip <= |now|
    && now[at..at + |commands|] == commands
    && (|commands| % 2 == 1 ==> now[at + |commands|] == 0)
    && (forall i | tail <= i < tail + skip :: now[i] == 0)
    && (forall i | 0 <= i < |now| && !(tail <= i < tail + skip) && !(at <= i < at + |commands| + |commands| % 2) ::
          now[i] == was[i])
  }

  lemma {:induction false} OddTail(now: seq<nat>, at: nat, commands: seq<nat>)
    requires at + |commands| + |commands| % 2 <= |now| && now[at..at + |commands|] == commands
    requires |commands| % 2 == 1 ==> now[at + |commands|] == 0
    ensures now[at..at + |commands| + |commands| % 2] == commands + Zeros(|commands| % 2)
  {
    var k := |commands|;
    if k % 2 == 1 { assert now[at..at + k + 1] == now[at..at + k] + [now[at + k]]; }
  }

  /** The engine reads what it would have read before, then what was appended. */
  lemma AppendedQueue(was: seq<nat>, now: seq<nat>, n: nat, head: nat, tail: nat, commands: seq<nat>, size: nat,
                      skip: nat, at: nat)
    requires |was| == 2 * n && Fits(n, head, tail, size, skip, at) && 2 * size == |commands| + |commands| % 2
    requires Changed(was, now, 2 * tail, commands, 2 * skip, 2 * at)
    ensures NextTail(n, size, at) < n
    ensures Queue(now, 2 * head, 2 * NextTail(n, size, at)) ==
              Queue(was, 2 * head, 2 * tail) + Appended(commands, 2 * skip)
  {
    hide Fits, Appended, Zeros, Queue;
    FitsApart(n, head, tail, size, skip, at);
    OddTail(now, 2 * at, commands);
    var block := commands + Zeros(|commands| % 2);
    assert Appended(commands, 2 * skip) == Zeros(2 * skip) + block by { SplitAppended(commands, 2 * skip); }
    if skip > 0 {
      SkipQueue(was, now, 2 * head, 2 * tail, block);
    } else if head <= tail {
      NoSkip(block);
      StraightQueue(was, now, 2 * head, 2 * tail, block);
    } else {
      NoSkip(block);
      WrappedQueue(was, now, 2 * head, 2 * tail, block);
    }
  }

  lemma UnreadKept(was: seq<nat>, now: seq<nat>, n: nat, head: nat, tail: nat, commands: seq<nat>, size: nat, skip: nat,
                   at: nat)
    requires |was| == 2 * n && Fits(n, head, tail, size, skip, at) && 2 * size == |commands| + |commands| % 2
    requires Changed(was, now, 2 * tail, commands, 2 * skip, 2 * at)
    ensures forall i | 0 <= i < |was| && Unread(2 * head, 2 * tail, i) :: now[i] == was[i]
  {
    hide Fits;
    FitsApart(n, head, tail, size, skip, at);
  }

  lemma SplitAppended(commands: seq<nat>, skip: nat)
    ensures Appended(commands, skip) == Zeros(skip) + (commands + Zeros(|commands| % 2))
  {
  }

  lemma NoSkip(block: seq<nat>)
    ensures Zeros(0) + block == block
  {
  }

  lemma SkipQueue(was: seq<nat>, now: seq<nat>, head: nat, tail: nat, block: seq<nat>)
    requires |was| == |now| && |block| < head <= tail < |now| && now[..|block|] == block
    requires (forall i | tail <= i < |now| :: now[i] == 0) && forall i | head <= i < tail :: now[i] == was[i]
    ensures Queue(now, head, |block|) == Queue(was, head, tail) + (Zeros(|now| - tail) + block)
  {
    assert now[head..] == was[head..tail] + Zeros(|now| - tail);
  }

  lemma StraightQueue(was: seq<nat>, now: seq<nat>, head: nat, tail: nat, block: seq<nat>)
    requires |was| == |now| && head <= tail < tail + |block| <= |now| && now[tail..tail + |block|] == block
    requires (forall i | head <= i < tail :: now[i] == was[i]) && (tail + |block| == |now| ==> head > 0)
    ensures var t := if tail + |block| == |now| then 0 else tail + |block|;
            Queue(now, head, t) == Queue(was, head, tail) + block
  {
    assert now[head..tail + |block|] == was[head..tail] + block;
    if tail + |block| == |now| { assert now[head..] == now[head..tail + |block|] && now[..0] == []; }
  }

  lemma WrappedQueue(was: seq<nat>, now: seq<nat>, head: nat, tail: nat, block: seq<nat>)
    requires |was| == |now| && tail + |block| < head < |now| && now[tail..tail + |block|] == block
    requires (forall i | 0 <= i < tail :: now[i] == was[i]) && forall i | head <= i < |now| :: now[i] == was[i]
    ensures Queue(now, head, tail + |block|) == Queue(was, head, tail) + block
  {
    assert now[..tail + |block|] == was[..tail] + block;
    assert now[head..] == was[head..];
  }

  // ------------------------------------------------------------ the method

  method Clear(ring: array<nat>, from: nat, to: nat)
    requires from <= to <= ring.Length
    modifies ring
    ensures forall i | 0 <= i < ring.Length :: ring[i] == if from <= i < to then 0 else old(ring[i])
  {
    for i := from to to
      invariant forall j | 0 <= j < ring.Length :: ring[j] == if from <= j < i then 0 else old(ring[j])
    {
      ring[i] := 0;
    }
  }

  method Copy(ring: array<nat>, at: nat, commands: array<nat>, count: nat)
    requires ring != commands && at + count <= ring.Length && count <= commands.Length
    modifies ring
    ensures forall i | 0 <= i < ring.Length ::
              ring[i] == if at <= i < at + count then commands[i - at] else old(ring[i])
  {
    for i := 0 to count
      invariant forall j | 0 <= j < ring.Length ::
                ring[j] == if at <= j < at + i then commands[j - at] else old(ring[j])
    {
      ring[at + i] := commands[i];
    }
  }

  predicate Acceptable(bytes: nat, head: nat, tail: nat, count: nat) {
    RingSize(bytes) && 0 < count <= (bytes - 8) / 4 && head < bytes && tail < bytes && head % 8 == 0 && tail % 8 == 0
  }

  function Padded(count: nat): nat {
    (count * 4 + 7) / 8 * 8
  }

  function Skip(bytes: nat, tail: nat, count: nat): nat
    requires tail < bytes
  {
    if Padded(count) > bytes - tail then bytes - tail else 0
  }

  /** Every quantity is a whole number of eight-byte units. */
  lemma InUnits(bytes: nat, head: nat, tail: nat, count: nat)
    requires Acceptable(bytes, head, tail, count)
    ensures bytes == 8 * (bytes / 8) && head == 8 * (head / 8) && tail == 8 * (tail / 8)
    ensures Padded(count) == 8 * ((count + 1) / 2) && Skip(bytes, tail, count) == 8 * (Skip(bytes, tail, count) / 8)
    ensures (head + bytes - tail - 8) % bytes == 8 * Free(bytes / 8, head / 8, tail / 8)
    ensures head / 8 < bytes / 8 && tail / 8 < bytes / 8 && (count + 1) / 2 > 0
  {
    hide RingSize;
    RingSizeEven(bytes);
    Rotate(8 * (bytes / 8), 8 * (head / 8), 8 * (tail / 8));
  }

  lemma Rotate(n: nat, head: nat, tail: nat)
    requires head < n && tail + 8 <= n && (head > tail ==> head >= tail + 8)
    ensures (head + n - tail - 8) % n == if head <= tail then head + n - tail - 8 else head - tail - 8
  {
    if head <= tail { DivMod(0, head + n - tail - 8, n); } else { DivMod(1, head - tail - 8, n); }
  }

  /** Either nothing changes, or the queue grows by exactly the commands. */
  method AppendRing(ring: array<nat>, bytes: nat, head: nat, tail: nat, commands: array<nat>, count: nat)
    returns (error: Error, nextTail: nat)
    requires bytes == 4 * ring.Length && count <= commands.Length
    modifies ring
    ensures error == Invalid <==> !Acceptable(bytes, head, tail, count) || ring == commands
    ensures error == Capacity <==>
              Acceptable(bytes, head, tail, count) && ring != commands &&
              Padded(count) + Skip(bytes, tail, count) > (head + bytes - tail - 8) % bytes
    ensures error != Fine ==> ring[..] == old(ring[..]) && nextTail == tail
    ensures error == Fine ==>
              Acceptable(bytes, head, tail, count) && nextTail < bytes && nextTail % 8 == 0 && nextTail != head
    ensures error == Fine ==>
              Queue(ring[..], head / 4, nextTail / 4) ==
              old(Queue(ring[..], head / 4, tail / 4)) + Appended(old(commands[..count]), Skip(bytes, tail, count) / 4)
    ensures error == Fine ==>
              forall i | 0 <= i < ring.Length && Unread(head / 4, tail / 4, i) :: ring[i] == old(ring[i])
  {
    hide RingSize, Padded, Skip, Queue, Appended, Changed;
    if !Acceptable(bytes, head, tail, count) || ring == commands { return Invalid, tail; }
    var padded, skip := Padded(count), Skip(bytes, tail, count);
    var free := (head + bytes - tail - 8) % bytes;
    if padded + skip > free { return Capacity, tail; }
    var start := if skip > 0 then 0 else tail;
    Room(bytes, head, tail, count);
    Write(ring, tail / 4, skip / 4, start / 4, commands, count);
    Finish(old(ring[..]), ring[..], bytes, head, tail, commands[..count]);
    return Fine, (start + padded) % bytes;
  }

  /** The free space the capacity test compares with: all but the queue and the eight-byte gap. */
  lemma FreeSpace(ring: seq<nat>, bytes: nat, head: nat, tail: nat, count: nat)
    requires Acceptable(bytes, head, tail, count) && bytes == 4 * |ring|
    ensures (head + bytes - tail - 8) % bytes == bytes - 4 * |Queue(ring, head / 4, tail / 4)| - 8
  {
    hide RingSize, Padded, Skip;
    InUnits(bytes, head, tail, count);
    AsWords(bytes, head, tail, 0, 0);
  }

  lemma Room(bytes: nat, head: nat, tail: nat, count: nat)
    requires Acceptable(bytes, head, tail, count)
    requires Padded(count) + Skip(bytes, tail, count) <= (head + bytes - tail - 8) % bytes
    ensures var skip := Skip(bytes, tail, count) / 4; var at := if skip > 0 then 0 else tail / 4;
            && tail / 4 + skip <= bytes / 4 && at + count + count % 2 <= bytes / 4
            && (skip > 0 ==> at + count + count % 2 <= tail / 4)
            && (skip > 0 <==> Skip(bytes, tail, count) > 0) && head < bytes && tail < bytes && bytes > 0
  {
    hide Fits, RingSize;
    var skip := Skip(bytes, tail, count);
    InUnits(bytes, head, tail, count);
    FitsUnits(bytes, head, tail, count);
    FitsApart(bytes / 8, head / 8, tail / 8, (count + 1) / 2, skip / 8, if skip > 0 then 0 else tail / 8);
  }

  lemma Finish(was: seq<nat>, now: seq<nat>, bytes: nat, head: nat, tail: nat, commands: seq<nat>)
    requires Acceptable(bytes, head, tail, |commands|) && bytes == 4 * |was|
    requires Padded(|commands|) + Skip(bytes, tail, |commands|) <= (head + bytes - tail - 8) % bytes
    requires var skip := Skip(bytes, tail, |commands|);
             Changed(was, now, tail / 4, commands, skip / 4, if skip > 0 then 0 else tail / 4)
    ensures var skip := Skip(bytes, tail, |commands|);
            var next := ((if skip > 0 then 0 else tail) + Padded(|commands|)) % bytes;
            && next < bytes && next % 8 == 0 && next != head && |now| == |was|
            && Queue(now, head / 4, next / 4) == Queue(was, head / 4, tail / 4) + Appended(commands, skip / 4)
    ensures forall i | 0 <= i < |was| && Unread(head / 4, tail / 4, i) :: now[i] == was[i]
  {
    hide Fits, Queue, Appended, Changed, Acceptable, Unread, Padded, Skip, NextTail, Free;
    var n, h, t, size, s, at := Units(bytes, head, tail, |commands|);
    FitsApart(n, h, t, size, s, at);
    SameLength(was, now, 2 * t, commands, 2 * s, 2 * at);
    AppendedQueue(was, now, n, h, t, commands, size, s, at);
    UnreadKept(was, now, n, h, t, commands, size, s, at);
  }

  /** One append in units, and the next tail it leads to. */
  lemma Units(bytes: nat, head: nat, tail: nat, count: nat) returns (n: nat, h: nat, t: nat, size: nat, s: nat, at: nat)
    requires Acceptable(bytes, head, tail, count)
    requires Padded(count) + Skip(bytes, tail, count) <= (head + bytes - tail - 8) % bytes
    ensures bytes == 8 * n && head == 8 * h && tail == 8 * t && head / 4 == 2 * h && tail / 4 == 2 * t
    ensures Fits(n, h, t, size, s, at)
    ensures var skip := Skip(bytes, tail, count);
            skip == 8 * s && skip / 4 == 2 * s && (if skip > 0 then 0 else tail / 4) == 2 * at
    ensures 2 * size == count + count % 2 && count > 0
    ensures var skip := Skip(bytes, tail, count);
            var next := ((if skip > 0 then 0 else tail) + Padded(count)) % bytes;
            next == 8 * NextTail(n, size, at) && next / 4 == 2 * NextTail(n, size, at)
  {
    hide Fits, RingSize, Padded, Skip, NextTail, Free;
    var skip := Skip(bytes, tail, count);
    var start := if skip > 0 then 0 else tail;
    n, h, t, size, s, at := bytes / 8, head / 8, tail / 8, (count + 1) / 2, skip / 8, start / 8;
    InUnits(bytes, head, tail, count);
    FitsUnits(bytes, head, tail, count);
    FitsApart(n, h, t, size, s, at);
    Advance(bytes, start, Padded(count));
    AsWords(bytes, head, tail, skip, start);
  }

  lemma SameLength(was: seq<nat>, now: seq<nat>, tail: nat, commands: seq<nat>, skip: nat, at: nat)
    requires Changed(was, now, tail, commands, skip, at)
    ensures |was| == |now|
  {
  }

  lemma AsWords(bytes: nat, head: nat, tail: nat, skip: nat, start: nat)
    requires bytes % 8 == head % 8 == tail % 8 == skip % 8 == start % 8 == 0
    ensures head / 4 == 2 * (head / 8) && tail / 4 == 2 * (tail / 8) && skip / 4 == 2 * (skip / 8)
    ensures start / 4 == 2 * (start / 8) && bytes / 4 == 2 * (bytes / 8)
  {
  }

  lemma FitsUnits(bytes: nat, head: nat, tail: nat, count: nat)
    requires Acceptable(bytes, head, tail, count)
    requires Padded(count) + Skip(bytes, tail, count) <= (head + bytes - tail - 8) % bytes
    ensures var skip := Skip(bytes, tail, count);
            Fits(bytes / 8, head / 8, tail / 8, (count + 1) / 2, skip / 8, if skip > 0 then 0 else tail / 8)
  {
    hide Acceptable;
    InUnits(bytes, head, tail, count);
  }

  lemma Advance(bytes: nat, start: nat, padded: nat)
    requires bytes > 0 && bytes % 8 == 0 && start % 8 == 0 && padded % 8 == 0 && start < bytes
    requires start + padded <= bytes
    ensures var t := (start + padded) % bytes;
            t < bytes && t % 8 == 0 && t / 8 == NextTail(bytes / 8, padded / 8, start / 8) && t / 4 == 2 * (t / 8)
  {
    if start + padded < bytes { DivMod(0, start + padded, bytes); } else { DivMod(1, 0, bytes); }
  }

  method Write(ring: array<nat>, tail: nat, skip: nat, at: nat, commands: array<nat>, count: nat)
    requires ring != commands && count <= commands.Length && tail + skip <= ring.Length
    requires at + count + count % 2 <= ring.Length
    requires skip > 0 ==> at + count + count % 2 <= tail
    modifies ring
    ensures Changed(old(ring[..]), ring[..], tail, commands[..count], skip, at)
  {
    if skip > 0 { Clear(ring, tail, tail + skip); }
    Copy(ring, at, commands, count);
    if count % 2 != 0 { ring[at + count] := 0; }
  }
}
