/**
 What one interrupt collection reads and clears: the sources its registers report, and the trace of
 accesses that a run of the controller leaves.
 */
module InterruptTrace {
  datatype Identity = Identity(raw: nat, bank: nat, bit: nat, engineClass: nat, instance: nat, vector: nat)

  const BATCH: nat := 64

  predicate Bit(v: nat, k: nat) {
    v / Power(k) % 2 == 1
  }

  function Power(k: nat): (p: nat)
    ensures p > 0
  {
    if k == 0 then 1 else 2 * Power(k - 1)
  }

  function Decode(raw: nat, bank: nat, bit: nat): Identity {
    Identity(raw, bank, bit, raw / 0x1_0000 % 8, raw / 0x10_0000 % 64, raw % 0x1_0000)
  }

  /** The sources a bank's status word reports, from bit `from` on, lowest first. */
  function Sources(bank: nat, dw: nat, from: nat): seq<(nat, nat)>
    decreases 32 - from
  {
    if from >= 32 then [] else (if Bit(dw, from) then [(bank, from)] else []) + Sources(bank, dw, from + 1)
  }

  /** Everything the master word and the two status words report. */
  function Reported(master: nat, dw0: nat, dw1: nat): seq<(nat, nat)> {
    (if Bit(master, 0) then Sources(0, dw0, 0) else []) + (if Bit(master, 1) then Sources(1, dw1, 0) else [])
  }

  function Keys(ids: seq<Identity>): seq<(nat, nat)> {
    seq(|ids|, i requires 0 <= i < |ids| => (ids[i].bank, ids[i].bit))
  }

  predicate Proper(id: Identity) {
    Bit(id.raw, 31) && id == Decode(id.raw, id.bank, id.bit)
  }

  predicate Before(a: (nat, nat), b: (nat, nat)) {
    a.0 < b.0 || (a.0 == b.0 && a.1 < b.1)
  }

  predicate Ascending(keys: seq<(nat, nat)>) {
    forall i, j | 0 <= i < j < |keys| :: Before(keys[i], keys[j])
  }

  lemma {:induction false} SourcesExact(bank: nat, dw: nat, from: nat)
    ensures Ascending(Sources(bank, dw, from))
    ensures forall k <- Sources(bank, dw, from) :: k.0 == bank && from <= k.1 < 32 && Bit(dw, k.1)
    ensures forall k: nat | from <= k < 32 && Bit(dw, k) :: (bank, k) in Sources(bank, dw, from)
    decreases 32 - from
  {
    hide Bit;
    if from < 32 { SourcesExact(bank, dw, from + 1); }
  }

  /** Each pending source once, bank 0 first and lowest bit first, and no other. */
  lemma ReportedExact(master: nat, dw0: nat, dw1: nat)
    ensures var all := Reported(master, dw0, dw1);
            && Ascending(all) && |all| <= BATCH
            && forall b: nat, k: nat ::
                 (b, k) in all <==> b < 2 && k < 32 && Bit(master, b) && Bit(if b == 0 then dw0 else dw1, k)
  {
    hide Bit, Sources;
    SourcesExact(0, dw0, 0);
    SourcesExact(1, dw1, 0);
    SourcesFew(0, dw0, 0);
    SourcesFew(1, dw1, 0);
  }

  lemma {:induction false} SourcesFew(bank: nat, dw: nat, from: nat)
    requires from <= 32
    ensures |Sources(bank, dw, from)| <= 32 - from
    decreases 32 - from
  {
    hide Bit;
    if from < 32 { SourcesFew(bank, dw, from + 1); }
  }

  lemma KeysAppend(a: seq<Identity>, b: seq<Identity>)
    ensures Keys(a + b) == Keys(a) + Keys(b)
  {
  }

  /** Bits 2 to 30 of the master word. */
  function OtherBits(master: nat): nat {
    master / 4 * 4 % 0x8000_0000
  }

  lemma BothProper(a: seq<Identity>, b: seq<Identity>)
    requires (forall id <- a :: Proper(id)) && forall id <- b :: Proper(id)
    ensures forall id <- a + b :: Proper(id)
  {
  }

  lemma NoKeys()
    ensures Keys([]) == []
  {
  }

  lemma SourcesEnd(bank: nat, dw: nat)
    ensures Sources(bank, dw, 32) == []
  {
  }

  lemma SourcesStep(bank: nat, dw: nat, bit: nat, found: seq<Identity>)
    requires bit < 32
    ensures !Bit(dw, bit) ==> Sources(bank, dw, bit) == Sources(bank, dw, bit + 1)
  {
    hide Bit;
  }

  lemma KeysMore(bank: nat, dw: nat, bit: nat, found: seq<Identity>, id: Identity)
    requires bit < 32 && Bit(dw, bit) && id.bank == bank && id.bit == bit
    ensures Keys(found + [id]) + Sources(bank, dw, bit + 1) == Keys(found) + Sources(bank, dw, bit)
  {
    hide Bit;
    KeysAppend(found, [id]);
    assert Keys([id]) == [(bank, bit)];
  }

  // ------------------------------------------------------------ the trace

  /** The accesses of a collection that succeeded in reading, and those that clear, whether or not they report
      success. What a read at position `pos` returned is word `pos` of the tape; an acknowledgement names the
      position at which its identity was read. */
  datatype Access =
    | Tile(pos: nat)
    | Master(pos: nat)
    | MasterCleared(pos: nat, word: nat)
    | Summary(pos: nat, bank: nat)
    | Acked(pos: nat, id: Identity)
    | Cleared(pos: nat, bank: nat, dw: nat)
    | Broken(pos: nat)

  /** The answer to the access at a position. */
  function Word(tape: nat -> nat, pos: nat): nat {
    tape(pos)
  }

  /** Every answer is used once, in order. */
  predicate Rising(log: seq<Access>, at: nat) {
    && (forall i | 0 <= i < |log| :: log[i].pos < at)
    && (forall i, j | 0 <= i < j < |log| :: log[i].pos < log[j].pos)
  }

  lemma Risen(log: seq<Access>, at: nat, e: Access, at': nat)
    requires Rising(log, at) && at <= e.pos < at'
    ensures Rising(log + [e], at')
  {
  }

  lemma RisenLater(log: seq<Access>, at: nat, at': nat)
    requires Rising(log, at) && at <= at'
    ensures Rising(log, at')
  {
  }

  predicate AckRun(part: seq<Access>, found: seq<Identity>) {
    |part| == |found| && forall i | 0 <= i < |part| :: part[i].Acked? && part[i].id == found[i]
  }

  /** The summary read at `i` is followed by one acknowledgement of each source it reports, and then cleared. */
  ghost predicate Served(tape: nat -> nat, log: seq<Access>, i: nat, found: seq<Identity>) {
    && i + |found| + 1 < |log| && log[i].Summary? && log[i + |found| + 1].Cleared?
    && AckRun(log[i + 1..i + 1 + |found|], found)
    && var s, c := log[i], log[i + |found| + 1];
    && c.bank == s.bank && c.dw == Word(tape, s.pos) && Keys(found) == Sources(s.bank, c.dw, 0)
  }

  /** The collection broke off after `n` acknowledgements. */
  predicate BrokenOff(log: seq<Access>, i: nat, n: nat) {
    i + n + 1 < |log| && log[i + n + 1].Broken? && forall k | i < k <= i + n :: log[k].Acked?
  }

  /** Only valid identities that were read are acknowledged; every summary read is served in full or its
      collection broke off; and no summary is cleared otherwise. */
  ghost predicate Orderly(tape: nat -> nat, log: seq<Access>) {
    && (forall i | 0 <= i < |log| && log[i].Acked? :: Genuine(tape, log[i]))
    && (forall i | 0 <= i < |log| && log[i].Summary? :: Accounted(tape, log, i))
    && (forall i | 0 <= i < |log| && log[i].Cleared? :: Due(tape, log, i))
  }

  predicate Genuine(tape: nat -> nat, e: Access)
    requires e.Acked?
  {
    Proper(e.id) && e.id.raw == Word(tape, e.pos)
  }

  ghost predicate Accounted(tape: nat -> nat, log: seq<Access>, i: nat) {
    (exists found :: Served(tape, log, i, found)) || exists n :: BrokenOff(log, i, n)
  }

  ghost predicate Due(tape: nat -> nat, log: seq<Access>, i: nat) {
    exists found: seq<Identity> :: |found| < i && Served(tape, log, i - |found| - 1, found)
  }

  lemma ServedShift(tape: nat -> nat, a: seq<Access>, b: seq<Access>, c: seq<Access>, i: nat, found: seq<Identity>)
    requires Served(tape, b, i, found)
    ensures Served(tape, a + b + c, |a| + i, found)
  {
    hide Keys, Sources, Word;
    var u, n := a + b + c, |a| + i;
    assert forall k | 0 <= k < |b| :: u[|a| + k] == b[k];
    assert u[n + 1..n + 1 + |found|] == b[i + 1..i + 1 + |found|];
  }

  lemma BrokenShift(a: seq<Access>, b: seq<Access>, c: seq<Access>, i: nat, n: nat)
    requires BrokenOff(b, i, n)
    ensures BrokenOff(a + b + c, |a| + i, n)
  {
    var u := a + b + c;
    assert forall k | 0 <= k < |b| :: u[|a| + k] == b[k];
    forall k | |a| + i < k <= |a| + i + n ensures u[k].Acked? { assert u[k] == b[k - |a|]; }
  }

  lemma AccountedShift(tape: nat -> nat, a: seq<Access>, b: seq<Access>, c: seq<Access>, i: nat)
    requires Accounted(tape, b, i)
    ensures Accounted(tape, a + b + c, |a| + i)
  {
    hide Served, BrokenOff;
    if found :| Served(tape, b, i, found) {
      ServedShift(tape, a, b, c, i, found);
    } else {
      var n :| BrokenOff(b, i, n);
      BrokenShift(a, b, c, i, n);
    }
  }

  lemma DueShift(tape: nat -> nat, a: seq<Access>, b: seq<Access>, c: seq<Access>, i: nat)
    requires Due(tape, b, i)
    ensures Due(tape, a + b + c, |a| + i)
  {
    hide Served;
    var found: seq<Identity> :| |found| < i && Served(tape, b, i - |found| - 1, found);
    ServedShift(tape, a, b, c, i - |found| - 1, found);
    assert |a| + (i - |found| - 1) == (|a| + i) - |found| - 1;
  }

  /** Order is a matter of each part. */
  lemma OrderlyJoin(tape: nat -> nat, a: seq<Access>, b: seq<Access>)
    requires Orderly(tape, a) && Orderly(tape, b)
    ensures Orderly(tape, a + b)
  {
    hide Genuine, Accounted, Due;
    var u := a + b;
    assert [] + a + b == u && a + b + [] == u;
    forall i | 0 <= i < |u|
      ensures u[i].Acked? ==> Genuine(tape, u[i])
      ensures u[i].Summary? ==> Accounted(tape, u, i)
      ensures u[i].Cleared? ==> Due(tape, u, i)
    {
      if i < |a| {
        assert u[i] == a[i];
        if a[i].Summary? { AccountedShift(tape, [], a, b, i); }
        if a[i].Cleared? { DueShift(tape, [], a, b, i); }
      } else {
        var k := i - |a|;
        assert u[i] == b[k];
        if b[k].Summary? { AccountedShift(tape, a, b, [], k); }
        if b[k].Cleared? { DueShift(tape, a, b, [], k); }
      }
    }
  }

  lemma NothingYet(tape: nat -> nat)
    ensures Orderly(tape, [])
  {
  }

  /** A break may follow anything that is in order. */
  lemma BreakAfter(tape: nat -> nat, log: seq<Access>, q: nat)
    requires Orderly(tape, log)
    ensures Orderly(tape, log + [Broken(q)])
  {
    hide Orderly;
    OrderlyOne(tape, Broken(q));
    OrderlyJoin(tape, log, [Broken(q)]);
  }

  lemma OrderlyOne(tape: nat -> nat, e: Access)
    requires !e.Acked? && !e.Summary? && !e.Cleared?
    ensures Orderly(tape, [e])
  {
  }

  // ------------------------------------------------------------ one bank

  /** Acknowledgements of identities that were read. */
  ghost predicate Genuinely(tape: nat -> nat, acks: seq<Access>) {
    forall i | 0 <= i < |acks| :: acks[i].Acked? && Genuine(tape, acks[i])
  }

  /** A bank that breaks off is accounted for once the break is recorded. */
  lemma BankBroken(tape: nat -> nat, s: Access, acks: seq<Access>, e: Access)
    requires s.Summary? && Genuinely(tape, acks) && e.Broken?
    ensures Orderly(tape, [s] + acks + [e])
  {
    hide Genuine;
    var u := [s] + acks + [e];
    assert forall i | 0 < i <= |acks| :: u[i] == acks[i - 1];
    assert BrokenOff(u, 0, |acks|);
    assert Accounted(tape, u, 0);
  }

  /** All sources acknowledged, then the summary cleared. */
  lemma BankServed(tape: nat -> nat, s: Access, acks: seq<Access>, found: seq<Identity>, e: Access)
    requires s.Summary? && Genuinely(tape, acks) && AckRun(acks, found)
    requires e.Cleared? && e.bank == s.bank && e.dw == Word(tape, s.pos) && Keys(found) == Sources(s.bank, e.dw, 0)
    ensures Served(tape, [s] + acks + [e], 0, found) && Orderly(tape, [s] + acks + [e])
  {
    hide Genuine, Keys, Sources, Word;
    var u := [s] + acks + [e];
    assert u[1..1 + |found|] == acks;
    assert forall i | 0 < i <= |acks| :: u[i] == acks[i - 1];
    assert Served(tape, u, 0, found);
    assert Accounted(tape, u, 0);
    assert |found| + 1 - |found| - 1 == 0;
    assert Due(tape, u, |found| + 1);
  }

  lemma AckRunSize(acks: seq<Access>, found: seq<Identity>)
    requires AckRun(acks, found)
    ensures |acks| == |found|
  {
  }

  // ------------------------------------------------------------ one collection

  /** What a bank adds to the trace and to the batch. */
  ghost predicate BankPart(tape: nat -> nat, part: seq<Access>, bank: nat, found: seq<Identity>, reported: bool) {
    if reported then |part| == |found| + 2 && part[0].Summary? && part[0].bank == bank && Served(tape, part, 0, found)
    else part == [] && found == []
  }

  /** The tile word without its enable bit. */
  function TileBits(word: nat): nat {
    word % 0x8000_0000
  }

  /** What each bank named by the master word adds. */
  ghost predicate Split(tape: nat -> nat, part: seq<Access>, found: seq<Identity>, word: nat, first: seq<Identity>,
                        second: seq<Identity>, a: seq<Access>, b: seq<Access>)
  {
    && part == a + b && found == first + second
    && BankPart(tape, a, 0, first, Bit(word, 0)) && BankPart(tape, b, 1, second, Bit(word, 1))
  }

  ghost predicate Named(tape: nat -> nat, part: seq<Access>, found: seq<Identity>, word: nat) {
    exists first, second, a, b :: Split(tape, part, found, word, first, second, a, b)
  }

  /** Everything behind a tile word that reports this tile: the master word, which is cleared, and the banks it names.
      `other` is the remaining bits of the master word. */
  ghost predicate Gathered(tape: nat -> nat, part: seq<Access>, found: seq<Identity>, other: nat) {
    && |part| >= 2 && part[0].Master? && part[1].MasterCleared? && part[1].word == Word(tape, part[0].pos)
    && other == OtherBits(part[1].word) && Named(tape, part[2..], found, part[1].word)
  }

  /** A whole collection. The batch is what the acknowledgements name. */
  ghost predicate Collected(tape: nat -> nat, part: seq<Access>, found: seq<Identity>, other: nat) {
    && part != [] && part[0].Tile? && TileBits(Word(tape, part[0].pos)) <= 1
    && if TileBits(Word(tape, part[0].pos)) == 0 then |part| == 1 && found == [] && other == 0
       else Gathered(tape, part[1..], found, other)
  }

  lemma PairInOrder(tape: nat -> nat, log: seq<Access>, e: Access, f: Access)
    requires Orderly(tape, log) && e.Master? && f.MasterCleared?
    ensures Orderly(tape, log + [e, f]) && log + [e] + [f] == log + [e, f]
  {
    hide Orderly;
    OrderlyOne(tape, e);
    OrderlyOne(tape, f);
    OrderlyJoin(tape, [e], [f]);
    assert [e] + [f] == [e, f];
    OrderlyJoin(tape, log, [e, f]);
  }

  /** So the batch is exactly what the words that were read report. */
  lemma CollectedExact(tape: nat -> nat, part: seq<Access>, found: seq<Identity>, word: nat, first: seq<Identity>,
                       second: seq<Identity>, a: seq<Access>, b: seq<Access>)
    requires Split(tape, part, found, word, first, second, a, b)
    ensures var dw0 := if Bit(word, 0) then Word(tape, a[0].pos) else 0;
            var dw1 := if Bit(word, 1) then Word(tape, b[0].pos) else 0;
            Keys(found) == Reported(word, dw0, dw1)
  {
    hide Word, Bit, Sources, Keys;
    NoKeys();
    KeysAppend(first, second);
  }
}
