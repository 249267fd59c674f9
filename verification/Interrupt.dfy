/**
 XeInterrupt::Controller: the workloop side, with the hard interrupt filter free to run between
 any two accesses of what they share.
 */
module Interrupt {
  import opened InterruptRace
  import opened InterruptTrace

  datatype Status = Ok | Empty | Pending | Invalid | Unavailable | IoFailure | Timeout | Unsupported | Faulted
  datatype Handling = Drained | More | Failed

  /** What a handler is asked to do: serve one identity, or the master bits that are no bank's. */
  datatype Duty = Source(id: Identity) | Rest(bits: nat)

  /** An answer of the platform; a write that is refused may have landed all the same. */
  datatype Reply = Reply(yes: bool, landed: bool)

  function Answered(answers: nat -> Reply, k: nat): Reply {
    answers(k)
  }

  function Offered(handling: (nat, Duty) -> Handling, k: nat, duty: Duty): Handling {
    handling(k, duty)
  }

  function Time(times: nat -> nat, k: nat): nat {
    times(k)
  }

  /** Each identity was offered once more after the one before it, and its handler said that it is drained. */
  ghost predicate Done(handling: (nat, Duty) -> Handling, drained: seq<Identity>, handled: seq<nat>, offered: nat) {
    && |handled| == |drained|
    && (forall i | 0 <= i < |handled| ::
          handled[i] < offered && Offered(handling, handled[i], Source(drained[i])) == Drained)
    && (forall i, j | 0 <= i < j < |handled| :: handled[i] < handled[j])
  }

  lemma NothingDone(handling: (nat, Duty) -> Handling, offered: nat)
    ensures Done(handling, [], [], offered)
  {
  }

  lemma DoneLater(handling: (nat, Duty) -> Handling, drained: seq<Identity>, handled: seq<nat>, offered: nat)
    requires Done(handling, drained, handled, offered)
    ensures Done(handling, drained, handled, offered + 1)
  {
    hide Offered;
  }

  lemma DoneMore(handling: (nat, Duty) -> Handling, drained: seq<Identity>, handled: seq<nat>, offered: nat,
                 id: Identity)
    requires Done(handling, drained, handled, offered) && Offered(handling, offered, Source(id)) == Drained
    ensures Done(handling, drained + [id], handled + [offered], offered + 1)
  {
    hide Offered;
  }

  /** What was captured is what was handled followed by what is still in the batch. */
  predicate Balanced(taken: seq<Identity>, drained: seq<Identity>, batch: seq<Identity>, next: nat, ready: bool) {
    if ready then next <= |batch| && taken == drained + batch[next..] else taken == drained
  }

  lemma Handled(taken: seq<Identity>, drained: seq<Identity>, batch: seq<Identity>, next: nat)
    requires next < |batch| && Balanced(taken, drained, batch, next, true)
    ensures Balanced(taken, drained + [batch[next]], batch, next + 1, true)
  {
    assert batch[next..] == [batch[next]] + batch[next + 1..];
  }

  datatype Op = DoConfigure(matches: bool) | DoStart | DoService | DoStop | DoFilter

  class Controller {
    var shared: Shared
    var configured: bool
    var batchReady: bool
    const events: array<Identity>
    var eventCount: nat
    var nextEvent: nat
    var other: nat
    /** Every identity captured and acknowledged since the controller was configured, and every one handled. */
    ghost var taken: seq<Identity>
    ghost var drained: seq<Identity>
    /** The batch in `events`. */
    ghost var batch: seq<Identity>
    /** What the registers answer, access by access; it may be anything. `at` is the next access. */
    const tape: nat -> nat
    var at: nat
    ghost var log: seq<Access>
    /** What the platform answers, question by question, and what time it is at each register access. */
    const answers: nat -> Reply
    var asked: nat
    const times: nat -> nat
    /** What the handlers answer, offer by offer, and which offers drained the identities in `drained`. */
    const handling: (nat, Duty) -> Handling
    var offered: nat
    ghost var handled: seq<nat>
    /** Some admission or access was refused. */
    ghost var refused: bool
    /** Nobody has configured the controller yet. */
    ghost var untouched: bool
    /** A capture was broken off, or a batch thrown away by a stop. */
    ghost var dropped: bool

    ghost predicate Stored()
      reads this`eventCount, this`batch, events
    {
      events.Length == BATCH && eventCount <= BATCH && events[..eventCount] == batch
    }

    ghost predicate Valid()
      reads this`shared, this`configured, this`batchReady, this`eventCount, this`nextEvent, this`taken, this`drained
      reads this`batch, this`at, this`log, this`untouched, this`dropped, this`handled, this`offered, events
    {
      && Stored() && nextEvent <= eventCount
      && (if configured then Safe(shared) && Awake(shared)
        else shared.phase in {Stopped, Fault} && !batchReady && eventCount == 0)
      && (!dropped ==> Balanced(taken, drained, batch, nextEvent, batchReady))
      && Orderly(tape, log) && Rising(log, at) && Done(handling, drained, handled, offered)
      && (!configured && !untouched ==> !shared.master) && (untouched ==> !configured)
    }

    constructor (master: bool, tape: nat -> nat, times: nat -> nat, answers: nat -> Reply,
                 handling: (nat, Duty) -> Handling)
      ensures Valid() && this.tape == tape && !configured && taken == drained == [] && !dropped && fresh(events)
      ensures this.answers == answers && this.handling == handling && !refused
    {
      shared := Shared(Stopped, master, Quiet, false, false);
      configured, batchReady, eventCount, nextEvent, other := false, false, 0, 0, 0;
      events := new Identity[BATCH](_ => Decode(0, 0, 0));
      taken, drained, batch, log, dropped := [], [], [], [], false;
      at, untouched := 0, true;
      this.tape, this.times, this.answers, this.handling := tape, times, answers, handling;
      asked, offered, handled, refused := 0, 0, [], false;
    }

    // ---------------------------------------------------------------- accesses

    /** The filter runs as far as it likes. */
    method Others()
      modifies this`shared
      ensures (old(Safe(shared)) ==> Safe(shared)) && (old(Awake(shared)) ==> Awake(shared))
      ensures shared.phase in {old(shared).phase, Fault} || (old(shared).phase == Armed && shared.phase == Masked)
      ensures (old(shared).missed ==> shared.missed) && (shared.master ==> old(shared).master)
    {
      var answers: seq<Answer> := *;
      FilterRunKeeps(shared, answers);
      shared := FilterRun(shared, answers);
    }

    method Load() returns (p: Phase)
      modifies this`shared
      ensures (old(Safe(shared)) ==> Safe(shared)) && (old(Awake(shared)) ==> Awake(shared))
      ensures p == shared.phase && (p in {old(shared).phase, Fault} || (old(shared).phase == Armed && p == Masked))
      ensures shared.master ==> old(shared).master
    {
      Others();
      return shared.phase;
    }

    /** An admission check or an access to a register nobody else touches. */
    method Ask() returns (ok: bool)
      modifies this`asked, this`refused
      ensures ok == Answered(answers, old(asked)).yes && asked == old(asked) + 1 && refused == (old(refused) || !ok)
    {
      ok := Answered(answers, asked).yes;
      asked := asked + 1;
      refused := refused || !ok;
    }

    /** A register read: the next word of the tape, if it works. */
    method Read() returns (ok: bool, v: nat)
      modifies this`at, this`asked, this`refused
      ensures at == old(at) + 1 && v == Word(tape, old(at)) && refused == (old(refused) || !ok)
    {
      ok := Ask();
      v := Word(tape, at);
      at := at + 1;
    }

    method ReadTile() returns (ok: bool, enabled: bool, low: nat)
      modifies this`asked, this`refused
      modifies this`shared, this`at
      ensures at == old(at) + 1 && low == TileBits(Word(tape, old(at))) && (shared.master ==> old(shared).master)
      ensures (old(Safe(shared)) ==> Safe(shared)) && (old(Awake(shared)) ==> Awake(shared))
      ensures enabled == shared.master
      ensures (shared.phase in {old(shared).phase, Fault} || (old(shared).phase == Armed && shared.phase == Masked))
      ensures refused == (old(refused) || !ok)
    {
      Others();
      var word;
      ok, word := Read();
      low, enabled := TileBits(word), shared.master;
    }

    method PutMaster(on: bool) returns (ok: bool)
      modifies this`asked, this`refused
      modifies this`shared
      ensures shared.phase in {old(shared).phase, Fault} || (old(shared).phase == Armed && shared.phase == Masked)
      ensures ok && on ==> Awake(shared)
      ensures (ok && !on && old(shared).phase != Armed) || !ok ==> Safe(shared) && Awake(shared)
      ensures refused == (old(refused) || !ok)
    {
      hide FilterRun;
      Others();
      EnableAwake(shared);
      if shared.phase != Armed { MaskSafe(shared); }
      var landed := Answered(answers, asked).landed;
      ok := Ask();
      shared := WriteMaster(shared, on, ok, landed);
    }

    method Fail(s: Status) returns (status: Status)
      modifies this`asked, this`refused
      modifies this`shared
      ensures Safe(shared) && Awake(shared) && shared.phase == Fault && status == s
      ensures old(refused) ==> refused
    {
      Others();
      shared := Store(shared, Fault);
      var admitted := Ask();
      if admitted {
        var _ := PutMaster(false);
      } else {
        shared := shared.(missed := true);
      }
      return s;
    }

    // ---------------------------------------------------------------- arming

    /** Arms, enables delivery, and takes the enable back if the filter masked in between. */
    method Rearm() returns (status: Status)
      modifies this`asked, this`refused
      modifies this`shared
      ensures Safe(shared) && Awake(shared) && status in {Ok, IoFailure, Faulted}
      ensures (old(refused) ==> refused) && (status == Ok && refused ==> old(refused))
    {
      hide Safe, Awake;
      Others();
      shared := Store(shared, Armed);
      var ok := PutMaster(true);
      if !ok { status := Fail(IoFailure); return; }
      var after := Load();
      if after == Armed {
        ArmedSafe(shared);
      } else {
        ok := PutMaster(false);
        if !ok { status := Fail(IoFailure); return; }
      }
      return if after == Fault then Faulted else Ok;
    }

    method Configure(matches: bool) returns (status: Status)
      requires Valid()
      modifies this
      ensures log == old(log) && untouched == (old(untouched) && !configured)
      ensures Valid() && (old(configured) || !matches ==> status == Invalid)
      ensures status == Ok ==>
                configured && taken == drained == [] && !dropped && shared.phase != Armed && !shared.master
      ensures status in {Invalid, Unavailable} ==>
                configured == old(configured) && taken == old(taken) && drained == old(drained) &&
                dropped == old(dropped)
      ensures (old(refused) ==> refused) && (status == Ok && refused ==> old(refused))
    {
      hide Safe, Awake, Orderly, Rising, Done, Stored;
      if configured || !matches { return Invalid; }
      var admitted := Ask();
      if !admitted { return Unavailable; }
      configured, untouched := true, false;
      shared := shared.(missed := false);
      taken, drained, handled, dropped := [], [], [], false;
      NothingDone(handling, offered);
      status := Setup();
    }

    /** Masks delivery, then programs the enables. */
    method Setup() returns (status: Status)
      requires shared.phase != Armed && Rising(log, at)
      modifies this`asked, this`refused
      modifies this`shared, this`at
      ensures Safe(shared) && Awake(shared) && Rising(log, at) && status in {Ok, IoFailure}
      ensures status == Ok ==> shared.phase != Armed && !shared.master
      ensures (old(refused) ==> refused) && (status == Ok && refused ==> old(refused))
    {
      hide Safe, Awake, Rising;
      var masked := Mask();
      if !masked { status := Fail(IoFailure); return; }
      status := Program();
    }

    /** Masks delivery and reads the register back. */
    method Mask() returns (ok: bool)
      requires shared.phase != Armed && Rising(log, at)
      modifies this`asked, this`refused
      modifies this`shared, this`at
      ensures Safe(shared) && Awake(shared) && shared.phase in {old(shared).phase, Fault} && Rising(log, at)
      ensures ok ==> !shared.master
      ensures (old(refused) ==> refused) && (ok && refused ==> old(refused))
    {
      hide Safe, Awake, Rising;
      ok := PutMaster(false);
      if !ok { return; }
      var enabled, low;
      ok, enabled, low := ReadTile();
      RisenLater(log, old(at), at);
      ok := ok && !enabled;
    }

    /** The engine and GuC enables and masks, and the final posting read. */
    method Program() returns (status: Status)
      requires Safe(shared) && Awake(shared) && shared.phase != Armed
      modifies this`asked, this`refused
      modifies this`shared
      ensures Safe(shared) && Awake(shared) && shared.phase != Armed && status in {Ok, IoFailure}
      ensures status == Ok && shared.master ==> old(shared).master
      ensures (old(refused) ==> refused) && (status == Ok && refused ==> old(refused))
    {
      hide Safe, Awake;
      for i := 0 to 8
        invariant Safe(shared) && Awake(shared) && shared.phase != Armed && (shared.master ==> old(shared).master)
        invariant refused == old(refused)
      {
        var ok := Ask();
        if !ok { status := Fail(IoFailure); return; }
        Others();
      }
      return Ok;
    }

    method Start() returns (status: Status)
      requires Valid()
      modifies this`asked, this`refused
      modifies this`shared
      ensures Valid() && (!configured || old(shared).phase != Stopped ==> status == Invalid)
      ensures status in {Invalid, Unavailable} ==> shared.phase != Armed || old(shared).phase == Armed
      ensures (old(refused) ==> refused) && (status == Ok && refused ==> old(refused))
    {
      hide Valid;
      var phase := Look();
      if !configured || phase != Stopped { return Invalid; }
      var admitted := Ask();
      if !admitted { return Unavailable; }
      status := Arm();
    }

    /** The phase as it is now; the filter may have moved it. */
    method Look() returns (p: Phase)
      requires Valid()
      modifies this`shared
      ensures Valid() && p == shared.phase && (shared.master ==> old(shared).master)
      ensures p in {old(shared).phase, Fault} || (old(shared).phase == Armed && p == Masked)
    {
      hide Safe, Awake, Stored, Orderly, Rising, Done;
      p := Load();
    }

    method Arm() returns (status: Status)
      requires Valid() && configured
      modifies this`asked, this`refused
      modifies this`shared
      ensures Valid() && status in {Ok, IoFailure, Faulted}
      ensures (old(refused) ==> refused) && (status == Ok && refused ==> old(refused))
    {
      hide Safe, Awake, Stored, Orderly, Rising, Done;
      status := Rearm();
    }

    /** Fails in the middle of service. */
    method Quit(s: Status) returns (status: Status)
      requires Valid() && configured
      modifies this`asked, this`refused
      modifies this`shared
      ensures Valid() && shared.phase == Fault && status == s && (old(refused) ==> refused)
    {
      hide Safe, Awake, Stored, Orderly, Rising, Done;
      status := Fail(s);
    }

    // ---------------------------------------------------------------- capturing

    /** Polls the identity register until it is valid, ten thousand times or a hundred microseconds. */
    method AwaitIdentity() returns (status: Status, raw: nat)
      modifies this`asked, this`refused
      modifies this`at
      ensures old(at) <= at && status in {Ok, IoFailure, Timeout}
      ensures status == Ok ==> Bit(raw, 31) && old(at) < at && raw == Word(tape, at - 1)
      ensures (old(refused) ==> refused) && (status == Ok && refused ==> old(refused))
      ensures status == Timeout ==>
                && (forall k | old(at) <= k < at :: !Bit(Word(tape, k), 31))
                && (at == old(at) + 10000 || Time(times, at) < Time(times, old(at)) ||
                    Time(times, at) >= Time(times, old(at)) + 100)
    {
      hide Bit, Word, Time;
      raw := 0;
      var start := Time(times, at);
      for attempt := 0 to 10000
        invariant at == old(at) + attempt && refused == old(refused)
        invariant forall k | old(at) <= k < at :: !Bit(Word(tape, k), 31)
      {
        var ok;
        ok, raw := Read();
        if !ok { return IoFailure, raw; }
        if Bit(raw, 31) { return Ok, raw; }
        var now := Time(times, at);
        if now < start || now - start >= 100 { return Timeout, raw; }
      }
      return Timeout, raw;
    }

    /** Appends one access to the trace. */
    ghost method Note(e: Access, from: nat)
      requires Rising(log, from) && from <= e.pos < at
      modifies this`log
      ensures log == old(log) + [e] && Rising(log, at)
    {
      Risen(log, from, e, at);
      log := log + [e];
    }

    /** A write that clears something. */
    method Clear(ghost e: Access) returns (ok: bool)
      requires Rising(log, at) && e.pos == at
      modifies this`asked, this`refused
      modifies this`at, this`log
      ensures at == old(at) + 1 && log == old(log) + [e] && Rising(log, at)
      ensures refused == (old(refused) || !ok)
    {
      at := at + 1;
      Note(e, old(at));
      ok := Ask();
    }

    /** Selects, awaits, acknowledges and records one source. An invalid identity is never acknowledged. */
    method Capture(bank: nat, bit: nat) returns (status: Status, ghost id: Identity, ghost tried: seq<Access>)
      requires Stored() && eventCount < BATCH && Rising(log, at)
      modifies this`asked, this`refused
      modifies this`eventCount, this`taken, this`batch, this`log, this`at, events
      ensures Stored() && Rising(log, at) && old(at) <= at && status in {Ok, IoFailure, Timeout}
      ensures if status == Ok then batch == old(batch) + [id] && taken == old(taken) + [id]
              else batch == old(batch) && taken == old(taken)
      ensures log == old(log) + tried && |tried| <= 1
      ensures forall e <- tried :: e.Acked? && Genuine(tape, e) && old(at) <= e.pos
      ensures status == Ok ==> |tried| == 1 && tried[0].id == id && Proper(id) && id.bank == bank && id.bit == bit
      ensures (old(refused) ==> refused) && (status == Ok && refused ==> old(refused))
    {
      hide Bit, Word;
      id, tried := Decode(0, bank, bit), [];
      var ok := Ask();
      if !ok { return IoFailure, id, tried; }
      var raw;
      status, raw := AwaitIdentity();
      if status != Ok { RisenLater(log, old(at), at); return; }
      id := Decode(raw, bank, bit);
      tried := [Acked(at - 1, id)];
      Note(tried[0], old(at));
      ok := Ask();
      if !ok { return IoFailure, id, tried; }
      events[eventCount] := Decode(raw, bank, bit);
      eventCount, batch, taken := eventCount + 1, batch + [id], taken + [id];
    }

    /** Captures one source for each set bit, lowest first. */
    method CaptureBits(bank: nat, word: nat)
      returns (status: Status, ghost found: seq<Identity>, ghost acks: seq<Access>)
      requires Stored() && eventCount <= BATCH - 32 && Rising(log, at)
      modifies this`asked, this`refused
      modifies this`eventCount, this`taken, this`batch, this`log, this`at, events
      ensures Stored() && batch == old(batch) + found && taken == old(taken) + found && |found| <= 32
      ensures Rising(log, at) && old(at) <= at && log == old(log) + acks
      ensures Genuinely(tape, acks) && (forall i | 0 <= i < |acks| :: old(at) <= acks[i].pos)
      ensures (forall id <- found :: Proper(id)) && status in {Ok, IoFailure, Timeout}
      ensures status == Ok ==> AckRun(acks, found) && Keys(found) == Sources(bank, word, 0)
      ensures (old(refused) ==> refused) && (status == Ok && refused ==> old(refused))
    {
      hide Bit, Proper, Stored, Keys, Sources, Genuine, Rising;
      status, found, acks := Ok, [], [];
      CountOf();
      NoKeys();
      for bit := 0 to 32
        invariant Stored() && batch == old(batch) + found && taken == old(taken) + found && |found| <= bit
        invariant Rising(log, at) && old(at) <= at && log == old(log) + acks && AckRun(acks, found)
        invariant Genuinely(tape, acks) && (forall i | 0 <= i < |acks| :: old(at) <= acks[i].pos)
        invariant (forall id <- found :: Proper(id)) && refused == old(refused)
        invariant Keys(found) + Sources(bank, word, bit) == Sources(bank, word, 0)
      {
        CountOf();
        SourcesStep(bank, word, bit, found);
        if Bit(word, bit) {
          ghost var id, tried;
          status, id, tried := Capture(bank, bit);
          acks := acks + tried;
          if status != Ok { return; }
          KeysMore(bank, word, bit, found, id);
          found := found + [id];
        }
      }
      SourcesEnd(bank, word);
      return Ok, found, acks;
    }

    /** Captures every source a bank reports, then clears its summary. `part` is what that adds to the trace. */
    method CaptureBank(bank: nat) returns (status: Status, ghost found: seq<Identity>, ghost part: seq<Access>)
      requires Stored() && eventCount <= BATCH - 32 && Rising(log, at)
      modifies this`asked, this`refused
      modifies this`eventCount, this`taken, this`batch, this`log, this`at, events
      ensures Stored() && batch == old(batch) + found && taken == old(taken) + found && |found| <= 32
      ensures Rising(log, at) && old(at) <= at && log == old(log) + part
      ensures forall i | 0 <= i < |part| :: old(at) <= part[i].pos
      ensures (forall id <- found :: Proper(id)) && status in {Ok, IoFailure, Timeout}
      ensures status == Ok ==> BankPart(tape, part, bank, found, true) && Orderly(tape, part)
      ensures status != Ok ==> forall q :: Orderly(tape, part + [Broken(q)])
      ensures (old(refused) ==> refused) && (status == Ok && refused ==> old(refused))
    {
      hide Bit, Proper, Stored, Keys, Sources, Word, Genuinely, Rising, Orderly, AckRun, Served;
      var ok, word := Read();
      found, part := [], [];
      RisenLater(log, old(at), at);
      if !ok {
        NothingYet(tape);
        forall q ensures Orderly(tape, part + [Broken(q)]) { BreakAfter(tape, part, q); }
        return IoFailure, found, part;
      }
      ghost var s, acks := Summary(old(at), bank), [];
      Note(s, old(at));
      status, found, acks := CaptureBits(bank, word);
      part := [s] + acks;
      if status != Ok {
        forall q ensures Orderly(tape, part + [Broken(q)]) { BankBroken(tape, s, acks, Broken(q)); }
        return;
      }
      ghost var last := Cleared(at, bank, word);
      BankServed(tape, s, acks, found, last);
      AckRunSize(acks, found);
      ok := Clear(last);
      part := part + [last];
      if !ok {
        forall q ensures Orderly(tape, part + [Broken(q)]) { BreakAfter(tape, part, q); }
        return IoFailure, found, part;
      }
      return Ok, found, part;
    }

    /** Reads what is pending and captures all of it: one identity for each source reported. */
    method Collect() returns (status: Status, ghost found: seq<Identity>, ghost part: seq<Access>)
      requires Stored() && nextEvent <= eventCount && shared.phase != Armed && Safe(shared) && Awake(shared)
      requires Orderly(tape, log) && Rising(log, at)
      modifies this`shared, this`batchReady, this`eventCount, this`nextEvent, this`other, this`taken, this`batch
      modifies this`asked, this`refused
      modifies this`log, this`at, this`dropped, events
      ensures Stored() && nextEvent <= eventCount && Safe(shared) && Awake(shared) && shared.phase != Armed
      ensures Orderly(tape, log) && Rising(log, at) && old(at) <= at && log == old(log) + part
      ensures forall i | 0 <= i < |part| :: old(at) <= part[i].pos
      ensures taken == old(taken) + found && forall id <- found :: Proper(id)
      ensures if status == Ok then batchReady && nextEvent == 0 && batch == found && dropped == old(dropped)
              else dropped && batchReady == old(batchReady)
      ensures status == Ok ==> Collected(tape, part, found, other)
      ensures (old(refused) ==> refused) && (status == Ok && refused ==> old(refused))
    {
      hide Safe, Awake, Stored, Proper, Word, Rising, Orderly, TileBits, Gathered;
      found, part := [], [];
      ghost var e;
      var ok, enabled, low := ReadTile();
      RisenLater(log, old(at), at);
      if !ok || enabled {
        status, e := Abort(IoFailure);
        part := [e];
        return;
      }
      ghost var tile := Tile(old(at));
      OrderlyOne(tape, tile);
      OrderlyJoin(tape, log, [tile]);
      Note(tile, old(at));
      part := [tile];
      if low >= 2 {
        status, e := Abort(Unsupported);
        part := [tile, e];
        return;
      }
      if low == 0 {
        Fresh();
        batchReady := true;
        return Ok, found, part;
      }
      ghost var more;
      status, found, more := Gather();
      part := [tile] + more;
      assert part[1..] == more;
    }

    /** The tile reports something: reads and clears the master word, then captures both banks. */
    method Gather() returns (status: Status, ghost found: seq<Identity>, ghost part: seq<Access>)
      requires Stored() && nextEvent <= eventCount && shared.phase != Armed && Safe(shared) && Awake(shared)
      requires Orderly(tape, log) && Rising(log, at)
      modifies this`shared, this`batchReady, this`eventCount, this`nextEvent, this`other, this`taken, this`batch
      modifies this`asked, this`refused
      modifies this`log, this`at, this`dropped, events
      ensures Stored() && nextEvent <= eventCount && Safe(shared) && Awake(shared) && shared.phase != Armed
      ensures Orderly(tape, log) && Rising(log, at) && old(at) <= at && log == old(log) + part
      ensures forall i | 0 <= i < |part| :: old(at) <= part[i].pos
      ensures taken == old(taken) + found && forall id <- found :: Proper(id)
      ensures if status == Ok then batchReady && nextEvent == 0 && batch == found && dropped == old(dropped)
              else dropped && batchReady == old(batchReady)
      ensures status == Ok ==> Gathered(tape, part, found, other)
      ensures (old(refused) ==> refused) && (status == Ok && refused ==> old(refused))
    {
      hide Safe, Awake, Stored, Proper, Word, Rising, Orderly, Named;
      found, part := [], [];
      ghost var e;
      var ok := PutMaster(false);
      if !ok {
        status, e := Abort(IoFailure);
        part := [e];
        return;
      }
      var word;
      ok, word := Read();
      RisenLater(log, old(at), at);
      if !ok {
        status, e := Abort(IoFailure);
        part := [e];
        return;
      }
      ghost var m, c := Master(old(at)), MasterCleared(at, word);
      Note(m, old(at));
      ok := Clear(c);
      part := [m, c];
      PairInOrder(tape, old(log), m, c);
      if !ok {
        status, e := Abort(IoFailure);
        part := [m, c, e];
        return;
      }
      ghost var more;
      status, found, more := Harvest(word);
      part := [m, c] + more;
      assert part[2..] == more;
    }

    /** Captures what the master word names. */
    method Harvest(word: nat) returns (status: Status, ghost found: seq<Identity>, ghost part: seq<Access>)
      requires Stored() && nextEvent <= eventCount && shared.phase != Armed && Safe(shared) && Awake(shared)
      requires Orderly(tape, log) && Rising(log, at)
      modifies this`shared, this`batchReady, this`eventCount, this`nextEvent, this`other, this`taken, this`batch
      modifies this`asked, this`refused
      modifies this`log, this`at, this`dropped, events
      ensures Stored() && nextEvent <= eventCount && Safe(shared) && Awake(shared) && shared.phase != Armed
      ensures Orderly(tape, log) && Rising(log, at) && old(at) <= at && log == old(log) + part
      ensures forall i | 0 <= i < |part| :: old(at) <= part[i].pos
      ensures taken == old(taken) + found && forall id <- found :: Proper(id)
      ensures if status == Ok then batchReady && nextEvent == 0 && batch == found && dropped == old(dropped)
              else dropped && batchReady == old(batchReady)
      ensures status == Ok ==> other == OtherBits(word) && Named(tape, part, found, word)
      ensures (old(refused) ==> refused) && (status == Ok && refused ==> old(refused))
    {
      hide Safe, Awake, Stored, Proper, Rising, Orderly, Bit, BankPart;
      Fresh();
      other := OtherBits(word);
      ghost var first, second, a, b;
      status, first, second, a, b := CaptureAll(word);
      found, part := first + second, a + b;
      BothProper(first, second);
      if status != Ok {
        forall q ensures Orderly(tape, log + [Broken(q)]) {
          OrderlyJoin(tape, old(log), a + b + [Broken(q)]);
          assert old(log) + (a + b + [Broken(q)]) == log + [Broken(q)];
        }
        ghost var e;
        status, e := Abandon(status);
        part := part + [e];
        return;
      }
      OrderlyJoin(tape, old(log), a + b);
      assert Split(tape, part, found, word, first, second, a, b);
      batchReady := true;
    }
    /** Both banks, in order. */
    method CaptureAll(word: nat)
      returns (status: Status, ghost first: seq<Identity>, ghost second: seq<Identity>, ghost a: seq<Access>,
               ghost b: seq<Access>)
      requires Stored() && batch == [] && Rising(log, at)
      modifies this`asked, this`refused
      modifies this`eventCount, this`taken, this`batch, this`log, this`at, events
      ensures Stored() && batch == first + second && taken == old(taken) + (first + second)
      ensures (forall id <- first :: Proper(id)) && (forall id <- second :: Proper(id))
      ensures Rising(log, at) && old(at) <= at && log == old(log) + (a + b)
      ensures forall i | 0 <= i < |a + b| :: old(at) <= (a + b)[i].pos
      ensures status == Ok ==> BankPart(tape, a, 0, first, Bit(word, 0)) && BankPart(tape, b, 1, second, Bit(word, 1))
      ensures status == Ok ==> Orderly(tape, a + b)
      ensures status != Ok ==> forall q :: Orderly(tape, a + b + [Broken(q)])
      ensures (old(refused) ==> refused) && (status == Ok && refused ==> old(refused))
    {
      hide Stored, Bit, Proper, Rising, Orderly, BankPart;
      CountOf();
      status, first, a := CaptureIf(Bit(word, 0), 0);
      second, b := [], [];
      assert a + b == a;
      if status != Ok { return; }
      status, second, b := CaptureIf(Bit(word, 1), 1);
      if status != Ok {
        forall q ensures Orderly(tape, a + b + [Broken(q)]) {
          OrderlyJoin(tape, a, b + [Broken(q)]);
          assert a + (b + [Broken(q)]) == a + b + [Broken(q)];
        }
        return;
      }
      OrderlyJoin(tape, a, b);
    }

    method Fresh()
      requires Stored()
      modifies this`eventCount, this`nextEvent, this`other, this`batch
      ensures Stored() && eventCount == nextEvent == other == 0 && batch == []
    {
      eventCount, nextEvent, other, batch := 0, 0, 0, [];
    }

    method CaptureIf(reported: bool, bank: nat)
      returns (status: Status, ghost found: seq<Identity>, ghost part: seq<Access>)
      requires Stored() && eventCount <= BATCH - 32 && Rising(log, at)
      modifies this`asked, this`refused
      modifies this`eventCount, this`taken, this`batch, this`log, this`at, events
      ensures Stored() && batch == old(batch) + found && taken == old(taken) + found && |found| <= 32
      ensures Rising(log, at) && old(at) <= at && log == old(log) + part && eventCount == |batch|
      ensures forall i | 0 <= i < |part| :: old(at) <= part[i].pos
      ensures forall id <- found :: Proper(id)
      ensures status == Ok ==> BankPart(tape, part, bank, found, reported) && Orderly(tape, part)
      ensures status != Ok ==> forall q :: Orderly(tape, part + [Broken(q)])
      ensures (old(refused) ==> refused) && (status == Ok && refused ==> old(refused))
    {
      hide Proper, Stored, Orderly, Rising, Done, Served;
      CountOf();
      status, found, part := Ok, [], [];
      NothingYet(tape);
      if reported { status, found, part := CaptureBank(bank); }
      CountOf();
    }

    /** Gives the collection up: fails, and notes the break. */
    method Abandon(s: Status) returns (status: Status, ghost e: Access)
      requires Rising(log, at) && forall q :: Orderly(tape, log + [Broken(q)])
      modifies this`asked, this`refused
      modifies this`shared, this`dropped, this`log, this`at
      ensures Safe(shared) && Awake(shared) && shared.phase != Armed && status == s && dropped
      ensures at == old(at) + 1 && e == Broken(old(at)) && log == old(log) + [e]
      ensures Rising(log, at) && Orderly(tape, log)
      ensures old(refused) ==> refused
    {
      hide Rising, Orderly, Safe, Awake;
      status := Fail(s);
      dropped, e := true, Broken(at);
      at := at + 1;
      Note(e, old(at));
    }

    /** Gives up where everything is in order. */
    method Abort(s: Status) returns (status: Status, ghost e: Access)
      requires Rising(log, at) && Orderly(tape, log)
      modifies this`asked, this`refused
      modifies this`shared, this`dropped, this`log, this`at
      ensures Safe(shared) && Awake(shared) && shared.phase != Armed && status == s && dropped
      ensures at == old(at) + 1 && e == Broken(old(at)) && log == old(log) + [e]
      ensures Rising(log, at) && Orderly(tape, log)
      ensures old(refused) ==> refused
    {
      hide Rising, Orderly, Safe, Awake;
      forall q ensures Orderly(tape, log + [Broken(q)]) { BreakAfter(tape, log, q); }
      status, e := Abandon(s);
    }

    // ---------------------------------------------------------------- serving

    /** Hands out the batch in order, then the other sources, and re-arms only when all is handled. */
    method Service() returns (status: Status, ghost rearmed: bool)
      requires Valid()
      modifies this, events
      ensures Valid() && configured == old(configured) && untouched == old(untouched) && old(log) <= log
      ensures old(drained) <= drained && old(taken) <= taken && (old(dropped) ==> dropped)
      ensures rearmed ==> other == 0 && !batchReady && (!dropped ==> drained == taken)
      ensures !rearmed ==> shared.phase != Armed || old(shared).phase == Armed
      ensures (old(refused) ==> refused) && (status == Ok && refused ==> old(refused))
    {
      hide Valid;
      rearmed := false;
      var phase := Look();
      if phase == Fault { return Faulted, false; }
      if phase != Masked && phase != Working { return Empty, false; }
      Unconfigured();
      var admitted := Ask();
      if !admitted { status := Quit(Unavailable); return; }
      BeginWork();
      status, rearmed := Work();
    }

    /** A controller that is not configured has nothing to serve. */
    lemma Unconfigured()
      requires Valid()
      ensures !configured ==> shared.phase in {Stopped, Fault}
    {
    }

    method BeginWork()
      requires Valid() && configured && shared.phase != Armed
      modifies this`shared
      ensures Valid() && shared.phase == Working
    {
      hide Safe, Awake, Stored, Orderly, Rising, Done;
      Others();
      EnterSafe(shared);
      shared := Store(shared, Working);
    }

    /** A batch is ready: the one left from before, or a new one. */
    method Fill() returns (status: Status)
      requires Valid() && configured && shared.phase != Armed
      modifies this`asked, this`refused
      modifies this`shared, this`batchReady, this`eventCount, this`nextEvent, this`other, this`taken, this`batch
      modifies this`log, this`at, this`dropped, events
      ensures Valid() && shared.phase != Armed && old(log) <= log && old(taken) <= taken && (old(dropped) ==> dropped)
      ensures status == Ok ==> batchReady
      ensures (old(refused) ==> refused) && (status == Ok && refused ==> old(refused))
    {
      hide Safe, Awake, Stored, Proper, Orderly, Rising, Done, Collected;
      if batchReady { return Ok; }
      ghost var found, part;
      status, found, part := Collect();
    }

    /** Everything is handled: the batch is over and delivery is armed again. */
    method EndWork() returns (status: Status)
      requires Valid() && configured && batchReady && nextEvent == eventCount
      modifies this`asked, this`refused
      modifies this`shared, this`batchReady
      ensures Valid() && !batchReady && (!dropped ==> drained == taken)
      ensures (old(refused) ==> refused) && (status == Ok && refused ==> old(refused))
    {
      hide Safe, Awake, Stored, Orderly, Rising, Done;
      CountOf();
      batchReady := false;
      status := Rearm();
    }

    method Work() returns (status: Status, ghost rearmed: bool)
      requires Valid() && configured && shared.phase != Armed
      modifies this`shared, this`batchReady, this`eventCount, this`nextEvent, this`other, this`taken, this`drained
      modifies this`asked, this`refused, this`handled, this`offered
      modifies this`batch, this`log, this`at, this`dropped, events
      ensures Valid() && old(log) <= log
      ensures old(drained) <= drained && old(taken) <= taken && (old(dropped) ==> dropped)
      ensures rearmed ==> other == 0 && !batchReady && (!dropped ==> drained == taken)
      ensures !rearmed ==> shared.phase != Armed
      ensures (old(refused) ==> refused) && (status == Ok && refused ==> old(refused))
    {
      hide Valid;
      rearmed := false;
      status := Fill();
      if status != Ok { return; }
      status := Drain();
      if status != Ok { return; }
      status := DrainOther();
      if status != Ok { return; }
      rearmed := true;
      status := EndWork();
    }

    /** Asks a handler; `Done` is what it was, at the next offer. */
    method Offer(duty: Duty) returns (h: Handling)
      requires Done(handling, drained, handled, offered)
      modifies this`offered
      ensures offered == old(offered) + 1 && h == Offered(handling, old(offered), duty)
      ensures Done(handling, drained, handled, old(offered)) && Done(handling, drained, handled, offered)
    {
      hide Done, Offered;
      DoneLater(handling, drained, handled, offered);
      h := Offered(handling, offered, duty);
      offered := offered + 1;
    }

    lemma BatchAt(k: nat)
      requires Stored() && k < eventCount
      ensures k < |batch| && k < events.Length && events[k] == batch[k]
    {
    }

    /** Offers each identity of the batch until it is drained; one that asks for more stays next. */
    method Drain() returns (status: Status)
      requires Valid() && configured && shared.phase != Armed && batchReady
      modifies this`asked, this`refused
      modifies this`shared, this`nextEvent, this`drained, this`handled, this`offered
      ensures Valid() && shared.phase != Armed && old(drained) <= drained
      ensures status == Ok ==> nextEvent == eventCount
      ensures (old(refused) ==> refused) && (status == Ok && refused ==> old(refused))
      ensures status == Pending ==>
                nextEvent < |batch| && 0 < offered && Offered(handling, offered - 1, Source(batch[nextEvent])) == More
    {
      hide Valid, Offered;
      InBatch();
      while nextEvent < eventCount
        invariant Valid() && shared.phase != Armed && old(drained) <= drained && refused == old(refused)
        invariant nextEvent <= eventCount
      {
        var _ := Look();
        var admitted := Ask();
        if !admitted { status := Quit(Unavailable); return; }
        var h := OfferNext();
        if h == More { return Pending; }
        if h == Failed { status := Quit(Unsupported); return; }
      }
      return Ok;
    }

    lemma InBatch()
      requires Valid()
      ensures nextEvent <= eventCount
    {
    }

    /** Offers the next identity; one that is drained is over. */
    method OfferNext() returns (h: Handling)
      requires Valid() && configured && batchReady && nextEvent < eventCount
      modifies this`nextEvent, this`drained, this`handled, this`offered
      ensures Valid() && old(drained) <= drained && nextEvent == old(nextEvent) + if h == Drained then 1 else 0
      ensures nextEvent <= eventCount && old(nextEvent) < |batch| && offered == old(offered) + 1
      ensures h == Offered(handling, old(offered), Source(batch[old(nextEvent)]))
    {
      hide Safe, Awake, Stored, Balanced, Orderly, Rising, Done, Offered;
      CountOf();
      BatchAt(nextEvent);
      h := Offer(Source(events[nextEvent]));
      if h != Drained { return; }
      if !dropped { Handled(taken, drained, batch, nextEvent); }
      DoneMore(handling, drained, handled, offered - 1, batch[nextEvent]);
      drained, handled := drained + [batch[nextEvent]], handled + [offered - 1];
      nextEvent := nextEvent + 1;
    }

    method DrainOther() returns (status: Status)
      requires Valid() && configured && shared.phase != Armed
      modifies this`asked, this`refused
      modifies this`shared, this`other, this`offered
      ensures Valid() && shared.phase != Armed && (status == Ok ==> other == 0)
      ensures (old(refused) ==> refused) && (status == Ok && refused ==> old(refused))
      ensures status == Ok && old(other) != 0 ==> Offered(handling, old(offered), Rest(old(other))) == Drained
      ensures status == Pending ==> Offered(handling, old(offered), Rest(old(other))) == More && other == old(other)
    {
      hide Valid, Offered;
      if other == 0 { return Ok; }
      var admitted := Ask();
      if !admitted { status := Quit(Unavailable); return; }
      var h := OfferRest();
      if h == More { return Pending; }
      if h == Failed { status := Quit(Unsupported); return; }
      other := 0;
      return Ok;
    }

    method OfferRest() returns (h: Handling)
      requires Valid()
      modifies this`offered
      ensures Valid() && offered == old(offered) + 1 && h == Offered(handling, old(offered), Rest(other))
    {
      hide Safe, Awake, Stored, Balanced, Orderly, Rising, Done, Offered;
      h := Offer(Rest(other));
    }

    /** Masks, checks and forgets whatever was not handled. */
    method Stop() returns (status: Status)
      requires Valid()
      modifies this`shared, this`configured, this`batchReady, this`eventCount, this`nextEvent, this`other, this`batch
      modifies this`asked, this`refused
      modifies this`dropped, this`at
      ensures Valid() && shared.phase in {Stopped, Fault} && (old(dropped) ==> dropped)
      ensures status == Ok ==> !configured && (!dropped ==> taken == drained) && (old(configured) ==> !shared.master)
      ensures status != Ok ==>
                configured && batchReady == old(batchReady) && batch == old(batch) && nextEvent == old(nextEvent) &&
                dropped == old(dropped)
      ensures status == Ok && old(configured) && !old(batchReady) ==> dropped == old(dropped)
      ensures (old(refused) ==> refused) && (status == Ok && refused ==> old(refused))
    {
      hide Safe, Awake, Stored, Orderly, Rising, Done;
      Halt();
      if !configured { return Ok; }
      var admitted := Ask();
      if !admitted { Skipped(); return Unavailable; }
      var masked := Mask();
      if !masked { return IoFailure; }
      Forget();
      return Ok;
    }

    /** Whatever was captured and not handled is gone. */
    method Forget()
      requires Valid() && configured && shared.phase in {Stopped, Fault} && !shared.master
      modifies this`configured, this`batchReady, this`eventCount, this`nextEvent, this`other, this`batch, this`dropped
      ensures Valid() && !configured && (!dropped ==> taken == drained)
      ensures (old(dropped) ==> dropped) && (!old(batchReady) ==> dropped == old(dropped))
    {
      hide Safe, Awake, Stored, Orderly, Rising, Done;
      CountOf();
      dropped := dropped || (batchReady && nextEvent < eventCount);
      configured, batchReady := false, false;
      Fresh();
    }

    method Halt()
      modifies this`shared
      ensures shared.phase == Stopped && (shared.master ==> old(shared).master)
    {
      Others();
      shared := Store(shared, Stopped);
    }

    /** The mask write is left out. */
    method Skipped()
      modifies this`shared
      ensures Safe(shared) && Awake(shared) && shared.phase == old(shared).phase
    {
      shared := shared.(missed := true);
    }

    // ---------------------------------------------------------------- runs

    method Perform(op: Op)
      requires Valid()
      modifies this, events
      ensures Valid() && old(log) <= log && (untouched ==> old(untouched))
    {
      hide Safe, Awake, Stored, Orderly, Rising, Done;
      match op
      case DoConfigure(m) => var _ := Configure(m);
      case DoStart => var _ := Start();
      case DoService => var _, _ := Service();
      case DoStop => var _ := Stop();
      case DoFilter => Others();
    }

    /** After any calls, however the filter ran between and inside them. */
    method Execute(ops: seq<Op>)
      requires Valid()
      modifies this, events
      ensures Valid()
      ensures configured && shared.filter == Quiet && !shared.missed ==>
                (shared.master ==> shared.phase == Armed) &&
                (shared.phase == Armed ==> (shared.master <==> !shared.doomed))
      ensures !dropped ==> drained <= taken && |taken| - |drained| <= BATCH
      ensures Orderly(tape, log) && Rising(log, at) && old(log) <= log
      ensures (!configured && !untouched ==> !shared.master) && (untouched ==> old(untouched))
      ensures Done(handling, drained, handled, offered)
    {
      hide Stored;
      for i := 0 to |ops|
        invariant Valid() && old(log) <= log && (untouched ==> old(untouched))
      {
        Perform(ops[i]);
      }
      CountOf();
    }

    lemma CountOf()
      requires Stored()
      ensures eventCount == |batch| <= BATCH
    {
    }
  }

  lemma EnterSafe(s: Shared)
    requires s.phase != Armed && Safe(s)
    ensures Safe(Store(s, Working)) && Awake(Store(s, Working))
  {
  }
}
