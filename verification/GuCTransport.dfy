/**
 XeGuC::Transport: requests out over the H2G ring, replies and events in over the G2H ring. The
 peer may act between any two accesses the host makes to what they share.
 */
module GuCTransport {
  import opened Arithmetic
  import opened CtRing
  import opened CtInbox
  import opened CtLedger
  import opened CtActions

  datatype Status =
    | Ok | Invalid | Unavailable | Busy | Empty | Corrupt | IoFailure | UnknownCookie | Exhausted | PublishedUnknown
    | StaleEpoch

  datatype Descriptor = Descriptor(head: nat, tail: nat, status: nat)

  /** Both descriptors as the peer shows them at one moment. */
  datatype Shown = Shown(h: Descriptor, g: Descriptor)

  /** What the host reads of them, in this order. */
  datatype Field = HStatus | GStatus | HTail | GHead | HHead | GTail

  /** The two fields that the host writes itself. */
  predicate Own(f: Field) {
    f == HTail || f == GHead
  }

  function FieldOf(s: Shown, f: Field): nat {
    match f
    case HStatus => s.h.status
    case GStatus => s.g.status
    case HTail => s.h.tail
    case GHead => s.g.head
    case HHead => s.h.head
    case GTail => s.g.tail
  }

  predicate Shows(s: Shown, h: Descriptor, g: Descriptor) {
    s.h.head == h.head && s.h.status == h.status && s.g.tail == g.tail && s.g.status == g.status
  }

  function At(tape: nat -> Shown, k: nat): Shown {
    tape(k)
  }

  /** What the platform answers to question `k`: admission, barriers, authorization, notification. */
  function Reply(answers: nat -> bool, k: nat): bool {
    answers(k)
  }

  ghost predicate Yes(answers: nat -> bool, first: nat, last: nat) {
    forall k | first <= k < last :: Reply(answers, k)
  }

  /** Exactly `n` questions were asked, and every answer was yes. */
  ghost predicate Heard(answers: nat -> bool, first: nat, last: nat, n: nat) {
    last == first + n && Yes(answers, first, last)
  }

  lemma HeardMore(answers: nat -> bool, first: nat, middle: nat, last: nat, n: nat, m: nat)
    requires Heard(answers, first, middle, n) && Heard(answers, middle, last, m)
    ensures Heard(answers, first, last, n + m)
  {
    hide Reply;
  }

  lemma NothingHeard(answers: nat -> bool, at: nat)
    ensures Heard(answers, at, at, 0)
  {
  }

  /** A refusal within a span is a refusal in it. */
  lemma NoWithin(answers: nat -> bool, first: nat, a: nat, b: nat, last: nat)
    requires first <= a <= b <= last
    ensures Yes(answers, first, last) ==> Yes(answers, a, b)
  {
    hide Reply;
  }

  /** `place` is where the H2G head stood at some moment from `first` to `last`. */
  ghost predicate Saw(tape: nat -> Shown, first: nat, last: nat, place: nat, count: nat)
    requires count > 0
  {
    exists k | first <= k <= last :: At(tape, k).h.head % count == place
  }

  /** At some moment from `first` to `last` there was nothing to read at `head`. */
  ghost predicate SawEmpty(tape: nat -> Shown, first: nat, last: nat, head: nat, count: nat)
    requires head < count
  {
    exists k | first <= k <= last :: Avail(At(tape, k).g.tail, head, count) == 0
  }

  class Transport {
    var attached: bool
    var broken: bool
    var epoch: nat
    var lastTime: nat
    var pending: seq<Entry>
    var credits: nat
    var maxCredits: nat
    var nextFence: nat
    var hTail: nat
    var gHead: nat
    /** Shared with the peer: both descriptors and the G2H words are its to change. */
    var hDesc: Descriptor
    var gDesc: Descriptor
    var hWords: seq<nat>
    var gWords: seq<nat>
    /** Every message whose tail was published, and how many of them the peer has taken. */
    ghost var sent: seq<Wire>
    ghost var taken: nat
    /** Every message an honest peer posted, and how many of them the host has consumed. */
    ghost var posted: seq<Wire>
    ghost var got: nat
    /** What the peer shows, moment by moment, and the present moment. The tape may be any. */
    const tape: nat -> Shown
    var clock: nat
    /** What the platform answers, question by question, and the next question. The answers may be any. */
    const answers: nat -> bool
    var asked: nat
    /** An honest peer moves the H2G head only by taking what is there, posts only whole messages into free words, and
        leaves the host's own fields alone. */
    const honest: bool

    /** What the peer will read is exactly what was sent and not yet taken, in order. */
    ghost predicate Fifo()
      reads this`hTail, this`hWords, this`hDesc, this`sent, this`taken
    {
      hDesc.tail == hTail && taken <= |sent| && Outbox(hWords, hDesc.head, hTail, sent[taken..])
    }

    /** What the host will read is exactly what was posted and not yet consumed, in order. */
    ghost predicate Inbound()
      reads this`gHead, this`gWords, this`gDesc, this`posted, this`got
    {
      gHead < |gWords| && gDesc.head == gHead && got <= |posted| && Inbox(gWords, gHead, gDesc.tail, posted[got..])
    }

    /** What the peer owns is what it shows now. */
    predicate Current()
      reads this`hDesc, this`gDesc, this`clock
    {
      Shows(At(tape, clock), hDesc, gDesc)
    }

    /** What the host reads back in its own fields: an honest peer leaves them alone. */
    function Look(f: Field): nat
      reads this`hDesc, this`gDesc, this`clock
    {
      if honest then FieldOf(Shown(hDesc, gDesc), f) else FieldOf(At(tape, clock), f)
    }

    /** No error is raised, the host's own fields are as it left them, and the peer's are inside the rings. */
    predicate Fit(f: Field, value: nat)
      reads this`hTail, this`gHead, this`hWords, this`gWords
    {
      match f
      case HStatus => value == 0
      case GStatus => value == 0
      case HTail => value == hTail
      case GHead => value == gHead
      case HHead => value < |hWords|
      case GTail => value < |gWords|
    }

    /** The field was fit when it was read, at some moment since `first`. */
    ghost predicate Fair(first: nat, f: Field)
      reads this`hTail, this`gHead, this`hWords, this`gWords, this`clock
    {
      (honest && Own(f)) || exists k | first <= k <= clock :: Fit(f, FieldOf(At(tape, k), f))
    }

    /** The field was not fit when it was read, at some moment since `first`. */
    ghost predicate Foul(first: nat, f: Field)
      reads this`hTail, this`gHead, this`hWords, this`gWords, this`clock
    {
      !(honest && Own(f)) && exists k | first <= k <= clock :: !Fit(f, FieldOf(At(tape, k), f))
    }

    ghost predicate Sizes()
      reads this`attached, this`hTail, this`gHead, this`hWords, this`gWords, this`credits, this`sent, this`taken
      reads this`nextFence
    {
      && (attached ==>
            1024 <= |hWords| <= 0x10_0000 && 1024 <= |gWords| <= 0x10_0000 && hTail < |hWords| && gHead < |gWords|)
      && (attached ==> 0 < credits)
      && (!attached ==> sent == [] && taken == 0 && nextFence == 0)
    }

    ghost predicate Valid()
      reads this`attached, this`pending, this`credits, this`maxCredits, this`nextFence
      reads this`hTail, this`gHead, this`hDesc, this`gDesc, this`hWords, this`gWords, this`sent, this`taken
      reads this`posted, this`clock, this`got
    {
      && LedgerOk(pending, credits, maxCredits, nextFence) && Sizes() && (attached && honest ==> Fifo() && Inbound())
      && (attached ==> Current())
    }

    constructor (honest: bool, tape: nat -> Shown, answers: nat -> bool)
      ensures Valid() && !attached && !broken && this.honest == honest && this.tape == tape && sent == []
      ensures this.answers == answers
    {
      attached, broken, epoch, lastTime, credits, maxCredits, nextFence, hTail, gHead :=
        false, false, 0, 0, 0, 0, 0, 0, 0;
      pending := Blank();
      hDesc, gDesc, hWords, gWords := Descriptor(0, 0, 0), Descriptor(0, 0, 0), [], [];
      sent, taken, posted, got, clock := [], 0, [], 0, 0;
      this.honest, this.tape, this.answers, asked := honest, tape, answers, 0;
      new;
      FreshLedger(0);
    }

    /** `already` is what an honest peer has posted before the host attaches. */
    method Attach(h: Ring, g: Ring, hd: Descriptor, gd: Descriptor, hw: seq<nat>, gw: seq<nat>, e: nat, abi: bool,
                  ghost already: seq<Wire>)
      returns (status: Status)
      requires Valid() && |hw| == h.count && |gw| == g.count
      requires honest && gd.head == 0 && gd.tail < |gw| ==> Inbox(gw, 0, gd.tail, already)
      requires !attached ==> Shows(At(tape, clock + 1), hd, gd)
      modifies this
      ensures Valid()
      ensures old(attached) || e == 0 || !RingsValid(h, g) || !abi ==> status == Invalid
      ensures status == Ok ==>
                attached && hTail == 0 && gHead == 0 && maxCredits == g.count - 1 - g.count / 2 == credits &&
                sent == [] && pending == Blank()
      ensures status != Ok ==>
                attached == old(attached) && pending == old(pending) && credits == old(credits) && sent == old(sent) &&
                nextFence == old(nextFence)
      ensures status == Ok ==>
                nextFence == 0 && hd == Descriptor(0, 0, 0) && gd.head == 0 && gd.tail < g.count && gd.status == 0
      ensures status == Unavailable ==> !Reply(answers, old(asked))
      ensures status == IoFailure ==> !Reply(answers, old(asked) + 1)
      ensures status == Ok ==> Heard(answers, old(asked), asked, 2)
    {
      hide At, RingsValid, LedgerOk, Outbox, Blank, Inbox, Reply;
      if attached { return Invalid; }
      clock := clock + 1;
      if e == 0 || !RingsValid(h, g) || !abi { return Invalid; }
      RingSizes(h, g);
      var admitted := Reply(answers, asked);
      asked := asked + 1;
      if !admitted { return Unavailable; }
      var acquired := Reply(answers, asked);
      asked := asked + 1;
      if !acquired { return IoFailure; }
      if hd != Descriptor(0, 0, 0) || gd.head != 0 || gd.tail >= g.count || gd.status != 0 { return Corrupt; }
      Bind(hd, gd, hw, gw, e, already);
      return Ok;
    }

    method Bind(hd: Descriptor, gd: Descriptor, hw: seq<nat>, gw: seq<nat>, e: nat, ghost already: seq<Wire>)
      requires 1024 <= |hw| <= 0x10_0000 && 1024 <= |gw| <= 0x10_0000 && hd == Descriptor(0, 0, 0) && gd.head == 0
      requires (honest ==> Inbox(gw, 0, gd.tail, already)) && Shows(At(tape, clock), hd, gd)
      modifies this
      ensures Valid() && attached && hTail == 0 && gHead == 0 && maxCredits == |gw| - 1 - |gw| / 2 == credits
      ensures sent == [] && pending == Blank()
      ensures nextFence == 0 && asked == old(asked)
    {
      hide At, Blank, LedgerOk, Fifo, Inbound;
      Open(|gw| - 1 - |gw| / 2);
      Share(hd, gd, hw, gw, already);
      epoch := e;
    }

    method Share(hd: Descriptor, gd: Descriptor, hw: seq<nat>, gw: seq<nat>, ghost already: seq<Wire>)
      requires hw != [] && gw != [] && hd == Descriptor(0, 0, 0) && gd.head == 0
      requires (honest ==> Inbox(gw, 0, gd.tail, already)) && Shows(At(tape, clock), hd, gd)
      modifies this`hDesc, this`gDesc, this`hWords, this`gWords, this`hTail, this`gHead, this`sent, this`taken
      modifies this`posted, this`got
      ensures (honest ==> Fifo() && Inbound()) && Current()
      ensures hTail == gHead == taken == 0 && sent == [] && hWords == hw && gWords == gw
    {
      hide At, Inbox, Outbox;
      hDesc, gDesc, hWords, gWords, hTail, gHead := hd, gd, hw, gw, 0, 0;
      sent, taken, posted, got := [], 0, already, 0;
      EmptyOutbox(hWords);
      assert posted[0..] == posted;
    }

    method Open(limit: nat)
      modifies this`attached, this`maxCredits, this`credits, this`pending, this`nextFence
      ensures attached && maxCredits == credits == limit && pending == Blank() && nextFence == 0
      ensures LedgerOk(pending, credits, maxCredits, nextFence)
    {
      hide At, LedgerOk;
      FreshLedger(limit);
      attached, maxCredits, credits, pending, nextFence := true, limit, limit, Blank(), 0;
    }

    // ---------------------------------------------------------------- the peer

    /** The peer takes the next message, or skips a padding word, if the tape says so. */
    method PeerTake()
      requires Valid() && attached && honest
      modifies this`hDesc, this`taken, this`clock
      ensures Valid() && old(taken) <= taken && old(clock) <= clock
      ensures Lag(hDesc.head, hTail, |hWords|) <= Lag(old(hDesc.head), hTail, |hWords|)
    {
      hide At, LedgerOk, Messages, Inbound;
      if hDesc.head != hDesc.tail {
        TakeOne(hWords, hDesc.head, hTail, sent, taken);
        ghost var isMessage := hWords[hDesc.head] % HALF != 0;
        var head := Next(hWords, hDesc.head);
        if !Shows(At(tape, clock + 1), hDesc.(head := head), gDesc) { return; }
        hDesc, clock := hDesc.(head := head), clock + 1;
        if isMessage { taken := taken + 1; }
      }
    }

    /** The peer posts one message, and may raise an error in its status. */
    method PeerPost(m: Wire, words: seq<nat>, tail: nat, status: nat)
      requires Valid() && attached && honest && Posts(gWords, gHead, gDesc.tail, m, words, tail)
      requires Shows(At(tape, clock + 1), hDesc, gDesc.(tail := tail, status := status))
      modifies this`gDesc, this`gWords, this`posted, this`clock
      ensures Valid() && |gWords| == |old(gWords)| && old(posted) <= posted && old(clock) <= clock
    {
      hide At, LedgerOk, Fifo, Inbox, Posts;
      PostAppends(gWords, gHead, gDesc.tail, posted[got..], m, words, tail);
      PostSize(gWords, gHead, gDesc.tail, m, words, tail);
      assert posted[got..] + [m] == (posted + [m])[got..];
      gWords, gDesc, posted := words, gDesc.(tail := tail, status := status), posted + [m];
      clock := clock + 1;
    }

    /** A peer that is not honest writes what it likes over both descriptors and the G2H words. The H2G words the host
        only writes, so what a peer puts there reaches nobody but itself. */
    method PeerScribble()
      requires Valid() && attached && !honest
      modifies this`hDesc, this`gDesc, this`gWords, this`clock
      ensures Valid() && |gWords| == |old(gWords)| && old(clock) <= clock
    {
      var words: seq<nat> := *;
      clock := clock + 1;
      hDesc, gDesc := At(tape, clock).h, At(tape, clock).g;
      if |words| == |gWords| { gWords := words; }
    }

    method PeerStep()
      requires Valid() && attached
      modifies this`hDesc, this`gDesc, this`gWords, this`taken, this`posted, this`clock
      ensures Valid() && |gWords| == |old(gWords)| && old(taken) <= taken && old(posted) <= posted
      ensures old(clock) <= clock
      ensures honest ==> Lag(hDesc.head, hTail, |hWords|) <= Lag(old(hDesc.head), hTail, |hWords|)
    {
      hide At, LedgerOk, Outbox, Inbox, Posts;
      var takes: bool := *;
      if !honest {
        PeerScribble();
      } else if takes {
        PeerTake();
      } else {
        var m: Wire, words: seq<nat>, tail: nat, status: nat := *, *, *, *;
        if Posts(gWords, gHead, gDesc.tail, m, words, tail) &&
           Shows(At(tape, clock + 1), hDesc, gDesc.(tail := tail, status := status)) {
          PeerPost(m, words, tail, status);
        }
      }
    }

    /** The peer acts as often as it likes. */
    method Peer()
      requires Valid()
      modifies this`hDesc, this`gDesc, this`gWords, this`taken, this`posted, this`clock
      ensures Valid() && |gWords| == |old(gWords)| && old(taken) <= taken && old(posted) <= posted
      ensures old(clock) <= clock
      ensures honest && attached ==> Lag(hDesc.head, hTail, |hWords|) <= Lag(old(hDesc.head), hTail, |hWords|)
    {
      hide At, Valid;
      if attached {
        var steps: seq<bool> := *;
        for i := 0 to |steps|
          invariant Valid() && |gWords| == |old(gWords)| && old(taken) <= taken && old(posted) <= posted
          invariant old(clock) <= clock
          invariant honest ==> Lag(hDesc.head, hTail, |hWords|) <= Lag(old(hDesc.head), hTail, |hWords|)
        {
          PeerStep();
        }
      }
    }

    // ---------------------------------------------------------------- checks

    method Fault(s: Status) returns (status: Status)
      modifies this`broken
      ensures broken && status == s
    {
      broken := true;
      return s;
    }

    /** A barrier, a notification or an admission check; it may fail, and the peer goes on meanwhile. */
    method Ask() returns (ok: bool)
      requires Valid()
      modifies this`hDesc, this`gDesc, this`gWords, this`taken, this`posted, this`clock, this`asked
      ensures Valid() && |gWords| == |old(gWords)| && old(taken) <= taken && old(posted) <= posted
      ensures old(clock) <= clock
      ensures honest && attached ==> Lag(hDesc.head, hTail, |hWords|) <= Lag(old(hDesc.head), hTail, |hWords|)
      ensures ok == Reply(answers, old(asked)) && asked == old(asked) + 1
    {
      hide At, Reply;
      Peer();
      ok := Reply(answers, asked);
      asked := asked + 1;
    }

    /** The barrier and the notification that follow a published tail. */
    method Signal() returns (ok: bool)
      requires Valid()
      modifies this`hDesc, this`gDesc, this`gWords, this`taken, this`posted, this`clock, this`asked
      ensures Valid() && |gWords| == |old(gWords)| && old(taken) <= taken && old(posted) <= posted
      ensures old(clock) <= clock && old(asked) <= asked
      ensures honest && attached ==> Lag(hDesc.head, hTail, |hWords|) <= Lag(old(hDesc.head), hTail, |hWords|)
      ensures if ok then Heard(answers, old(asked), asked, 2) else !Yes(answers, old(asked), asked)
    {
      hide At, Valid, Lag, Reply;
      ok := Ask();
      if ok { ok := Ask(); }
    }

    lemma OneReply(first: nat)
      ensures if Reply(answers, first) then Heard(answers, first, first + 1, 1) else !Yes(answers, first, first + 1)
    {
      hide Reply;
    }

    method CheckDescriptors() returns (status: Status)
      requires Valid()
      modifies this`broken, this`hDesc, this`gDesc, this`gWords, this`taken, this`posted, this`clock, this`asked
      ensures Valid() && |gWords| == |old(gWords)| && old(posted) <= posted && old(clock) <= clock
      ensures honest && attached ==> Lag(hDesc.head, hTail, |hWords|) <= Lag(old(hDesc.head), hTail, |hWords|)
      ensures status == Ok ==> attached && !broken
      ensures old(broken) ==> broken
      ensures !attached ==> status == Unavailable
      ensures attached && old(broken) ==> status == Corrupt
      ensures status == Ok ==> forall f: Field :: Fair(old(clock), f)
      ensures status == Corrupt && !old(broken) ==> exists f: Field :: Foul(old(clock), f)
      ensures status in {Ok, Unavailable, Corrupt, IoFailure} && (status != Ok && attached ==> broken)
      ensures old(asked) <= asked && (status == Ok ==> Heard(answers, old(asked), asked, 2))
      ensures status in {Unavailable, IoFailure} && attached ==> !Yes(answers, old(asked), asked)
    {
      hide At, Valid, Fair, Foul, Lag, Reply;
      if !attached { return Unavailable; }
      if broken { return Corrupt; }
      var admitted := Ask();
      if !admitted { status := Fault(Unavailable); return; }
      var acquired := Ask();
      if !acquired { status := Fault(IoFailure); return; }
      var sound := ReadDescriptors(old(clock));
      if !sound {
        ghost var f :| Foul(old(clock), f);
        status := Fault(Corrupt);
        assert Foul(old(clock), f);
        return;
      }
      return Ok;
    }

    /** The descriptors are in order and the action is authorized. */
    method Permitted() returns (status: Status)
      requires Valid()
      modifies this`broken, this`hDesc, this`gDesc, this`gWords, this`taken, this`posted, this`clock, this`asked
      ensures Valid() && |gWords| == |old(gWords)| && old(posted) <= posted && old(clock) <= clock
      ensures honest && attached ==> Lag(hDesc.head, hTail, |hWords|) <= Lag(old(hDesc.head), hTail, |hWords|)
      ensures status == Ok ==> attached && !broken
      ensures old(broken) ==> broken && status != Ok
      ensures status in {Ok, Unavailable, Corrupt, IoFailure} && (!attached ==> status == Unavailable)
      ensures old(asked) <= asked && (status == Ok ==> Heard(answers, old(asked), asked, 3))
      ensures status in {Unavailable, IoFailure} && attached ==> !Yes(answers, old(asked), asked)
    {
      hide At, Valid, Lag, Yes, Heard, Fair, Foul;
      ghost var first := asked;
      status := CheckDescriptors();
      if status != Ok { return; }
      ghost var second := asked;
      var authorized := Ask();
      OneReply(second);
      NoWithin(answers, first, second, asked, asked);
      if !authorized { return Unavailable; }
      HeardMore(answers, first, second, asked, 2, 1);
    }

    /** One field, as it stands when the host gets to it. */
    method ReadField(f: Field, ghost first: nat) returns (value: nat)
      requires Valid() && attached && first <= clock
      modifies this`hDesc, this`gDesc, this`gWords, this`taken, this`posted, this`clock
      ensures Valid() && |gWords| == |old(gWords)| && old(posted) <= posted && old(clock) <= clock
      ensures honest ==> Lag(hDesc.head, hTail, |hWords|) <= Lag(old(hDesc.head), hTail, |hWords|)
      ensures if Fit(f, value) then Fair(first, f) else Foul(first, f)
      ensures forall g: Field :: old(Fair(first, g)) ==> Fair(first, g)
    {
      hide At, LedgerOk, Outbox, Inbox;
      Peer();
      value := Look(f);
      if !(honest && Own(f)) { assert value == FieldOf(At(tape, clock), f); }
    }

    /** The descriptors are read one field after another, up to the first that is not fit. */
    method ReadDescriptors(ghost first: nat) returns (sound: bool)
      requires Valid() && attached && first <= clock
      modifies this`hDesc, this`gDesc, this`gWords, this`taken, this`posted, this`clock
      ensures Valid() && |gWords| == |old(gWords)| && old(posted) <= posted && old(clock) <= clock
      ensures honest ==> Lag(hDesc.head, hTail, |hWords|) <= Lag(old(hDesc.head), hTail, |hWords|)
      ensures if sound then forall f: Field :: Fair(first, f) else exists f: Field :: Foul(first, f)
    {
      hide At, Valid, Lag, FieldOf, Fair, Foul;
      var value := ReadField(HStatus, first);
      if value != 0 { return false; }
      value := ReadField(GStatus, first);
      if value != 0 { return false; }
      value := ReadField(HTail, first);
      if value != hTail { return false; }
      value := ReadField(GHead, first);
      if value != gHead { return false; }
      value := ReadField(HHead, first);
      if value >= |hWords| { return false; }
      value := ReadField(GTail, first);
      if value >= |gWords| { return false; }
      forall f: Field ensures Fair(first, f) {
        match f { case HStatus => case GStatus => case HTail => case GHead => case HHead => case GTail => }
      }
      return true;
    }

    function Find(fence: nat): (i: nat)
      reads this
      ensures i <= |pending|
      ensures i < |pending| ==> pending[i].used && pending[i].fence == fence
      ensures forall j | 0 <= j < i :: !(pending[j].used && pending[j].fence == fence)
    {
      FindFrom(pending, fence, 0)
    }

    // ---------------------------------------------------------------- sending

    /** The last unused entry, unless the context in the action's second word still awaits an event. */
    method FindSlot(a: Action) returns (slot: nat, clash: bool)
      requires ValidAction(a)
      ensures clash <==> Clashes(pending, a)
      ensures !clash ==> slot <= |pending|
      ensures !clash && slot < |pending| ==> !pending[slot].used && forall j | slot < j < |pending| :: pending[j].used
      ensures !clash && slot == |pending| ==> forall j | 0 <= j < |pending| :: pending[j].used
    {
      slot, clash := |pending|, false;
      for i := 0 to |pending|
        invariant a.words[0] == AUTHENTICATE || forall j | 0 <= j < i ::
                  !(AwaitsEvent(pending[j]) && pending[j].context == a.words[1])
        invariant slot < i || slot == |pending|
        invariant slot < i ==> !pending[slot].used && forall j | slot < j < i :: pending[j].used
        invariant slot == |pending| ==> forall j | 0 <= j < i :: pending[j].used
      {
        if !pending[i].used { slot := i; }
        if AwaitsEvent(pending[i]) && a.words[0] != AUTHENTICATE && pending[i].context == a.words[1] {
          return slot, true;
        }
      }
    }

    /** An honest peer has left at least `n` words free. */
    ghost predicate Roomy(n: nat)
      reads this`hDesc, this`hTail, this`hWords
    {
      honest ==> Lag(hDesc.head, hTail, |hWords|) + n < |hWords|
    }

    /** Fills the rest of the ring with padding and restarts at its beginning. */
    method PadTail() returns (ok: bool)
      requires Valid() && attached && (honest ==> 0 < hDesc.head <= hTail)
      modifies this`hWords, this`hTail, this`broken, this`hDesc, this`gDesc, this`gWords, this`taken, this`posted
      modifies this`clock, this`asked
      ensures Valid() && |hWords| == |old(hWords)| && |gWords| == |old(gWords)| && old(posted) <= posted
      ensures old(clock) <= clock
      ensures forall i | 0 <= i < |hWords| && i < old(hTail) :: hWords[i] == old(hWords)[i]
      ensures ok ==>
                hTail == 0 && broken == old(broken) &&
                (honest ==> Lag(hDesc.head, 0, |hWords|) <= Lag(old(hDesc.head), 0, |hWords|))
      ensures !ok ==> broken && hTail in {0, old(hTail)}
      ensures old(asked) <= asked
      ensures if ok then Heard(answers, old(asked), asked, 3) else !Yes(answers, old(asked), asked)
    {
      hide At, LedgerOk, Outbox, Inbound, Current, Yes, Heard;
      ghost var first := asked;
      PadWords();
      var released := Ask();
      ghost var second := asked;
      OneReply(first);
      if !released { broken := true; return false; }
      if honest { InOutbox(hWords, hDesc.head, hTail, sent[taken..]); }
      RestartTail();
      ok := Signal();
      NoWithin(answers, first, second, asked, asked);
      if !ok { broken := true; } else { HeardMore(answers, first, second, asked, 1, 2); }
    }

    method PadWords()
      requires Valid() && attached && (honest ==> 0 < hDesc.head <= hTail)
      modifies this`hWords
      ensures Valid() && |hWords| == |old(hWords)|
      ensures forall j | 0 <= j < hTail :: hWords[j] == old(hWords)[j]
      ensures forall j | hTail <= j < |hWords| :: hWords[j] == 0
    {
      hide At, LedgerOk, Outbox, Inbound, Current;
      ghost var before := hWords;
      for i := hTail to |hWords|
        invariant |hWords| == |before|
        invariant forall j | 0 <= j < hTail :: hWords[j] == before[j]
        invariant forall j | hTail <= j < i :: hWords[j] == 0
        modifies this`hWords
      {
        hWords := hWords[i := 0];
      }
      if honest { OutboxKept(before, hWords, hDesc.head, hTail, sent[taken..], |hWords| - hTail); }
    }

    method RestartTail()
      requires Valid() && attached && (honest ==> 0 < hDesc.head <= hTail)
      requires forall j | hTail <= j < |hWords| :: hWords[j] == 0
      modifies this`hTail, this`hDesc
      ensures Valid() && hTail == 0 && hDesc == old(hDesc).(tail := 0)
    {
      hide At, LedgerOk, Outbox, Inbound;
      if honest { OutboxPadded(hWords, hDesc.head, hTail, sent[taken..]); }
      hTail := 0;
      hDesc := hDesc.(tail := 0);
    }

    method WriteWords(m: Wire)
      requires hTail + |m.hxg| + 1 <= |hWords|
      modifies this`hWords
      ensures |hWords| == |old(hWords)| && hWords[hTail..hTail + |m.hxg| + 1] == Encode(m)
      ensures forall j | 0 <= j < |hWords| && !(hTail <= j < hTail + |m.hxg| + 1) :: hWords[j] == old(hWords)[j]
    {
      hWords := hWords[hTail := m.fence * HALF + |m.hxg|];
      for i := 0 to |m.hxg|
        invariant |hWords| == |old(hWords)| && hWords[hTail] == m.fence * HALF + |m.hxg|
        invariant forall j | 0 <= j < |hWords| && !(hTail <= j < hTail + |m.hxg| + 1) :: hWords[j] == old(hWords)[j]
        invariant forall j | hTail < j < hTail + 1 + i :: hWords[j] == m.hxg[j - hTail - 1]
      {
        hWords := hWords[hTail + 1 + i := m.hxg[i]];
      }
      Written(hWords, hTail, m);
    }

    /** The message stands in the free words behind the tail; the peer does not look there yet. */
    method PlaceWords(m: Wire)
      requires Valid() && attached && 0 < |m.hxg| < 1000 && hTail + |m.hxg| + 1 <= |hWords| && Roomy(|m.hxg| + 1)
      modifies this`hWords
      ensures Valid() && |hWords| == |old(hWords)| && hWords[hTail..hTail + |m.hxg| + 1] == Encode(m)
      ensures forall j | 0 <= j < |hWords| && !(hTail <= j < hTail + |m.hxg| + 1) :: hWords[j] == old(hWords)[j]
    {
      hide At, LedgerOk, Encode, Outbox, Inbound, Current;
      ghost var before := hWords;
      WriteWords(m);
      if honest { OutboxKept(before, hWords, hDesc.head, hTail, sent[taken..], |m.hxg| + 1); }
    }

    /** Writes one message at the tail and publishes the new tail. */
    method PutMessage(m: Wire) returns (ok: bool)
      requires Valid() && attached && 0 < |m.hxg| < 1000 && hTail + |m.hxg| + 1 <= |hWords| && Roomy(|m.hxg| + 1)
      modifies this`hWords, this`hTail, this`broken, this`sent, this`hDesc, this`gDesc, this`gWords, this`taken
      modifies this`posted, this`clock, this`asked
      ensures Valid() && |hWords| == |old(hWords)| && |gWords| == |old(gWords)| && old(posted) <= posted
      ensures old(clock) <= clock
      ensures forall i | 0 <= i < |hWords| && !(old(hTail) <= i < old(hTail) + |m.hxg| + 1) ::
                hWords[i] == old(hWords)[i]
      ensures sent == if hTail == old(hTail) then old(sent) else old(sent) + [m]
      ensures hTail == old(hTail) || hTail == (old(hTail) + |m.hxg| + 1) % |hWords|
      ensures ok ==> hTail != old(hTail) && broken == old(broken)
      ensures !ok ==> broken
      ensures old(asked) <= asked
      ensures if ok then Heard(answers, old(asked), asked, 3) else !Yes(answers, old(asked), asked)
    {
      hide At, Valid, Encode, Yes, Heard;
      ghost var first := asked;
      PlaceWords(m);
      ok := Ask();
      ghost var second := asked;
      OneReply(first);
      if !ok { broken := true; return; }
      ok := Announce(m);
      NoWithin(answers, first, second, asked, asked);
      if ok { HeardMore(answers, first, second, asked, 1, 2); }
    }

    /** Publishes the new tail and rings the peer. */
    method Announce(m: Wire) returns (ok: bool)
      requires Valid() && attached && 0 < |m.hxg| < 1000 && hTail + |m.hxg| + 1 <= |hWords| && Roomy(|m.hxg| + 1)
      requires hWords[hTail..hTail + |m.hxg| + 1] == Encode(m)
      modifies this`hTail, this`broken, this`sent, this`hDesc, this`gDesc, this`gWords, this`taken, this`posted
      modifies this`clock, this`asked
      ensures Valid() && |gWords| == |old(gWords)| && old(posted) <= posted && old(clock) <= clock
      ensures sent == old(sent) + [m]
      ensures hTail != old(hTail) && hTail == (old(hTail) + |m.hxg| + 1) % |hWords|
      ensures broken == (old(broken) || !ok)
      ensures old(asked) <= asked
      ensures if ok then Heard(answers, old(asked), asked, 2) else !Yes(answers, old(asked), asked)
    {
      hide At, Valid, Encode, Yes, Heard;
      Publish(m);
      ok := Signal();
      if !ok { broken := true; }
    }

    /** Moves the tail past the message written there. */
    method Publish(m: Wire)
      requires Valid() && attached && 0 < |m.hxg| < 1000 && hTail + |m.hxg| + 1 <= |hWords| && Roomy(|m.hxg| + 1)
      requires hWords[hTail..hTail + |m.hxg| + 1] == Encode(m)
      modifies this`hTail, this`hDesc, this`sent
      ensures Valid() && hDesc.head == old(hDesc.head) && sent == old(sent) + [m]
      ensures hTail != old(hTail) && hTail == (old(hTail) + |m.hxg| + 1) % |hWords|
    {
      hide At, LedgerOk, Encode, Outbox, Inbound;
      ghost var tail' := if hTail + |m.hxg| + 1 == |hWords| then 0 else hTail + |m.hxg| + 1;
      WrapTail(hTail, |m.hxg| + 1, |hWords|);
      if honest { OutboxGrows(hWords, hDesc.head, hTail, sent, taken, m, tail'); }
      hTail := (hTail + |m.hxg| + 1) % |hWords|;
      hDesc := hDesc.(tail := hTail);
      sent := sent + [m];
    }

    /** Enters the request in the table, with its reservation and the next cookie. */
    method Record(slot: nat, a: Action, deadline: nat)
      requires Valid() && attached && ValidAction(a) && slot < |pending| && !pending[slot].used && nextFence < FENCES
      requires !Clashes(pending, a) && (Reserve(a.words[0]) > 0 ==> Reserve(a.words[0]) < credits)
      modifies this`pending, this`credits, this`nextFence
      ensures Valid() && Issued(old(pending), pending, slot, RequestOf(a, old(nextFence), deadline))
      ensures nextFence == old(nextFence) + 1 && credits == old(credits) - Reserve(a.words[0])
      ensures Evolves(old(pending), pending, old(nextFence))
    {
      hide At, LedgerOk, Fifo, Inbound, Current, Evolves;
      var e := RequestOf(a, nextFence, deadline);
      Issue(pending, credits, maxCredits, nextFence, slot, e);
      pending, credits, nextFence := pending[slot := e], credits - e.reservation, nextFence + 1;
    }

    /** Enters the request in the table, then puts it on the wire. */
    method Submit(slot: nat, a: Action, deadline: nat) returns (status: Status, fence: nat)
      requires Valid() && attached && ValidAction(a) && slot < |pending| && !pending[slot].used && nextFence < FENCES
      requires !Clashes(pending, a) && (Reserve(a.words[0]) > 0 ==> Reserve(a.words[0]) < credits)
      requires hTail + a.count + 1 <= |hWords| && Roomy(a.count + 1)
      modifies this`hWords, this`hTail, this`broken, this`sent, this`pending, this`credits, this`nextFence
      modifies this`hDesc, this`gDesc, this`gWords, this`taken, this`posted, this`clock, this`asked
      ensures Valid() && |hWords| == |old(hWords)| && |gWords| == |old(gWords)| && old(posted) <= posted
      ensures old(clock) <= clock
      ensures forall i | 0 <= i < |hWords| && !(old(hTail) <= i < old(hTail) + a.count + 1) ::
                hWords[i] == old(hWords)[i]
      ensures hTail == old(hTail) || hTail == (old(hTail) + a.count + 1) % |hWords|
      ensures status == Ok || status == PublishedUnknown
      ensures status == Ok ==> broken == old(broken)
      ensures Issued(old(pending), pending, slot, RequestOf(a, old(nextFence), deadline))
      ensures nextFence == old(nextFence) + 1
      ensures credits == old(credits) - Reserve(a.words[0]) && fence == RequestOf(a, old(nextFence), deadline).fence
      ensures Evolves(old(pending), pending, old(nextFence))
      ensures sent == old(sent) || sent == old(sent) + [WireOf(a, old(nextFence))]
      ensures status == Ok ==> sent == old(sent) + [WireOf(a, old(nextFence))]
      ensures old(asked) <= asked
      ensures if status == Ok then Heard(answers, old(asked), asked, 3) else !Yes(answers, old(asked), asked)
    {
      hide At, Valid, Evolves, Yes, Heard;
      var m := WireOf(a, nextFence);
      ActionShape(a);
      Record(slot, a, deadline);
      var ok := PutMessage(m);
      return if ok then Ok else PublishedUnknown, m.fence;
    }

    /** Reads the head that the peer shows now. `seen` is the place in the ring it stands for. */
    method ReadHead() returns (space: nat, ghost seen: nat)
      requires Valid() && attached
      modifies this`hDesc, this`gDesc, this`gWords, this`taken, this`posted, this`clock
      ensures Valid() && |gWords| == |old(gWords)| && old(posted) <= posted && old(clock) <= clock
      ensures seen < |hWords| && Saw(tape, old(clock), clock, seen, |hWords|) && (honest ==> seen == hDesc.head)
      ensures space == Space(seen, hTail, |hWords|) && space == |hWords| - 1 - Lag(seen, hTail, |hWords|)
      ensures honest ==> Lag(seen, hTail, |hWords|) <= Lag(old(hDesc.head), hTail, |hWords|)
    {
      hide At, LedgerOk, Outbox, Inbound;
      Peer();
      var head := hDesc.head;
      seen := head % |hWords|;
      assert At(tape, clock).h.head % |hWords| == seen;
      SpaceWraps(head, hTail, |hWords|);
      SpaceIsRest(seen, hTail, |hWords|);
      if honest {
        InOutbox(hWords, hDesc.head, hTail, sent[taken..]);
        DivMod(0, head, |hWords|);
      }
      space := Space(head, hTail, |hWords|);
    }

    /** Reads the head, and makes the message fit before the end of the ring, padding if it must. */
    method MakeRoom(length: nat) returns (status: Status, ghost seen: nat)
      requires Valid() && attached && 0 < length
      modifies this`hWords, this`hTail, this`broken, this`hDesc, this`gDesc, this`gWords, this`taken, this`posted
      modifies this`clock, this`asked
      ensures Valid() && |hWords| == |old(hWords)| && |gWords| == |old(gWords)| && old(posted) <= posted
      ensures old(clock) <= clock && seen < |hWords| && Saw(tape, old(clock), clock, seen, |hWords|)
      ensures honest ==> Lag(seen, old(hTail), |hWords|) <= Lag(old(hDesc.head), old(hTail), |hWords|)
      ensures forall i | 0 <= i < |hWords| && Unread(seen, old(hTail), i) :: hWords[i] == old(hWords)[i]
      ensures hTail == old(hTail) || (hTail == 0 && 0 < seen <= old(hTail))
      ensures Placed(old(clock), old(hDesc.head), old(hWords), old(hTail), seen)
      ensures status in {Ok, Busy, IoFailure} && (status != IoFailure ==> broken == old(broken))
      ensures status == IoFailure ==> broken
      ensures status == Ok ==>
                Lag(seen, hTail, |hWords|) + length < |hWords| && hTail + length <= |hWords| && Roomy(length)
      ensures status == Busy ==> !RoomFor(seen, old(hTail), |hWords|, length)
      ensures status == Ok ==> RoomFor(seen, old(hTail), |hWords|, length)
      ensures old(asked) <= asked && (status == IoFailure ==> !Yes(answers, old(asked), asked))
      ensures status == Ok ==> Heard(answers, old(asked), asked, 0) || Heard(answers, old(asked), asked, 3)
    {
      hide At, LedgerOk, Outbox, Inbound, Current, Space, Yes, Heard;
      NothingHeard(answers, asked);
      var space;
      space, seen := ReadHead();
      if space < length { return Busy, seen; }
      if hTail + length > |hWords| {
        PadRoom(seen, hTail, |hWords|, length);
        SpaceIsRest(seen, 0, |hWords|);
        var padding := |hWords| - hTail;
        var ok := PadTail();
        if !ok { return IoFailure, seen; }
        space := space - padding;
        if space < length { return Busy, seen; }
      }
      return Ok, seen;
    }

    /** Everything after the descriptors were checked. */
    method Launch(a: Action, deadline: nat) returns (status: Status, fence: nat, ghost seen: nat)
      requires Valid() && attached && !broken && ValidAction(a)
      modifies this`hWords, this`hTail, this`broken, this`sent, this`pending, this`credits, this`nextFence
      modifies this`hDesc, this`gDesc, this`gWords, this`taken, this`posted, this`clock, this`asked
      ensures Valid() && Sent(old(pending), old(credits), old(nextFence), old(sent), a, deadline, status, fence)
      ensures |hWords| == |old(hWords)| && |gWords| == |old(gWords)| && old(posted) <= posted && old(clock) <= clock
      ensures status == Ok ==> !broken
      ensures status == Exhausted <==> old(nextFence) >= FENCES
      ensures Kept(old(hWords), old(hTail)) || Placed(old(clock), old(hDesc.head), old(hWords), old(hTail), seen)
      ensures status == Busy ==>
                Crowded(old(pending), old(credits), a) ||
                Lacked(old(clock), old(hDesc.head), old(hTail), seen, a.count + 1)
      ensures status == Ok ==>
                && !Crowded(old(pending), old(credits), a) && RoomFor(seen, old(hTail), |hWords|, a.count + 1)
                && Placed(old(clock), old(hDesc.head), old(hWords), old(hTail), seen)
      ensures old(asked) <= asked && Answered(old(asked), status, 3)
      ensures status in {Ok, Busy, Exhausted, IoFailure, PublishedUnknown}
    {
      hide At, Valid, ValidAction, Evolves, RoomFor, Clashes, Placed, Lacked, Yes, Heard, Answered;
      fence, seen := 0, 0;
      EvolvesSelf(pending, nextFence);
      NotSent(asked, Exhausted);
      NotSent(asked, Busy);
      if nextFence >= FENCES { return Exhausted, 0, 0; }
      ActionShape(a);
      var reserve := Reserve(a.words[0]);
      var slot, clash := FindSlot(a);
      if clash || slot == |pending| || (reserve > 0 && credits <= reserve) { return Busy, 0, 0; }
      status, fence, seen := Enter(slot, a, deadline);
    }

    /** Makes room, then enters the request in the table and puts it on the wire. */
    method Enter(slot: nat, a: Action, deadline: nat) returns (status: Status, fence: nat, ghost seen: nat)
      requires Valid() && attached && !broken && ValidAction(a) && slot < |pending| && !pending[slot].used
      requires nextFence < FENCES && !Clashes(pending, a) && (Reserve(a.words[0]) > 0 ==> Reserve(a.words[0]) < credits)
      modifies this`hWords, this`hTail, this`broken, this`sent, this`pending, this`credits, this`nextFence
      modifies this`hDesc, this`gDesc, this`gWords, this`taken, this`posted, this`clock, this`asked
      ensures Valid() && Sent(old(pending), old(credits), old(nextFence), old(sent), a, deadline, status, fence)
      ensures |hWords| == |old(hWords)| && |gWords| == |old(gWords)| && old(posted) <= posted && old(clock) <= clock
      ensures (status == Ok ==> !broken) && status != Exhausted
      ensures Placed(old(clock), old(hDesc.head), old(hWords), old(hTail), seen)
      ensures status == Busy ==> Lacked(old(clock), old(hDesc.head), old(hTail), seen, a.count + 1)
      ensures status == Ok ==> RoomFor(seen, old(hTail), |hWords|, a.count + 1)
      ensures old(asked) <= asked && Answered(old(asked), status, 3)
      ensures status in {Ok, Busy, IoFailure, PublishedUnknown}
    {
      hide At, Valid, ValidAction, Evolves, RoomFor, Clashes, WireOf, Unread, Lag, Saw, Yes, Heard, Answered, Issued;
      hide Placed;
      ghost var first := asked;
      fence := 0;
      EvolvesSelf(pending, nextFence);
      ActionShape(a);
      status, seen := MakeRoom(a.count + 1);
      NotSent(first, status);
      if status != Ok { return; }
      ghost var words, tail, now, second := hWords, hTail, clock, asked;
      status, fence := Submit(slot, a, deadline);
      Both(first, second, status);
      StillPlaced(old(clock), old(hDesc.head), old(hWords), old(hTail), seen, words, tail, now, a.count + 1);
    }

    lemma StillPlaced(clock': nat, head': nat, words': seq<nat>, tail': nat, seen: nat, words: seq<nat>, tail: nat,
                      now: nat, n: nat)
      requires |words'| == |words| == |hWords| && seen < |words| && tail < |words| && 0 < n && tail + n <= |words|
      requires now <= clock && Saw(tape, clock', now, seen, |words|)
      requires honest ==> Lag(seen, tail', |words|) <= Lag(head', tail', |words|)
      requires (tail == tail' || (tail == 0 && 0 < seen <= tail')) && Lag(seen, tail, |words|) + n < |words|
      requires hTail == tail || hTail == (tail + n) % |words|
      requires forall i | 0 <= i < |words| && Unread(seen, tail', i) :: words[i] == words'[i]
      requires forall i | 0 <= i < |words| && !(tail <= i < tail + n) :: hWords[i] == words[i]
      ensures Placed(clock', head', words', tail', seen)
    {
      hide At, Unread, Lag, Saw;
      SawLater(tape, clock', now, clock, seen, |words|);
      WrittenFree(words', words, hWords, seen, tail', tail, n);
    }

    /** A send that went through heard `n` times yes, or three more if it had to pad; one that broke off heard a no. */
    ghost predicate Answered(first: nat, status: Status, n: nat)
      reads this`asked
    {
      && (status in {IoFailure, PublishedUnknown} ==> !Yes(answers, first, asked))
      && (status == Ok ==> Heard(answers, first, asked, n) || Heard(answers, first, asked, n + 3))
    }

    lemma NotSent(first: nat, status: Status)
      requires status !in {PublishedUnknown, IoFailure} || !Yes(answers, first, asked)
      ensures status != Ok ==> forall n :: Answered(first, status, n)
    {
      hide Yes, Heard;
    }

    /** Three or six more answers after three. */
    lemma After(first: nat, third: nat, status: Status)
      requires first <= third <= asked && Heard(answers, first, third, 3) && Answered(third, status, 3)
      ensures Answered(first, status, 6)
    {
      hide Yes, Heard;
      NoWithin(answers, first, third, asked, asked);
      if Heard(answers, third, asked, 3) { HeardMore(answers, first, third, asked, 3, 3); }
      if Heard(answers, third, asked, 6) { HeardMore(answers, first, third, asked, 3, 6); }
    }

    /** Three more answers after none or three. */
    lemma Both(first: nat, second: nat, status: Status)
      requires first <= second <= asked
      requires Heard(answers, first, second, 0) || Heard(answers, first, second, 3)
      requires if status == Ok then Heard(answers, second, asked, 3) else !Yes(answers, second, asked)
      ensures Answered(first, status, 3)
    {
      hide Yes, Heard;
      NoWithin(answers, first, second, asked, asked);
      if status == Ok && Heard(answers, first, second, 0) { HeardMore(answers, first, second, asked, 0, 3); }
      if status == Ok && Heard(answers, first, second, 3) { HeardMore(answers, first, second, asked, 3, 3); }
    }

    /** Nothing was written to the H2G ring. */
    ghost predicate Kept(words: seq<nat>, tail: nat)
      reads this`hWords, this`hTail
    {
      hWords == words && hTail == tail
    }

    /** `seen` is a place where the H2G head stood since `clock'`; an honest peer moved it there from `head'`. */
    ghost predicate Read(clock': nat, head': nat, tail': nat, seen: nat)
      reads this`clock, this`hWords
    {
      && seen < |hWords| && Saw(tape, clock', clock, seen, |hWords|)
      && (honest ==> Lag(seen, tail', |hWords|) <= Lag(head', tail', |hWords|))
    }

    /** Only words that were free by a head that was read are other than they were, and the tail did not reach it. */
    ghost predicate Placed(clock': nat, head': nat, words': seq<nat>, tail': nat, seen: nat)
      reads this`clock, this`hWords, this`hTail
    {
      && Read(clock', head', tail', seen) && |words'| == |hWords| && (hTail == tail' || hTail != seen)
      && forall i | 0 <= i < |hWords| && Unread(seen, tail', i) :: hWords[i] == words'[i]
    }

    /** By a head that was read there was no room. */
    ghost predicate Lacked(clock': nat, head': nat, tail': nat, seen: nat, length: nat)
      reads this`clock, this`hWords
    {
      Read(clock', head', tail', seen) && !RoomFor(seen, tail', |hWords|, length)
    }

    /** A request is either not entered at all, or entered with its reservation and the next
        cookie. It is in the queue if the status is Ok, and may be if the outcome is unknown. */
    ghost predicate Sent(pending': seq<Entry>, credits': nat, nextFence': nat, sent': seq<Wire>, a: Action,
                         deadline: nat, status: Status, fence: nat)
      reads this
    {
      && Evolves(pending', pending, nextFence')
      && if status == Ok || status == PublishedUnknown then
           && ValidAction(a) && fence == FenceOf(a.words[0], nextFence') && nextFence == nextFence' + 1
           && credits == credits' - Reserve(a.words[0])
           && (exists slot :: Issued(pending', pending, slot, RequestOf(a, nextFence', deadline)))
           && (sent == sent' + [WireOf(a, nextFence')] || (status == PublishedUnknown && sent == sent'))
         else
           pending == pending' && credits == credits' && nextFence == nextFence' && sent == sent'
    }

    method Send(a: Action, now: nat, deadline: nat) returns (status: Status, fence: nat, ghost seen: nat)
      requires Valid()
      modifies this`lastTime, this`hWords, this`hTail, this`broken, this`sent, this`pending, this`credits
      modifies this`nextFence
      modifies this`hDesc, this`gDesc, this`gWords, this`taken, this`posted, this`clock, this`asked
      ensures Valid() && lastTime >= old(lastTime) && old(posted) <= posted && old(clock) <= clock
      ensures old(broken) ==> broken && status != Ok
      ensures !ValidAction(a) || deadline <= now || now < old(lastTime) ==> status == Invalid
      ensures Sent(old(pending), old(credits), old(nextFence), old(sent), a, deadline, status, fence)
      ensures |hWords| == |old(hWords)| && |gWords| == |old(gWords)|
      ensures status == Exhausted ==> old(nextFence) >= FENCES
      ensures Kept(old(hWords), old(hTail)) || Placed(old(clock), old(hDesc.head), old(hWords), old(hTail), seen)
      ensures status == Busy ==>
                && ValidAction(a)
                && (Crowded(old(pending), old(credits), a) ||
                    Lacked(old(clock), old(hDesc.head), old(hTail), seen, a.count + 1))
      ensures status == Ok ==>
                && ValidAction(a) && !Crowded(old(pending), old(credits), a)
                && RoomFor(seen, old(hTail), |hWords|, a.count + 1)
                && Placed(old(clock), old(hDesc.head), old(hWords), old(hTail), seen)
      ensures honest && status == Busy && !Crowded(old(pending), old(credits), a) ==>
                !RoomFor(old(hDesc.head), old(hTail), |hWords|, a.count + 1)
      ensures old(asked) <= asked && Answered(old(asked), status, 6)
      ensures status == Unavailable && attached ==> !Yes(answers, old(asked), asked)
    {
      hide At, Valid, ValidAction, Evolves, Crowded, RoomFor, Placed, Lacked, Yes, Heard, Answered;
      ghost var first := asked;
      fence, seen := 0, 0;
      EvolvesSelf(pending, nextFence);
      NotSent(asked, Invalid);
      if !ValidAction(a) || deadline <= now || now < lastTime { return Invalid, 0, 0; }
      lastTime := now;
      status := Permitted();
      NotSent(first, status);
      if status != Ok { return; }
      ghost var third := asked;
      ghost var mid, head := clock, hDesc.head;
      status, fence, seen := Launch(a, deadline);
      After(first, third, status);
      ReadSince(old(clock), mid, old(hDesc.head), head, old(hWords), old(hTail), seen, a.count + 1);
    }

    /** What was read since `mid` was read since `first`. */
    lemma ReadSince(first: nat, mid: nat, head: nat, head': nat, words: seq<nat>, tail: nat, seen: nat, length: nat)
      requires first <= mid && (honest ==> Lag(head', tail, |hWords|) <= Lag(head, tail, |hWords|))
      ensures Placed(mid, head', words, tail, seen) ==> Placed(first, head, words, tail, seen)
      ensures Lacked(mid, head', tail, seen, length) ==> Lacked(first, head, tail, seen, length)
      ensures Lacked(mid, head', tail, seen, length) && honest ==> !RoomFor(head, tail, |hWords|, length)
    {
      hide RoomFor;
      if Lacked(mid, head', tail, seen, length) && honest && RoomFor(head, tail, |hWords|, length) {
        RoomStays(head, seen, tail, |hWords|, length);
      }
    }

    // ---------------------------------------------------------------- replies

    /** Marks every overdue request that still holds credits; the credits stay out. */
    method Expire(now: nat) returns (status: Status)
      requires Valid()
      modifies this`lastTime, this`pending
      ensures Valid()
      ensures status == if now < old(lastTime) then Invalid else Ok
      ensures lastTime == if status == Ok then now else old(lastTime)
      ensures Evolves(old(pending), pending, nextFence)
      ensures status == Invalid ==> pending == old(pending)
      ensures status == Ok ==> pending == Aged(old(pending), now)
    {
      hide At, LedgerOk, Fifo, Inbound, EntryStep, Evolves;
      EvolvesSelf(pending, nextFence);
      if now < lastTime { return Invalid; }
      lastTime := now;
      for i := 0 to |pending|
        invariant Valid() && |pending| == |old(pending)|
        invariant forall j | 0 <= j < i ::
                  pending[j] == if Overdue(old(pending)[j], now) then old(pending)[j].(state := TimedOut)
                    else old(pending)[j]
        invariant forall j | i <= j < |pending| :: pending[j] == old(pending)[j]
        invariant Evolves(old(pending), pending, nextFence)
        modifies this`pending
      {
        if Overdue(pending[i], now) && pending[i].state != TimedOut {
          TimeOut(pending, credits, maxCredits, nextFence, i);
          EvolvesTransitive(old(pending), pending, pending[i := pending[i].(state := TimedOut)], nextFence, nextFence);
          pending := pending[i := pending[i].(state := TimedOut)];
        }
      }
      return Ok;
    }

    /** The entry an event is about: the one that awaits it from this context. */
    method FindEvent(action: nat, context: nat) returns (p: nat)
      requires Valid()
      ensures p <= |pending|
      ensures p < |pending| ==>
                pending[p].used && pending[p].creditsHeld && pending[p].action == action &&
                pending[p].context == context
      ensures p == |pending| ==>
                forall j | 0 <= j < |pending| ::
                  !(pending[j].used && pending[j].creditsHeld && pending[j].action == action &&
                    pending[j].context == context)
      ensures action == MODE || action == DEREGISTER ==>
                forall j | 0 <= j < |pending| && j != p ::
                  !(AwaitsEvent(pending[j]) && pending[j].context == context && p < |pending|)
    {
      hide Held, Fifo, Inbound;
      p := |pending|;
      for i := 0 to |pending|
        invariant p < i || p == |pending|
        invariant p < i ==>
                  pending[p].used && pending[p].creditsHeld && pending[p].action == action &&
                  pending[p].context == context
        invariant p == |pending| ==>
                  forall j | 0 <= j < i ::
                    !(pending[j].used && pending[j].creditsHeld && pending[j].action == action &&
                      pending[j].context == context)
      {
        if pending[i].used && pending[i].creditsHeld && pending[i].context == context && pending[i].action == action {
          p := i;
        }
      }
      if p < |pending| && (action == MODE || action == DEREGISTER) {
        forall j | 0 <= j < |pending| && j != p ensures !(AwaitsEvent(pending[j]) && pending[j].context == context) {
          assert if j < p then Separate(pending[j], pending[p]) else Separate(pending[p], pending[j]);
        }
      }
    }

    /** Records a reply on entry `p`. The credits come back exactly once, always within the
        limit: the over-return check never fires. */
    method Settle(p: nat, kind: nat, hxg: seq<nat>) returns (status: Status)
      requires Valid() && p < |pending| && pending[p].used && !pending[p].terminal && kind in {1, 3, 5, 6, 7}
      requires hxg != [] && kind == TypeOf(hxg[0]) && (kind == 3 || kind == 1 ==> pending[p].creditsHeld)
      modifies this`pending, this`credits
      ensures Valid() && status == Ok
      ensures |pending| == |old(pending)| && pending == old(pending)[p := Replied(old(pending)[p], kind, hxg)]
      ensures Evolves(old(pending), pending, nextFence)
      ensures credits == old(credits) + if kind == 3 then 0 else Holding(old(pending)[p])
    {
      hide Held, Fifo, Inbound;
      var e := pending[p].(hxg := hxg);
      var timedOut := e.state == TimedOut;
      assert EntryOk(pending[p], nextFence);
      Develop(pending, credits, maxCredits, nextFence, p, Replied(pending[p], kind, hxg));
      if kind == 3 {
        if !timedOut { e := e.(state := BusyReply); }
        pending := pending[p := e];
        return Ok;
      }
      if e.creditsHeld {
        if e.reservation > maxCredits - credits { assert false; }
        credits := credits + e.reservation;
        e := e.(creditsHeld := false);
      }
      e := e.(terminal := true);
      if timedOut { e := e.(late := true); }
      else { e := e.(state := if kind == 6 then Failure else if kind == 5 then Retry else Success); }
      pending := pending[p := e];
      return Ok;
    }

    /** Matches an incoming message to the request it answers; anything unexpected breaks the transport. */
    method Dispatch(fence: nat, hxg: seq<nat>) returns (status: Status)
      requires Valid() && hxg != []
      modifies this`pending, this`credits, this`broken
      ensures Valid() && Evolves(old(pending), pending, nextFence)
      ensures status != Ok ==> broken && pending == old(pending) && credits == old(credits) && status != Empty
      ensures status == Ok ==> broken == old(broken)
      ensures status == Ok <==> Accepts(old(pending), fence, hxg)
      ensures status == Ok ==> Took(old(pending), old(credits), pending, credits, fence, hxg)
      ensures status in {Ok, Corrupt, UnknownCookie}
    {
      hide At, LedgerOk, Fifo, Inbound, EntryStep, Evolves, Replied;
      EvolvesSelf(pending, nextFence);
      var header, kind := hxg[0], TypeOf(hxg[0]);
      if !FromGuC(header) { status := Fault(Corrupt); return; }
      var p;
      if kind == 1 {
        var action := header % 0x1_0000;
        if action != MODE_DONE && action != DEREGISTER_DONE { return Ok; }
        if header / 0x1_0000 % 0x1000 != 0 || |hxg| != (if action == MODE_DONE then 3 else 2) || !IdValid(hxg[1]) {
          status := Fault(Corrupt);
          return;
        }
        p := FindEvent(if action == MODE_DONE then MODE else DEREGISTER, hxg[1]);
        if p == |pending| || (action == MODE_DONE && hxg[2] != pending[p].mode) { status := Fault(Corrupt); return; }
      } else {
        if kind != 3 && kind != 5 && kind != 6 && kind != 7 { status := Fault(Corrupt); return; }
        if kind != 7 && |hxg| != 1 { status := Fault(Corrupt); return; }
        p := Find(fence);
        OneCookie(pending, credits, maxCredits, nextFence, fence, p);
        if p == |pending| { status := Fault(UnknownCookie); return; }
        if fence / FENCES % 2 == 1 && kind != 6 { status := Fault(Corrupt); return; }
        if fence / FENCES % 2 == 0 && !pending[p].creditsHeld { status := Fault(Corrupt); return; }
      }
      if pending[p].terminal { status := Fault(Corrupt); return; }
      ghost var before, paid := pending, credits;
      assert before[p] in before && Answers(before[p], fence, hxg);
      status := Settle(p, kind, hxg);
      assert TookAt(before, paid, pending, credits, fence, hxg, p);
    }

    /** Delivers the next message. From an honest peer that is the next one it posted, exactly once. */
    method Receive(e: nat, now: nat) returns (status: Status, fence: nat, hxg: seq<nat>)
      requires Valid()
      modifies this`lastTime, this`pending, this`credits, this`broken, this`gHead, this`got
      modifies this`hDesc, this`gDesc, this`gWords, this`taken, this`posted, this`clock, this`asked
      ensures Valid() && Evolves(old(pending), pending, nextFence) && old(lastTime) <= lastTime
      ensures old(posted) <= posted && old(clock) <= clock && |gWords| == |old(gWords)|
      ensures e != epoch ==> status == StaleEpoch && pending == old(pending)
      ensures old(broken) ==> broken && status != Ok
      ensures status == Ok ==> attached && 0 < |hxg| < 256 && gHead == (old(gHead) + 1 + |hxg|) % |gWords|
      ensures status == Ok ==> Took(Aged(old(pending), now), old(credits), pending, credits, fence, hxg)
      ensures status == Ok && !Unsolicited(hxg) ==> Stored(Aged(old(pending), now), pending, hxg)
      ensures status == Ok && honest ==> got == old(got) + 1 <= |posted| && posted[old(got)] == Wire(fence, hxg)
      ensures status != Ok ==> (gHead == old(gHead) && got == old(got)) || broken
      ensures status == Empty ==> attached && SawEmpty(tape, old(clock), clock, gHead, |gWords|)
      ensures status == Empty && honest ==> got == old(got) && got >= |old(posted)|
      ensures status == IoFailure || (status == Unavailable && attached) ==> !Yes(answers, old(asked), asked)
      ensures status == Ok ==> Heard(answers, old(asked), asked, 5)
    {
      hide At, Valid, Evolves, Accepts, Took, Aged, Avail, Stored, Unsolicited, Yes, Heard, SawEmpty, Overdue;
      ghost var first := asked;
      fence, hxg := 0, [];
      EvolvesSelf(pending, nextFence);
      if e != epoch { return StaleEpoch, 0, []; }
      status := Expire(now);
      if status != Ok { return; }
      status, fence, hxg := Fetch();
      if status != Ok { return; }
      ghost var third := asked;
      ghost var expired := pending;
      status := Deliver(fence, hxg);
      NoWithin(answers, first, third, asked, asked);
      if status == Ok { HeardMore(answers, first, third, asked, 3, 2); }
      EvolvesTransitive(old(pending), expired, pending, nextFence, nextFence);
    }

    /** The descriptors are in order; the next message is copied out. */
    method Fetch() returns (status: Status, fence: nat, hxg: seq<nat>)
      requires Valid()
      modifies this`broken, this`hDesc, this`gDesc, this`gWords, this`taken, this`posted, this`clock, this`asked
      ensures Valid() && |gWords| == |old(gWords)| && old(posted) <= posted && old(clock) <= clock
      ensures old(broken) ==> broken && status != Ok
      ensures status == Ok ==> attached && !broken && 0 < |hxg| < 256
      ensures status == Ok && honest ==> got < |posted| && posted[got] == Wire(fence, hxg)
      ensures status == Empty ==> attached && SawEmpty(tape, old(clock), clock, gHead, |gWords|)
      ensures status == Empty && honest ==> got >= |old(posted)|
      ensures status in {Ok, Empty, Unavailable, Corrupt, IoFailure} && (!attached ==> status == Unavailable)
      ensures old(asked) <= asked && (status == Ok ==> Heard(answers, old(asked), asked, 3))
      ensures status == IoFailure || (status == Unavailable && attached) ==> !Yes(answers, old(asked), asked)
    {
      hide At, Valid, Lag, Yes, Heard, Fair, Foul, Avail;
      fence, hxg := 0, [];
      ghost var first := asked;
      status := CheckDescriptors();
      if status != Ok { return; }
      ghost var second := asked;
      status, fence, hxg := Snapshot();
      NoWithin(answers, first, second, asked, asked);
      if status == Ok { HeardMore(answers, first, second, asked, 2, 1); }
    }

    /** Hands the message on, then gives its words back to the peer. */
    method Deliver(fence: nat, hxg: seq<nat>) returns (status: Status)
      requires Valid() && attached && hxg != [] && (honest ==> got < |posted| && posted[got] == Wire(fence, hxg))
      modifies this`pending, this`credits, this`broken, this`gHead, this`got
      modifies this`hDesc, this`gDesc, this`gWords, this`taken, this`posted, this`clock, this`asked
      ensures Valid() && Evolves(old(pending), pending, nextFence) && (old(broken) ==> broken)
      ensures |gWords| == |old(gWords)| && old(posted) <= posted && old(clock) <= clock
      ensures status == Ok ==>
                && broken == old(broken) && gHead == (old(gHead) + 1 + |hxg|) % |gWords|
                && (honest ==> got == old(got) + 1 <= |posted|)
                && Took(old(pending), old(credits), pending, credits, fence, hxg)
                && (!Unsolicited(hxg) ==> Stored(old(pending), pending, hxg))
      ensures status != Ok ==> broken && status != Empty
      ensures old(asked) <= asked && (status == IoFailure ==> !Yes(answers, old(asked), asked))
      ensures status == Ok ==> Heard(answers, old(asked), asked, 2)
      ensures status in {Ok, Corrupt, UnknownCookie, IoFailure}
    {
      hide At, Valid, Evolves, Accepts, Took, Stored, Unsolicited, Yes, Heard;
      status := Dispatch(fence, hxg);
      if status != Ok { return; }
      Recorded(old(pending), old(credits), fence, hxg);
      status := Advance(fence, hxg);
    }

    lemma Recorded(before: seq<Entry>, paid: nat, fence: nat, hxg: seq<nat>)
      requires Valid() && hxg != [] && Took(before, paid, pending, credits, fence, hxg)
      ensures !Unsolicited(hxg) ==> Stored(before, pending, hxg)
    {
      hide At, LedgerOk, Took, Stored, Fifo, Inbound, Unsolicited;
      if !Unsolicited(hxg) { TookStores(before, paid, pending, credits, maxCredits, nextFence, fence, hxg); }
    }

    /** How many words the peer has made available, by the tail it shows, and the barrier after that. */
    method Arrived() returns (ok: bool, available: nat)
      requires Valid() && attached
      modifies this`hDesc, this`gDesc, this`gWords, this`taken, this`posted, this`clock, this`asked
      ensures Valid() && |gWords| == |old(gWords)| && old(posted) <= posted && old(clock) <= clock
      ensures ok == Reply(answers, old(asked)) && asked == old(asked) + 1
      ensures available == 0 ==> SawEmpty(tape, old(clock), clock, gHead, |gWords|)
      ensures honest && available == 0 ==> got >= |old(posted)|
      ensures honest && available > 0 ==> got < |posted| && |posted[got].hxg| + 1 <= available
    {
      hide At, Fifo, LedgerOk, Inbox, Avail, WordAt, Reply;
      Peer();
      var tail := gDesc.tail;
      ghost var k := clock;
      if honest { AtHead(gWords, gHead, gDesc.tail, posted, got); }
      available := Avail(tail, gHead, |gWords|);
      ok := Ask();
      assert available == 0 ==> Avail(At(tape, k).g.tail, gHead, |gWords|) == 0;
    }

    /** Copies the next message out of the ring, word by word, before anything is decided about it. */
    method Snapshot() returns (status: Status, fence: nat, hxg: seq<nat>)
      requires Valid() && attached
      modifies this`broken, this`hDesc, this`gDesc, this`gWords, this`taken, this`posted, this`clock, this`asked
      ensures Valid() && (old(broken) ==> broken) && |gWords| == |old(gWords)| && old(posted) <= posted
      ensures old(clock) <= clock
      ensures status == Ok ==> broken == old(broken) && 0 < |hxg| < 256
      ensures status == Ok && honest ==> got < |posted| && posted[got] == Wire(fence, hxg)
      ensures honest ==> status in {Ok, Empty, IoFailure}
      ensures status == Empty ==> broken == old(broken) && SawEmpty(tape, old(clock), clock, gHead, |gWords|)
      ensures status == Empty && honest ==> got >= |old(posted)|
      ensures old(asked) <= asked && (status == IoFailure ==> !Yes(answers, old(asked), asked))
      ensures status == Ok ==> Heard(answers, old(asked), asked, 1)
      ensures status in {Ok, Empty, Corrupt, IoFailure}
    {
      hide At, Fifo, LedgerOk, Inbox, Avail, WordAt, Yes, Heard, SawEmpty, Current;
      ghost var first := asked;
      fence, hxg := 0, [];
      var acquired, available := Arrived();
      OneReply(first);
      if !acquired { status := Fault(IoFailure); return; }
      if available == 0 { return Empty, 0, []; }
      if honest { AtHead(gWords, gHead, gDesc.tail, posted, got); }
      var header := WordAt(gWords, gHead);
      var count := header % 256;
      if header / 256 % 256 != 0 || count == 0 || count + 1 > available { status := Fault(Corrupt); return; }
      fence := header / HALF % HALF;
      hxg := CopyWords(count);
      return Ok, fence, hxg;
    }

    method CopyWords(count: nat) returns (hxg: seq<nat>)
      requires Valid() && attached && (honest ==> got < |posted| && |posted[got].hxg| == count)
      modifies this`hDesc, this`gDesc, this`gWords, this`taken, this`posted, this`clock
      ensures Valid() && |gWords| == |old(gWords)| && old(posted) <= posted && old(clock) <= clock && |hxg| == count
      ensures honest ==> hxg == posted[got].hxg
    {
      hide At, Fifo, LedgerOk, Inbox, WordAt;
      hxg := [];
      for i := 0 to count
        invariant Valid() && |gWords| == |old(gWords)| && old(posted) <= posted && old(clock) <= clock && |hxg| == i
        invariant honest ==> got < |posted| && |posted[got].hxg| == count && hxg == posted[got].hxg[..i]
      {
        Peer();
        if honest { AtHead(gWords, gHead, gDesc.tail, posted, got); }
        hxg := hxg + [WordAt(gWords, gHead + 1 + i)];
      }
    }

    /** Moves the head past the message. */
    method PassHead(fence: nat, hxg: seq<nat>)
      requires Valid() && attached && (honest ==> got < |posted| && posted[got] == Wire(fence, hxg))
      modifies this`gHead, this`got, this`gDesc
      ensures Valid() && gHead == (old(gHead) + 1 + |hxg|) % |gWords| && (honest ==> got == old(got) + 1 <= |posted|)
    {
      hide At, Fifo, LedgerOk, Inbox;
      if honest {
        assert posted[got..][0] == posted[got] && posted[got..][1..] == posted[got + 1..];
        Consume(gWords, gHead, gDesc.tail, posted[got..]);
        got := got + 1;
      }
      gHead := (gHead + 1 + |hxg|) % |gWords|;
      gDesc := gDesc.(head := gHead);
    }

    /** Gives the words back to the peer. */
    method Advance(fence: nat, hxg: seq<nat>) returns (status: Status)
      requires Valid() && attached && (honest ==> got < |posted| && posted[got] == Wire(fence, hxg))
      modifies this`broken, this`gHead, this`got, this`hDesc, this`gDesc, this`gWords, this`taken, this`posted
      modifies this`clock, this`asked
      ensures Valid() && (old(broken) ==> broken) && |gWords| == |old(gWords)| && old(posted) <= posted
      ensures old(clock) <= clock
      ensures status == Ok ==>
                broken == old(broken) && gHead == (old(gHead) + 1 + |hxg|) % |gWords| &&
                (honest ==> got == old(got) + 1 <= |posted|)
      ensures status != Ok ==> broken && status != Empty
      ensures old(asked) <= asked
      ensures if status == Ok then Heard(answers, old(asked), asked, 2) else !Yes(answers, old(asked), asked)
      ensures status in {Ok, IoFailure}
    {
      hide At, Valid, Yes, Heard;
      ghost var first := asked;
      var released := Ask();
      ghost var second := asked;
      OneReply(first);
      if !released { status := Fault(IoFailure); return; }
      PassHead(fence, hxg);
      released := Ask();
      OneReply(second);
      NoWithin(answers, first, second, asked, asked);
      if !released { status := Fault(IoFailure); return; }
      HeardMore(answers, first, second, asked, 1, 1);
      return Ok;
    }

    method Query(e: nat, fence: nat) returns (status: Status, reply: Entry)
      requires Valid()
      ensures status == if e != epoch then StaleEpoch else if Find(fence) == |pending| then UnknownCookie else Ok
      ensures status == Ok ==> reply in pending && reply.used && reply.fence == fence && Told(reply)
    {
      hide LedgerOk, Fifo, Inbound, Told;
      AllTold(pending, credits, maxCredits, nextFence);
      reply := NO_ENTRY;
      if e != epoch { return StaleEpoch, reply; }
      var p := Find(fence);
      if p == |pending| { return UnknownCookie, reply; }
      return Ok, pending[p];
    }

    /** A request that still owns its response cannot be forgotten. */
    method Retire(e: nat, fence: nat) returns (status: Status)
      requires Valid()
      modifies this`pending
      ensures Valid() && Evolves(old(pending), pending, nextFence)
      ensures status != Ok ==> pending == old(pending)
      ensures status == Ok ==> e == epoch && exists p | 0 <= p < |old(pending)| ::
                old(pending)[p].used && old(pending)[p].fence == fence && !old(pending)[p].creditsHeld &&
                pending == old(pending)[p := NO_ENTRY]
      ensures e == epoch && old(Find(fence)) < |old(pending)| && old(pending)[old(Find(fence))].creditsHeld ==>
                status == Busy
    {
      hide At, LedgerOk, Fifo, Inbound, Evolves;
      EvolvesSelf(pending, nextFence);
      if e != epoch { return StaleEpoch; }
      var p := Find(fence);
      if p == |pending| { return UnknownCookie; }
      if pending[p].creditsHeld { return Busy; }
      Forget(pending, credits, maxCredits, nextFence, p);
      pending := pending[p := NO_ENTRY];
      return Ok;
    }

    // ---------------------------------------------------------------- every run

    /** One call by the host, or the peer on its own. `fence` is the cookie of a request that was entered. */
    method Perform(event: Event) returns (issued: bool, fence: nat)
      requires Valid()
      modifies this
      ensures Valid() && Evolves(old(pending), pending, old(nextFence))
      ensures nextFence == old(nextFence) + if issued then 1 else 0
      ensures issued ==> fence % FENCES == old(nextFence)
      ensures old(sent) <= sent
      ensures (old(attached) ==>
                 attached && old(posted) <= posted && old(clock) <= clock && maxCredits == old(maxCredits))
    {
      hide At, LedgerOk, Fifo, Inbound, Evolves, ValidAction, RingsValid, WireOf;
      issued, fence := false, 0;
      EvolvesSelf(pending, nextFence);
      match event {
        case DoAttach(h, g, hd, gd, hw, gw, e, abi, already) => AttachOnce(h, g, hd, gd, hw, gw, e, abi, already);
        case DoSend(a, now, deadline) => issued, fence := SendOne(a, now, deadline);
        case DoReceive(e, now) => var s, f, h := Receive(e, now);
        case DoExpire(now) => var s := Expire(now);
        case DoRetire(e, f) => var s := Retire(e, f);
        case PeerActs => Peer();
      }
    }

    method SendOne(a: Action, now: nat, deadline: nat) returns (issued: bool, fence: nat)
      requires Valid()
      modifies this`lastTime, this`hWords, this`hTail, this`broken, this`sent, this`pending, this`credits
      modifies this`nextFence
      modifies this`hDesc, this`gDesc, this`gWords, this`taken, this`posted, this`clock, this`asked
      ensures Valid() && Evolves(old(pending), pending, old(nextFence)) && old(sent) <= sent && old(posted) <= posted
      ensures old(clock) <= clock
      ensures nextFence == old(nextFence) + if issued then 1 else 0
      ensures issued ==> fence % FENCES == old(nextFence)
    {
      hide At, LedgerOk, Fifo, Inbound, Evolves, ValidAction, WireOf;
      var status;
      ghost var seen;
      status, fence, seen := Send(a, now, deadline);
      issued := status == Ok || status == PublishedUnknown;
      if issued {
        ActionShape(a);
        IssuedFence(a, old(pending), old(credits), old(maxCredits), old(nextFence), pending, credits, maxCredits,
                    nextFence);
      }
    }

    method AttachOnce(h: Ring, g: Ring, hd: Descriptor, gd: Descriptor, hw: seq<nat>, gw: seq<nat>, e: nat, abi: bool,
                      already: seq<Wire>)
      requires Valid()
      modifies this
      ensures Valid() && Evolves(old(pending), pending, old(nextFence)) && nextFence == old(nextFence)
      ensures sent == old(sent)
      ensures (old(attached) ==>
                 attached && posted == old(posted) && clock == old(clock) && maxCredits == old(maxCredits))
    {
      hide At, LedgerOk, Fifo, Inbound, RingsValid, Inbox;
      EvolvesSelf(pending, nextFence);
      LedgerSize(pending, credits, maxCredits, nextFence);
      if attached || |hw| != h.count || |gw| != g.count || |gw| == 0 || (honest && !Inbox(gw, 0, gd.tail, already)) ||
         !Shows(At(tape, clock + 1), hd, gd) {
        return;
      }
      var status := Attach(h, g, hd, gd, hw, gw, e, abi, already);
    }

    /** Whatever the host calls and whatever the peer does, between the calls or in the middle of them: credits are
        conserved and one always stays, no two requests get the same cookie, a request that timed out never succeeds, a
        settled request never changes; and with an honest peer, each side reads exactly what the
        other wrote, in order. */
    method Execute(events: seq<Event>) returns (cookies: seq<nat>)
      requires Valid()
      modifies this
      ensures Valid() && credits + Held(pending) == maxCredits && (attached ==> 0 < credits)
      ensures forall i, j | 0 <= i < j < |cookies| :: cookies[i] != cookies[j]
      ensures Evolves(old(pending), pending, old(nextFence))
      ensures forall i | 0 <= i < |pending| && pending[i].used && old(pending)[i].used &&
                pending[i].fence == old(pending)[i].fence ::
                (old(pending)[i].state == TimedOut ==> pending[i].state == TimedOut) &&
                (old(pending)[i].terminal ==> pending[i] == old(pending)[i])
      ensures forall e <- pending :: e.used ==> Told(e)
      ensures attached && honest ==> Fifo() && Inbound()
      ensures old(sent) <= sent && (old(attached) ==> old(posted) <= posted && old(clock) <= clock)
    {
      hide At, Fifo, Inbound, Evolves, EntryOk, Separate, Held, Told;
      cookies := [];
      EvolvesSelf(pending, nextFence);
      LedgerSize(pending, credits, maxCredits, nextFence);
      ghost var first := nextFence;
      for n := 0 to |events|
        invariant Valid() && Evolves(old(pending), pending, first) && old(sent) <= sent
        invariant old(attached) ==> attached && old(posted) <= posted && old(clock) <= clock
        invariant nextFence == first + |cookies|
        invariant forall i | 0 <= i < |cookies| :: cookies[i] % FENCES == first + i
      {
        ghost var before, now := pending, nextFence;
        var issued, fence := Perform(events[n]);
        EvolvesTransitive(old(pending), before, pending, first, now);
        if issued { cookies := cookies + [fence]; }
      }
      SameRequest(old(pending), old(credits), old(maxCredits), first, pending);
      AllTold(pending, credits, maxCredits, nextFence);
    }
  }

  lemma SawLater(tape: nat -> Shown, first: nat, last: nat, later: nat, place: nat, count: nat)
    requires count > 0 && Saw(tape, first, last, place, count) && last <= later
    ensures Saw(tape, first, later, place, count)
  {
    hide At;
  }

  /** A reader that only moves on never takes room away. */
  lemma RoomStays(head: nat, head': nat, tail: nat, count: nat, length: nat)
    requires head' < count && Lag(head', tail, count) <= Lag(head, tail, count) && RoomFor(head, tail, count, length)
    ensures RoomFor(head', tail, count, length)
  {
    SpaceIsRest(head, tail, count);
    SpaceIsRest(head', tail, count);
  }

  /** Padding, then a message where it fits: no unread word is written, and the tail does not reach the head. */
  lemma WrittenFree(first: seq<nat>, padded: seq<nat>, last: seq<nat>, head: nat, tail: nat, tail': nat, n: nat)
    requires |first| == |padded| == |last| && head < |first| && tail' < |first| && 0 < n && tail' + n <= |first|
    requires (tail' == tail || (tail' == 0 && 0 < head <= tail)) && Lag(head, tail', |first|) + n < |first|
    requires forall i | 0 <= i < |first| && Unread(head, tail, i) :: padded[i] == first[i]
    requires forall i | 0 <= i < |first| && !(tail' <= i < tail' + n) :: last[i] == padded[i]
    ensures forall i | 0 <= i < |first| && Unread(head, tail, i) :: last[i] == first[i]
    ensures (tail' + n) % |first| != head
  {
    TailIsFree(head, tail', |first|, n);
  }

  lemma TailIsFree(head: nat, tail: nat, count: nat, n: nat)
    requires head < count && tail < count && 0 < n && Lag(head, tail, count) + n < count && tail + n <= count
    ensures forall i | tail <= i < tail + n :: !Unread(head, tail, i)
    ensures (tail + n) % count != head && (tail + n) % count != tail
  {
    WrapTail(tail, n, count);
  }

  /** What stands at the host's head is the next message posted. */
  lemma AtHead(words: seq<nat>, head: nat, tail: nat, posted: seq<Wire>, got: nat)
    requires head < |words| && got <= |posted| && Inbox(words, head, tail, posted[got..])
    ensures got == |posted| <==> Avail(tail, head, |words|) == 0
    ensures got < |posted| ==>
              var m, header := posted[got], WordAt(words, head);
              && header % 256 == |m.hxg| && header / 256 % 256 == 0 && header / HALF % HALF == m.fence
              && 0 < |m.hxg| < 256
              && |m.hxg| + 1 <= Avail(tail, head, |words|) && forall i | 0 <= i < |m.hxg| ::
                   WordAt(words, head + 1 + i) == m.hxg[i]
  {
    hide Inbox, Avail, WordAt;
    InboxEmpty(words, head, tail, posted[got..]);
    if got < |posted| {
      assert posted[got..][0] == posted[got];
      FirstIn(words, head, tail, posted[got..]);
      HeaderFields(posted[got]);
    }
  }

  lemma EmptyOutbox(words: seq<nat>)
    requires words != []
    ensures Outbox(words, 0, 0, [])
  {
    EmptyMessages(words);
  }

  lemma InOutbox(words: seq<nat>, head: nat, tail: nat, ms: seq<Wire>)
    requires Outbox(words, head, tail, ms)
    ensures head < |words| && tail < |words|
  {
  }

  lemma WrapTail(tail: nat, n: nat, count: nat)
    requires tail < count && 0 < n && tail + n <= count && n < count
    ensures (tail + n) % count == if tail + n == count then 0 else tail + n
    ensures (tail + n) % count != tail
  {
    if tail + n == count { DivMod(1, 0, count); } else { DivMod(0, tail + n, count); }
  }

  lemma Written(words: seq<nat>, at: nat, m: Wire)
    requires at + |m.hxg| + 1 <= |words| && words[at] == m.fence * HALF + |m.hxg|
    requires forall j | at < j < at + 1 + |m.hxg| :: words[j] == m.hxg[j - at - 1]
    ensures words[at..at + |m.hxg| + 1] == Encode(m)
  {
    var w := words[at..at + |m.hxg| + 1];
    assert w[0] == words[at];
    assert forall i | 0 < i < |w| :: w[i] == words[at + i] == Encode(m)[i];
  }

  lemma PostSize(words: seq<nat>, head: nat, tail: nat, m: Wire, words': seq<nat>, tail': nat)
    requires head < |words| && Posts(words, head, tail, m, words', tail')
    ensures |words'| == |words|
  {
    hide View, Avail;
  }

  /** The peer's view after one step: the front of the queue, if a message, is gone. */
  lemma TakeOne(words: seq<nat>, head: nat, tail: nat, sent: seq<Wire>, taken: nat)
    requires head < |words| && tail < |words| && head != tail && taken <= |sent|
    requires Messages(words, head, tail) == Some(sent[taken..])
    ensures Next(words, head) < |words| && Lag(Next(words, head), tail, |words|) < Lag(head, tail, |words|)
    ensures words[head] % HALF == 0 ==> Messages(words, Next(words, head), tail) == Some(sent[taken..])
    ensures words[head] % HALF != 0 ==>
              taken < |sent| && Messages(words, Next(words, head), tail) == Some(sent[taken + 1..])
    ensures words[head] % HALF != 0 ==>
              head + words[head] % HALF < |words| &&
              sent[taken] == Wire(words[head] / HALF, words[head..][1..words[head] % HALF + 1])
  {
    hide Parse, Messages;
    Take(words, head, tail);
    var rest := Messages(words, Next(words, head), tail);
    JoinSome(Some(First(words[head..])), rest);
    if words[head] % HALF == 0 {
      JoinEmpty(rest);
    } else {
      assert words[head..][0] == words[head] && |First(words[head..])| == 1;
      assert sent[taken..] == First(words[head..]) + rest.value;
      assert |sent[taken..]| >= 1;
      assert sent[taken + 1..] == sent[taken..][1..] == rest.value;
      assert sent[taken] == sent[taken..][0];
    }
  }

  datatype Event =
    | DoAttach(h: Ring, g: Ring, hd: Descriptor, gd: Descriptor, hw: seq<nat>, gw: seq<nat>, e: nat, abi: bool,
               already: seq<Wire>)
    | DoSend(a: Action, now: nat, deadline: nat)
    | DoReceive(e: nat, now: nat)
    | DoExpire(now: nat)
    | DoRetire(e: nat, f: nat)
    | PeerActs
}
