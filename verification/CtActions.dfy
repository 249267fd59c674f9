/**
 The actions the GuC transport sends, when they have to wait, and which messages answer them.
 */
module CtActions {
  import opened Arithmetic
  import opened CtRing
  import opened CtLedger

  datatype Action = Action(words: seq<nat>, count: nat)

  predicate IdValid(id: nat) { id < 65535 }

  /** The five actions the transport will send, and their exact shapes. */
  predicate ValidAction(a: Action) {
    && |a.words| == 12 && 0 < a.count <= 12 && (forall w <- a.words :: w < U32)
    && var w := a.words;
    if w[0] == REGISTER then
      && a.count == 12 && w[1] == 1 && IdValid(w[2]) && (w[3] == 0 || w[3] == 4) && w[4] != 0
      && (w[10] != 0 || w[11] != 0)
      && w[5] == 0 && w[6] == 0 && w[7] == 0 && w[8] == 0 && w[9] == 0
    else if w[0] == SCHEDULE || w[0] == DEREGISTER then a.count == 2 && IdValid(w[1])
    else if w[0] == MODE then a.count == 3 && IdValid(w[1]) && w[2] <= 1
    else if w[0] == AUTHENTICATE then a.count == 2 && w[1] != 0 && w[1] % 4 == 0
    else false
  }

  /** The message an action becomes on the wire. */
  function WireOf(a: Action, n: nat): Wire
    requires ValidAction(a)
  {
    var fast := if a.words[0] == AUTHENTICATE then 0 else 0x2000_0000;
    Wire(FenceOf(a.words[0], n), [a.words[0] + fast] + a.words[1..a.count])
  }

  /** The header of what is sent says which action it is, that it comes from the host, and whether an answer is owed:
      only then does the cookie lack its top bit. */
  lemma WireHeader(a: Action, n: nat)
    requires ValidAction(a) && n < FENCES
    ensures var w := WireOf(a, n);
            && |w.hxg| == a.count && w.hxg[1..] == a.words[1..a.count]
            && w.hxg[0] % 0x1_0000 == a.words[0] && !FromGuC(w.hxg[0])
            && TypeOf(w.hxg[0]) == (if a.words[0] == AUTHENTICATE then 0 else 2)
            && (w.fence / FENCES % 2 == 1 <==> TypeOf(w.hxg[0]) == 2) && w.fence % FENCES == n
  {
    FenceIndex(a.words[0], n);
  }

  function RequestOf(a: Action, n: nat, deadline: nat): Entry
    requires ValidAction(a)
  {
    NewEntry(a.words[0], a.words[1], a.words[2], n, deadline)
  }

  // ------------------------------------------------------------ waiting

  /** A request to this context still awaits its event. */
  predicate ContextAwaits(pending: seq<Entry>, context: nat) {
    exists j | 0 <= j < |pending| :: AwaitsEvent(pending[j]) && pending[j].context == context
  }

  /** The test made before sending: it looks for the second word of the action. */
  predicate Clashes(pending: seq<Entry>, a: Action)
    requires ValidAction(a)
  {
    a.words[0] != AUTHENTICATE && ContextAwaits(pending, a.words[1])
  }

  /** A request that has to wait: the context its second word names awaits an event, the table is full, or the credits
      are too few. */
  predicate Crowded(pending: seq<Entry>, credits: nat, a: Action)
    requires ValidAction(a)
  {
    Clashes(pending, a) || (forall j | 0 <= j < |pending| :: pending[j].used) ||
    (Reserve(a.words[0]) > 0 && credits <= Reserve(a.words[0]))
  }

  /** A request that needs as many credits as there are has to wait: the last credit is never given out. */
  lemma LastCreditStays(pending: seq<Entry>, a: Action)
    requires ValidAction(a) && Reserve(a.words[0]) > 0
    ensures forall credits: nat :: !Crowded(pending, credits, a) ==> credits - Reserve(a.words[0]) >= 1
    ensures Crowded(pending, Reserve(a.words[0]), a)
  {
  }

  /** The context an action is about. */
  function OwnContext(a: Action): nat
    requires ValidAction(a)
  {
    if a.words[0] == REGISTER then a.words[2] else a.words[1]
  }

  /** What the test is for: the action's own context still awaits an event. */
  predicate OwnAwaits(pending: seq<Entry>, a: Action)
    requires ValidAction(a)
  {
    a.words[0] != AUTHENTICATE && ContextAwaits(pending, OwnContext(a))
  }

  /** A table in which only `context` awaits an event. */
  function OneAwaiting(context: nat): seq<Entry> {
    Blank()[0 := NewEntry(DEREGISTER, context, 0, 0, 10)]
  }

  lemma OneAwaitingOk(context: nat, other: nat)
    ensures LedgerOk(OneAwaiting(context), 508, 511, 1)
    ensures ContextAwaits(OneAwaiting(context), other) <==> other == context
  {
    hide LedgerOk, Held;
    var e := NewEntry(DEREGISTER, context, 0, 0, 10);
    FreshLedger(511);
    Issue(Blank(), 511, 511, 0, 0, e);
    assert AwaitsEvent(OneAwaiting(context)[0]);
  }

  function Registration(context: nat): Action {
    Action([REGISTER, 1, context, 0, 1, 0, 0, 0, 0, 0, 1, 0], 12)
  }

  lemma RegistrationValid(context: nat)
    requires IdValid(context)
    ensures ValidAction(Registration(context))
    ensures var w := Registration(context).words; |w| == 12 && w[0] == REGISTER && w[1] == 1 && w[2] == context
  {
    var w := Registration(context).words;
    assert forall x <- w :: x < U32;
  }

  /** A registration of context 7 goes out although context 7 awaits its deregistration. */
  lemma OwnContextMissed()
    ensures ValidAction(Registration(7)) && LedgerOk(OneAwaiting(7), 508, 511, 1)
    ensures OwnAwaits(OneAwaiting(7), Registration(7))
    ensures forall credits: nat :: !Crowded(OneAwaiting(7), credits, Registration(7))
  {
    hide LedgerOk, ValidAction, Registration, ContextAwaits;
    RegistrationValid(7);
    OneAwaitingOk(7, 7);
    OneAwaitingOk(7, 1);
    assert !OneAwaiting(7)[1].used;
  }

  /** A registration of context 7 waits although only context 1 awaits an event. */
  lemma OtherContextCounted()
    ensures ValidAction(Registration(7)) && LedgerOk(OneAwaiting(1), 508, 511, 1)
    ensures !OwnAwaits(OneAwaiting(1), Registration(7))
    ensures forall credits: nat :: Crowded(OneAwaiting(1), credits, Registration(7))
  {
    hide LedgerOk, ValidAction, Registration, ContextAwaits;
    RegistrationValid(7);
    OneAwaitingOk(1, 7);
    OneAwaitingOk(1, 1);
  }

  /** A registration is held back by context 1, whatever context it registers. */
  lemma RegistrationClash(pending: seq<Entry>, a: Action)
    requires ValidAction(a) && a.words[0] == REGISTER
    ensures Clashes(pending, a) <==> ContextAwaits(pending, 1)
  {
  }

  /** The test asks about the action's own context in every table exactly if the action is no registration of a context
      other than 1. */
  lemma OwnContextTested(a: Action)
    requires ValidAction(a)
    ensures (forall pending, credits, maxCredits, nextFence | LedgerOk(pending, credits, maxCredits, nextFence) ::
               Clashes(pending, a) <==> OwnAwaits(pending, a))
            <==> a.words[0] != REGISTER || a.words[2] == 1
  {
    hide LedgerOk;
    if a.words[0] == REGISTER && a.words[2] != 1 {
      OneAwaitingOk(a.words[2], a.words[2]);
      OneAwaitingOk(a.words[2], 1);
      assert LedgerOk(OneAwaiting(a.words[2]), 508, 511, 1);
    }
  }

  /** A message fits at the tail, or at the start after padding out the rest. */
  predicate RoomFor(head: nat, tail: nat, count: nat, length: nat) {
    && head < count && tail < count
    && length <= Space(head, tail, count)
    && (tail + length > count ==> length <= Space(head, tail, count) - (count - tail))
  }

  // ------------------------------------------------------------ rings and messages

  datatype Ring = Ring(descriptor: nat, words: nat, count: nat)

  predicate RingValid(r: Ring) {
    r.descriptor != 0 && r.words != 0 && r.descriptor % 4 == 0 && r.words % 4 == 0 && 1024 <= r.count <= 0x10_0000 &&
    PowerOfTwo(r.count)
  }

  predicate SpansApart(a: nat, n: nat, b: nat, m: nat) {
    a + n <= b || b + m <= a
  }

  predicate RingsValid(h: Ring, g: Ring) {
    && RingValid(h) && RingValid(g)
    && h.descriptor + 64 < U64 && h.words + 4 * h.count < U64 && g.descriptor + 64 < U64 && g.words + 4 * g.count < U64
    && SpansApart(h.words, 4 * h.count, h.descriptor, 64) && SpansApart(g.descriptor, 64, h.descriptor, 64)
    && SpansApart(g.descriptor, 64, h.words, 4 * h.count) && SpansApart(g.words, 4 * g.count, h.descriptor, 64)
    && SpansApart(g.words, 4 * g.count, h.words, 4 * h.count) && SpansApart(g.words, 4 * g.count, g.descriptor, 64)
  }

  lemma RingSizes(h: Ring, g: Ring)
    requires RingsValid(h, g)
    ensures 1024 <= h.count <= 0x10_0000 && 1024 <= g.count <= 0x10_0000
  {
    hide PowerOfTwo, SpansApart;
  }

  predicate FromGuC(header: nat) {
    header / 0x8000_0000 % 2 == 1
  }

  const MODE_DONE: nat := 0x1002
  const DEREGISTER_DONE: nat := 0x4600

  /** An event nobody asked for is passed on and answers nothing. */
  predicate Unsolicited(hxg: seq<nat>)
    requires hxg != []
  {
    TypeOf(hxg[0]) == 1 && hxg[0] % 0x1_0000 !in {MODE_DONE, DEREGISTER_DONE}
  }

  /** The message is a well-formed answer to this request: by cookie, or, for events, by action, context and mode. */
  predicate Answers(e: Entry, fence: nat, hxg: seq<nat>)
    requires hxg != []
  {
    var header, kind := hxg[0], TypeOf(hxg[0]);
    && e.used && !e.terminal
    && if kind == 1 then
         var modeDone := header % 0x1_0000 == MODE_DONE;
         && e.creditsHeld && header / 0x1_0000 % 0x1000 == 0 && |hxg| == (if modeDone then 3 else 2) && IdValid(hxg[1])
         && e.context == hxg[1] && e.action == (if modeDone then MODE else DEREGISTER)
         && (modeDone ==> hxg[2] == e.mode)
       else
         && e.fence == fence && kind in {3, 5, 6, 7} && (kind != 7 ==> |hxg| == 1)
         && if fence / FENCES % 2 == 1 then kind == 6 else e.creditsHeld
  }

  predicate Accepts(pending: seq<Entry>, fence: nat, hxg: seq<nat>)
    requires hxg != []
  {
    FromGuC(hxg[0]) && (Unsolicited(hxg) || exists e <- pending :: Answers(e, fence, hxg))
  }

  /** The one request the message answers takes the reply, and its credits come back with a final one. */
  predicate Took(before: seq<Entry>, credits: nat, after: seq<Entry>, credits': nat, fence: nat, hxg: seq<nat>)
    requires hxg != []
  {
    if Unsolicited(hxg) then after == before && credits' == credits
    else exists p | 0 <= p < |before| :: TookAt(before, credits, after, credits', fence, hxg, p)
  }

  predicate TookAt(before: seq<Entry>, credits: nat, after: seq<Entry>, credits': nat, fence: nat, hxg: seq<nat>,
                   p: nat)
    requires hxg != [] && p < |before|
  {
    && Answers(before[p], fence, hxg) && after == before[p := Replied(before[p], TypeOf(hxg[0]), hxg)]
    && credits' == credits + if TypeOf(hxg[0]) == 3 then 0 else Holding(before[p])
  }

  /** One request stores exactly this message; a final one settles it, and a timeout is not undone. */
  ghost predicate Stored(before: seq<Entry>, after: seq<Entry>, hxg: seq<nat>)
    requires hxg != []
  {
    exists p | 0 <= p < |before| && |after| == |before| ::
      && after == before[p := after[p]] && after[p].used && after[p].fence == before[p].fence
      && after[p].hxg == hxg && (after[p].terminal <==> TypeOf(hxg[0]) != 3) && Told(after[p])
      && (after[p].state == TimedOut <==> before[p].state == TimedOut)
  }

  lemma TookStores(before: seq<Entry>, credits: nat, after: seq<Entry>, credits': nat, maxCredits: nat, nextFence: nat,
                   fence: nat, hxg: seq<nat>)
    requires hxg != [] && Took(before, credits, after, credits', fence, hxg) && !Unsolicited(hxg)
    requires LedgerOk(after, credits', maxCredits, nextFence)
    ensures Stored(before, after, hxg)
  {
    hide Held;
    var p :| 0 <= p < |before| && TookAt(before, credits, after, credits', fence, hxg, p);
    assert EntryOk(after[p], nextFence);
    assert after == before[p := after[p]];
  }

  /** Every entry's state is what its stored message says. */
  lemma AllTold(pending: seq<Entry>, credits: nat, maxCredits: nat, nextFence: nat)
    requires LedgerOk(pending, credits, maxCredits, nextFence)
    ensures forall e <- pending :: e.used ==> Told(e)
  {
    hide Held, Told;
    forall e | e in pending && e.used ensures Told(e) {
      var i :| 0 <= i < |pending| && pending[i] == e;
      assert EntryOk(pending[i], nextFence);
    }
  }

  /** What a request reserves is enough for whatever answers it, header included. */
  lemma ReplyFits(e: Entry, nextFence: nat, fence: nat, hxg: seq<nat>)
    requires EntryOk(e, nextFence) && nextFence <= FENCES && e.creditsHeld && 0 < |hxg| < 256 && Answers(e, fence, hxg)
    ensures |hxg| + 1 <= e.reservation
  {
    var n: nat :| n < nextFence && e.fence == FenceOf(e.action, n);
  }

  lemma OneCookie(pending: seq<Entry>, credits: nat, maxCredits: nat, nextFence: nat, fence: nat, p: nat)
    requires LedgerOk(pending, credits, maxCredits, nextFence) && p <= |pending|
    requires p < |pending| ==> pending[p].used && pending[p].fence == fence
    requires forall j | 0 <= j < p :: !(pending[j].used && pending[j].fence == fence)
    ensures forall j | 0 <= j < |pending| && j != p :: !(pending[j].used && pending[j].fence == fence)
  {
    hide Held, EntryOk;
    forall j | 0 <= j < |pending| && j != p ensures !(pending[j].used && pending[j].fence == fence) {
      if p < j { assert Separate(pending[p], pending[j]); }
    }
  }

  /** Past its deadline with a response still owed. */
  predicate Overdue(e: Entry, now: nat) {
    e.used && e.creditsHeld && now >= e.deadline
  }

  /** The table with every overdue request timed out. */
  function Aged(pending: seq<Entry>, now: nat): seq<Entry> {
    seq(|pending|, i requires 0 <= i < |pending| =>
        if Overdue(pending[i], now) then pending[i].(state := TimedOut) else pending[i])
  }

  /** A timed-out request stays timed out; its reply only shows as late. */
  function Replied(e: Entry, kind: nat, hxg: seq<nat>): Entry {
    if kind == 3 then e.(hxg := hxg, state := if e.state == TimedOut then TimedOut else BusyReply)
    else if e.state == TimedOut then e.(hxg := hxg, creditsHeld := false, terminal := true, late := true)
    else e.(hxg := hxg, creditsHeld := false, terminal := true,
            state := if kind == 6 then Failure else if kind == 5 then Retry else Success)
  }

  lemma ActionShape(a: Action)
    requires ValidAction(a)
    ensures |a.words| == 12 && 1 < a.count <= 12
  {
  }

  /** One new request in a free entry, with a cookie no other entry has. */
  predicate Issued(before: seq<Entry>, after: seq<Entry>, slot: nat, e: Entry) {
    && slot < |before| && !before[slot].used && after == before[slot := e]
    && forall j | 0 <= j < |before| && before[j].used :: before[j].fence % FENCES != e.fence % FENCES
  }

  function FindFrom(pending: seq<Entry>, fence: nat, from: nat): (i: nat)
    requires from <= |pending|
    ensures from <= i <= |pending|
    ensures i < |pending| ==> pending[i].used && pending[i].fence == fence
    ensures forall j | from <= j < i :: !(pending[j].used && pending[j].fence == fence)
    decreases |pending| - from
  {
    if from == |pending| then from
    else if pending[from].used && pending[from].fence == fence then from
    else FindFrom(pending, fence, from + 1)
  }

  lemma LedgerSize(pending: seq<Entry>, credits: nat, maxCredits: nat, nextFence: nat)
    requires LedgerOk(pending, credits, maxCredits, nextFence)
    ensures |pending| == MAX_PENDING
  {
  }

  lemma IssuedFence(a: Action, p: seq<Entry>, c: nat, m: nat, n: nat, p': seq<Entry>, c': nat, m': nat, n': nat)
    requires |a.words| > 0 && LedgerOk(p, c, m, n) && LedgerOk(p', c', m', n') && n' == n + 1
    ensures FenceOf(a.words[0], n) % FENCES == n
  {
    FenceIndex(a.words[0], n);
  }

  /** Seen from the cookie: what `Evolves` says of a request that is still there. */
  lemma SameRequest(before: seq<Entry>, credits: nat, maxCredits: nat, nextFence: nat, after: seq<Entry>)
    requires LedgerOk(before, credits, maxCredits, nextFence) && Evolves(before, after, nextFence)
    ensures forall i | 0 <= i < |after| && after[i].used && before[i].used && after[i].fence == before[i].fence ::
              EntryStep(before[i], after[i])
  {
    hide Held;
    forall i | 0 <= i < |after| && after[i].used && before[i].used && after[i].fence == before[i].fence
      ensures EntryStep(before[i], after[i])
    {
      assert EntryOk(before[i], nextFence);
      var n: nat :| n < nextFence && before[i].fence == FenceOf(before[i].action, n);
      FenceIndex(before[i].action, n);
    }
  }
}
