/**
 The pending-request table of the GuC transport: response credits, cookies and reply states.
 */
module CtLedger {

  const MAX_PENDING: nat := 32
  const FENCES: nat := 0x8000

  const REGISTER: nat := 0x4502
  const SCHEDULE: nat := 0x1000
  const MODE: nat := 0x1001
  const DEREGISTER: nat := 0x4503
  const AUTHENTICATE: nat := 0x4000

  datatype ReplyState = Awaiting | BusyReply | Success | Failure | Retry | TimedOut | SentUnconfirmed

  datatype Entry = Entry(used: bool, fence: nat, state: ReplyState, hxg: seq<nat>, late: bool, creditsHeld: bool,
                         deadline: nat, action: nat, context: nat, mode: nat, reservation: nat, terminal: bool)

  const NO_ENTRY: Entry := Entry(false, 0, Awaiting, [], false, false, 0, 0, 0, 0, 0, false)

  /** Response words reserved for each kind of action. */
  function Reserve(action: nat): nat {
    if action == AUTHENTICATE then 256 else if action == MODE then 4 else if action == DEREGISTER then 3 else 0
  }

  /** Fast requests carry the top fence bit. */
  function FenceOf(action: nat, n: nat): nat {
    if action == AUTHENTICATE then n else n + FENCES
  }

  function NewEntry(action: nat, context: nat, mode: nat, n: nat, deadline: nat): Entry {
    var reserve := Reserve(action);
    Entry(true, FenceOf(action, n), if reserve > 0 then Awaiting else SentUnconfirmed, [], false, reserve > 0,
          deadline, action, context, mode, reserve, false)
  }

  function Holding(e: Entry): nat {
    if e.used && e.creditsHeld then e.reservation else 0
  }

  /** The credits out on requests. */
  function Held(pending: seq<Entry>): nat {
    if pending == [] then 0 else Held(pending[..|pending| - 1]) + Holding(pending[|pending| - 1])
  }

  lemma {:induction false} HeldUpdate(pending: seq<Entry>, i: nat, e: Entry)
    requires i < |pending|
    ensures Held(pending[i := e]) == Held(pending) - Holding(pending[i]) + Holding(e)
    ensures Holding(pending[i]) <= Held(pending)
  {
    var n := |pending| - 1;
    if i == n {
      assert pending[i := e][..n] == pending[..n];
    } else {
      HeldUpdate(pending[..n], i, e);
      assert pending[i := e][..n] == pending[..n][i := e];
    }
  }

  lemma {:induction false} HeldEmpty(n: nat)
    ensures Held(seq(n, _ => NO_ENTRY)) == 0
  {
    if n > 0 {
      HeldEmpty(n - 1);
      assert seq(n, _ => NO_ENTRY)[..n - 1] == seq(n - 1, _ => NO_ENTRY);
    }
  }

  /** The type field of a message header: bits 28..30. */
  function TypeOf(header: nat): nat {
    header / 0x1000_0000 % 8
  }

  /** The stored message has one of these types. */
  predicate Holds(e: Entry, types: set<nat>) {
    e.hxg != [] && TypeOf(e.hxg[0]) in types
  }

  /** A reply state says which message is stored: a response or an event is success, 6 failure, 5 retry, 3 busy; a
      request that timed out holds nothing, a busy, or a late answer. */
  predicate Told(e: Entry) {
    match e.state
    case Success => Holds(e, {1, 7})
    case Failure => Holds(e, {6})
    case Retry => Holds(e, {5})
    case BusyReply => Holds(e, {3})
    case TimedOut => if e.late then Holds(e, {1, 5, 6, 7}) else e.hxg == [] || Holds(e, {3})
    case _ => e.hxg == []
  }

  predicate EntryOk(e: Entry, nextFence: nat) {
    if !e.used then e == NO_ENTRY
    else
      && (exists n: nat | n < nextFence :: e.fence == FenceOf(e.action, n))
      && e.reservation == Reserve(e.action)
      && (e.creditsHeld ==> e.reservation > 0 && !e.terminal)
      && (e.late ==> e.state == TimedOut && e.terminal)
      && (e.state in {Success, Failure, Retry} <==> e.terminal && !e.late)
      && (e.reservation > 0 && !e.terminal ==> e.creditsHeld)
      && Told(e)
  }

  /** Waiting for a GuC event that names only the context. */
  predicate AwaitsEvent(e: Entry) {
    e.used && e.creditsHeld && (e.action == MODE || e.action == DEREGISTER)
  }

  predicate Separate(a: Entry, b: Entry) {
    && (a.used && b.used ==> a.fence % FENCES != b.fence % FENCES)
    && (AwaitsEvent(a) && AwaitsEvent(b) ==> a.context != b.context)
  }

  /** Credits are conserved, cookies differ, and a context awaits at most one event. */
  predicate LedgerOk(pending: seq<Entry>, credits: nat, maxCredits: nat, nextFence: nat) {
    && |pending| == MAX_PENDING && nextFence <= FENCES
    && credits + Held(pending) == maxCredits
    && (forall i | 0 <= i < |pending| :: EntryOk(pending[i], nextFence))
    && (forall i, j | 0 <= i < j < |pending| :: Separate(pending[i], pending[j]))
  }

  function Blank(): seq<Entry> {
    seq(MAX_PENDING, _ => NO_ENTRY)
  }

  lemma FreshLedger(credits: nat)
    ensures LedgerOk(Blank(), credits, credits, 0)
  {
    HeldEmpty(MAX_PENDING);
  }

  // ------------------------------------------------------------ histories

  /** How one request may develop. */
  predicate EntryStep(a: Entry, b: Entry) {
    && b.fence == a.fence && b.action == a.action && b.context == a.context && b.mode == a.mode
    && b.deadline == a.deadline && b.reservation == a.reservation
    && (a.state == TimedOut ==> b.state == TimedOut)
    && (a.terminal ==> b == a)
    && (!a.creditsHeld ==> !b.creditsHeld)
  }

  /** Every request issued before `nextFence` that is still there developed from itself. */
  predicate Evolves(before: seq<Entry>, after: seq<Entry>, nextFence: nat) {
    && |before| == |after|
    && forall i | 0 <= i < |after| && after[i].used && after[i].fence % FENCES < nextFence ::
         before[i].used && EntryStep(before[i], after[i])
  }

  lemma EvolvesTransitive(a: seq<Entry>, b: seq<Entry>, c: seq<Entry>, n: nat, m: nat)
    requires Evolves(a, b, n) && Evolves(b, c, m) && n <= m
    ensures Evolves(a, c, n)
  {
  }

  lemma EvolvesSelf(a: seq<Entry>, n: nat)
    ensures Evolves(a, a, n)
  {
  }

  // ------------------------------------------------------------ changes

  lemma FenceIndex(action: nat, n: nat)
    requires n < FENCES
    ensures FenceOf(action, n) % FENCES == n
  {
  }

  /** A request takes a free entry, its reservation and the next cookie. */
  lemma Issue(pending: seq<Entry>, credits: nat, maxCredits: nat, nextFence: nat, i: nat, e: Entry)
    requires LedgerOk(pending, credits, maxCredits, nextFence) && i < |pending| && !pending[i].used
    requires nextFence < FENCES
    requires e == NewEntry(e.action, e.context, e.mode, nextFence, e.deadline) && e.reservation <= credits
    requires AwaitsEvent(e) ==>
              forall j | 0 <= j < |pending| && AwaitsEvent(pending[j]) :: pending[j].context != e.context
    ensures LedgerOk(pending[i := e], credits - e.reservation, maxCredits, nextFence + 1)
    ensures Evolves(pending, pending[i := e], nextFence)
    ensures forall j | 0 <= j < |pending| && pending[j].used :: pending[j].fence % FENCES != e.fence % FENCES
  {
    hide Held;
    HeldUpdate(pending, i, e);
    FenceIndex(e.action, nextFence);
    var u := pending[i := e];
    forall j | 0 <= j < |u|
      ensures EntryOk(u[j], nextFence + 1)
      ensures j != i && u[j].used ==> u[j].fence % FENCES < nextFence
    {
      assert EntryOk(pending[j], nextFence);
      if j != i && u[j].used {
        var n: nat :| n < nextFence && u[j].fence == FenceOf(u[j].action, n);
        FenceIndex(u[j].action, n);
      }
    }
    forall a, b | 0 <= a < b < |u| ensures Separate(u[a], u[b]) { assert Separate(pending[a], pending[b]); }
  }

  /** One request develops; if it gives its credits back, they go back to the pool. */
  lemma Develop(pending: seq<Entry>, credits: nat, maxCredits: nat, nextFence: nat, i: nat, e: Entry)
    requires LedgerOk(pending, credits, maxCredits, nextFence) && i < |pending| && pending[i].used && e.used
    requires EntryStep(pending[i], e) && EntryOk(e, nextFence)
    ensures Holding(e) <= Holding(pending[i]) <= Held(pending)
    ensures LedgerOk(pending[i := e], credits + Holding(pending[i]) - Holding(e), maxCredits, nextFence)
    ensures Evolves(pending, pending[i := e], nextFence)
  {
    hide Held;
    HeldUpdate(pending, i, e);
    var u := pending[i := e];
    forall a, b | 0 <= a < b < |u| ensures Separate(u[a], u[b]) { assert Separate(pending[a], pending[b]); }
  }

  lemma TimeOut(pending: seq<Entry>, credits: nat, maxCredits: nat, nextFence: nat, i: nat)
    requires LedgerOk(pending, credits, maxCredits, nextFence) && i < |pending| && pending[i].used
    requires pending[i].creditsHeld
    ensures LedgerOk(pending[i := pending[i].(state := TimedOut)], credits, maxCredits, nextFence)
    ensures Evolves(pending, pending[i := pending[i].(state := TimedOut)], nextFence)
  {
    hide Held;
    assert EntryOk(pending[i], nextFence);
    Develop(pending, credits, maxCredits, nextFence, i, pending[i].(state := TimedOut));
  }

  lemma Forget(pending: seq<Entry>, credits: nat, maxCredits: nat, nextFence: nat, i: nat)
    requires LedgerOk(pending, credits, maxCredits, nextFence) && i < |pending| && !pending[i].creditsHeld
    ensures LedgerOk(pending[i := NO_ENTRY], credits, maxCredits, nextFence)
    ensures Evolves(pending, pending[i := NO_ENTRY], nextFence)
  {
    hide Held;
    HeldUpdate(pending, i, NO_ENTRY);
    var u := pending[i := NO_ENTRY];
    forall a, b | 0 <= a < b < |u| ensures Separate(u[a], u[b]) { assert Separate(pending[a], pending[b]); }
  }
}
