/**
 The two things the hard interrupt filter and the workloop of XeInterrupt::Controller share, the
 atomic state word and the tile master register, and the atomic steps either takes on them.
 */
module InterruptRace {

  datatype Phase = Stopped | Armed | Masked | Working | Fault

  /** Where the filter stands: between two of its atomic steps, or not running. */
  datatype FilterAt = Quiet | Saw | Claiming | Masking | Failing | Dropping

  /** `missed`: a write of the master register failed or was left out.
      `doomed`: the last enable came while the filter still had a mask write to make. */
  datatype Shared = Shared(phase: Phase, master: bool, filter: FilterAt, missed: bool, doomed: bool)

  /** What the hardware answers to one filter step: whether the access works, and the level bit. */
  datatype Answer = Answer(ok: bool, level: bool)

  /** The filter has decided to mask delivery and has not done so yet. */
  predicate Owing(s: Shared) {
    s.filter == Masking || s.filter == Dropping
  }

  // ------------------------------------------------------------ atomic steps

  function FilterNext(s: Shared, a: Answer): Shared {
    match s.filter
    case Quiet => if s.phase == Armed && a.ok then s.(filter := Saw) else s
    case Saw => s.(filter := if !a.ok then Failing else if a.level then Claiming else Quiet)
    case Claiming => if s.phase == Armed then s.(phase := Masked, filter := Masking) else s.(filter := Quiet)
    case Masking => if a.ok then s.(master := false, filter := Quiet) else s.(missed := true, filter := Failing)
    case Failing => s.(phase := Fault, filter := Dropping)
    case Dropping => if a.ok then s.(master := false, filter := Quiet) else s.(missed := true, filter := Quiet)
  }

  function FilterRun(s: Shared, answers: seq<Answer>): Shared
    decreases |answers|
  {
    if answers == [] then s else FilterRun(FilterNext(s, answers[0]), answers[1..])
  }

  function Store(s: Shared, p: Phase): Shared {
    s.(phase := p)
  }

  /** The workloop's write of the master register. A failed one may or may not have taken effect. */
  function WriteMaster(s: Shared, on: bool, ok: bool, effect: bool): Shared {
    if ok then s.(master := on, doomed := if on then Owing(s) else s.doomed)
    else s.(master := if effect then on else s.master, missed := true)
  }

  // ------------------------------------------------------------ what holds

  /** Delivery is enabled only while armed, or while the filter is about to mask it. */
  predicate Safe(s: Shared) {
    s.missed || (s.master ==> s.phase == Armed || Owing(s))
  }

  /** While armed, delivery is enabled unless the filter's late mask write undid the enable. */
  predicate Awake(s: Shared) {
    s.missed || s.phase != Armed || ((Owing(s) ==> s.doomed) && (s.master <==> !s.doomed || Owing(s)))
  }

  lemma FilterKeeps(s: Shared, a: Answer)
    ensures var t := FilterNext(s, a);
            (Safe(s) ==> Safe(t)) && (Awake(s) ==> Awake(t)) && (t.phase == Armed ==> s.phase == Armed) &&
            (s.missed ==> t.missed)
    ensures FilterNext(s, a).master ==> s.master
    ensures var t := FilterNext(s, a).phase; t == s.phase || t == Fault || (s.phase == Armed && t == Masked)
  {
  }

  /** Whatever the filter does between two workloop steps keeps all of it. */
  lemma {:induction false} FilterRunKeeps(s: Shared, answers: seq<Answer>)
    ensures var t := FilterRun(s, answers);
            (Safe(s) ==> Safe(t)) && (Awake(s) ==> Awake(t)) && (t.phase == Armed ==> s.phase == Armed) &&
            (s.missed ==> t.missed)
    ensures FilterRun(s, answers).master ==> s.master
    ensures var t := FilterRun(s, answers).phase; t == s.phase || t == Fault || (s.phase == Armed && t == Masked)
    decreases |answers|
  {
    if answers != [] {
      FilterKeeps(s, answers[0]);
      FilterRunKeeps(FilterNext(s, answers[0]), answers[1..]);
    }
  }

  /** At rest: enabled implies armed, and armed implies enabled exactly when no enable was overtaken. */
  lemma AtRest(s: Shared)
    requires Safe(s) && Awake(s) && s.filter == Quiet && !s.missed
    ensures s.master ==> s.phase == Armed
    ensures s.phase == Armed ==> (s.master <==> !s.doomed)
  {
  }

  // ------------------------------------------------------------ re-arming

  /** Re-arming with the filter running between any two of its steps and every write working. */
  function Rearmed(s: Shared, a: seq<Answer>, b: seq<Answer>, c: seq<Answer>): Shared {
    var enabled := WriteMaster(FilterRun(Store(s, Armed), a), true, true, true);
    var seen := FilterRun(enabled, b);
    if seen.phase == Armed then seen else WriteMaster(FilterRun(seen, c), false, true, true)
  }

  /** The second look at the state word closes the race: without it the enable could outlive a mask. */
  lemma RearmSafe(s: Shared, a: seq<Answer>, b: seq<Answer>, c: seq<Answer>)
    ensures Safe(Rearmed(s, a, b, c)) && Awake(Rearmed(s, a, b, c))
  {
    hide Safe, FilterRun;
    var armed := FilterRun(Store(s, Armed), a);
    EnableAwake(armed);
    var enabled := WriteMaster(armed, true, true, true);
    FilterRunKeeps(enabled, b);
    var seen := FilterRun(enabled, b);
    if seen.phase == Armed { ArmedSafe(seen); } else { FilterRunKeeps(seen, c); MaskSafe(FilterRun(seen, c)); }
  }

  lemma EnableAwake(s: Shared)
    ensures Awake(WriteMaster(s, true, true, true))
  {
  }

  lemma ArmedSafe(s: Shared)
    requires s.phase == Armed
    ensures Safe(s)
  {
  }

  lemma MaskSafe(s: Shared)
    requires s.phase != Armed
    ensures Safe(WriteMaster(s, false, true, true)) && Awake(WriteMaster(s, false, true, true))
  {
  }

  /** Without the second look: the filter claims and masks before the enable is written. */
  lemma SecondLookNeeded()
    ensures var s := Shared(Working, false, Quiet, false, false);
            var a := [Answer(true, true), Answer(true, true), Answer(true, true), Answer(true, true)];
            !Safe(WriteMaster(FilterRun(Store(s, Armed), a), true, true, true))
  {
    var s0 := Store(Shared(Working, false, Quiet, false, false), Armed);
    var yes := Answer(true, true);
    var s1 := FilterNext(s0, yes);
    var s2 := FilterNext(s1, yes);
    var s3 := FilterNext(s2, yes);
    var s4 := FilterNext(s3, yes);
    assert [yes, yes, yes, yes][1..] == [yes, yes, yes] && [yes, yes, yes][1..] == [yes, yes] &&
           [yes, yes][1..] == [yes] && [yes][1..] == [];
    assert FilterRun(s4, []) == s4 && FilterRun(s3, [yes]) == s4 && FilterRun(s2, [yes, yes]) == s4;
    assert FilterRun(s1, [yes, yes, yes]) == s4 && FilterRun(s0, [yes, yes, yes, yes]) == s4;
    assert s4 == Shared(Masked, false, Quiet, false, false);
  }

  /** Armed but masked: a filter suspended over a whole service masks what the next re-arm enabled. */
  lemma Overtaken()
    ensures var s := Shared(Working, false, Quiet, false, false);
            var yes := Answer(true, true);
            var claimed := Rearmed(s, [yes, yes, yes], [], []);
            var t := FilterNext(Rearmed(Store(claimed, Working), [], [], []), yes);
            claimed.phase == Masked && t.phase == Armed && !t.master && t.filter == Quiet && !t.missed
  {
    var s0 := Shared(Armed, false, Quiet, false, false);
    var yes := Answer(true, true);
    assert [yes, yes, yes][1..] == [yes, yes] && [yes, yes][1..] == [yes] && [yes][1..] == [];
    var s3 := FilterNext(FilterNext(FilterNext(s0, yes), yes), yes);
    assert FilterRun(s3, []) == s3;
    assert FilterRun(FilterNext(FilterNext(s0, yes), yes), [yes]) == s3;
    assert FilterRun(FilterNext(s0, yes), [yes, yes]) == s3;
    assert FilterRun(s0, [yes, yes, yes]) == s3;
  }
}
