/**
 MellowRT::planWorkload: a budgeted backtracking search for providers and transfers. Readiness
 is sound, complete and preference-ordered.
 */
module RoutePlanner {

  datatype Api = OpenGL | OpenCL | Native | CpuReference
  datatype Kind = Host | Mellow | Reference
  datatype Execution = Hardware | Software
  datatype Workload = Compute | Render | Blit
  datatype Input = MetalSemantics | OpenClC
  datatype Scope = ReportedPci | OpenClDeviceObject
  datatype Policy = SharedOnly | SharedOrCopy
  datatype Mode = NoTransfer | SharedResource | ExplicitCopy
  datatype PlanStatus = ReadyPlan | InvalidInput | UnsupportedFeatures | TransferUnavailable | SearchLimit

  /** Features are sets of bit numbers. */
  const F_COMPUTE: nat := 0
  const F_RENDER: nat := 1
  const F_BLIT: nat := 2
  const F_COMPUTE_TRANSLATION: nat := 3
  const F_RENDER_TRANSLATION: nat := 4
  const F_ORDERED_QUEUE: nat := 12

  predicate Known(features: set<nat>) {
    forall f <- features :: f < 13
  }

  datatype Device = Device(vendorId: nat, deviceId: nat, revision: nat, instance: nat, scope: Scope, apiVendorId: nat)

  datatype Provider = Provider(id: nat, device: Device, api: Api, kind: Kind, execution: Execution, major: nat,
                               minor: nat,
                               resetEpoch: nat, evidenceEpoch: nat, record: nat, advertised: set<nat>,
                                 verified: set<nat>)

  datatype Step = Step(workload: Workload, required: set<nat>, requiredProvider: nat, input: Input)
  datatype Dependency = Dependency(producer: nat, consumer: nat, resource: nat, policy: Policy)
  datatype Contract = Contract(producer: nat, consumer: nat, resource: nat, producerEpoch: nat, consumerEpoch: nat,
                               mode: Mode,
                               compatible: bool, ordered: bool, preserved: bool, record: nat)

  const MAX_PROVIDERS: nat := 8
  const MAX_STEPS: nat := 8
  const MAX_DEPENDENCIES: nat := 16
  const MAX_TRANSFERS: nat := 32
  const MAX_ATTEMPTS: nat := 8192

  predicate ValidProvider(p: Provider) {
    && p.id != 0 && p.device.instance != 0 && p.resetEpoch != 0 && p.evidenceEpoch == p.resetEpoch && p.record != 0
    && p.verified <= p.advertised && Known(p.advertised)
    && if p.device.scope == OpenClDeviceObject then
         && p.api == OpenCL && p.kind == Host && p.execution == Hardware && p.device.apiVendorId != 0
         && p.device.deviceId == 0 && p.device.revision == 0
         && (p.device.vendorId == 0 || p.device.vendorId == p.device.apiVendorId)
       else
         && p.device.apiVendorId == 0
         && if p.api == CpuReference then p.kind == Reference && p.execution == Software
            else (p.kind == Host || p.kind == Mellow) && p.device.vendorId != 0 && p.device.deviceId != 0
  }

  predicate VersionAtLeast(p: Provider, major: nat, minor: nat) {
    p.major > major || (p.major == major && p.minor >= minor)
  }

  function Baseline(w: Workload): set<nat> {
    match w
    case Compute => {F_COMPUTE, F_COMPUTE_TRANSLATION}
    case Render => {F_RENDER, F_RENDER_TRANSLATION}
    case Blit => {F_BLIT}
  }

  predicate Supports(p: Provider, s: Step, reference: bool) {
    && (s.requiredProvider == 0 || s.requiredProvider == p.id)
    && (if reference then p.api == CpuReference else p.execution == Hardware && p.api != CpuReference)
    && (s.input == OpenClC ==> p.api == OpenCL && s.workload == Compute)
    && (if s.input == OpenClC then {F_COMPUTE} else Baseline(s.workload)) + s.required + {F_ORDERED_QUEUE} <= p.verified
    && (p.api == OpenGL ==> if s.workload == Compute then VersionAtLeast(p, 4, 3) else VersionAtLeast(p, 4, 1))
    && (p.api == OpenCL ==> s.workload != Render && VersionAtLeast(p, 1, 2))
  }

  predicate ContractFits(c: Contract, d: Dependency, a: Provider, b: Provider, wanted: Mode) {
    && c.producer == a.id && c.consumer == b.id && c.resource == d.resource && c.producerEpoch == a.resetEpoch
    && c.consumerEpoch == b.resetEpoch
    && c.mode == wanted && c.compatible && c.ordered && c.preserved && c.record != 0
  }

  predicate HasContract(contracts: seq<Contract>, d: Dependency, a: Provider, b: Provider, wanted: Mode) {
    exists c <- contracts :: ContractFits(c, d, a, b, wanted)
  }

  /** How a dependency may cross from provider `a` to provider `b`: in place, by verified
      sharing, or, where the caller allows it, by copy. */
  predicate Crosses(contracts: seq<Contract>, d: Dependency, a: Provider, b: Provider, mode: Mode) {
    match mode
    case NoTransfer => a.id == b.id
    case SharedResource => a.id != b.id && HasContract(contracts, d, a, b, SharedResource)
    case ExplicitCopy =>
      a.id != b.id && !HasContract(contracts, d, a, b, SharedResource) && d.policy == SharedOrCopy &&
      HasContract(contracts, d, a, b, ExplicitCopy)
  }

  predicate Possible(contracts: seq<Contract>, d: Dependency, a: Provider, b: Provider) {
    a.id == b.id || HasContract(contracts, d, a, b, SharedResource) ||
    (d.policy == SharedOrCopy && HasContract(contracts, d, a, b, ExplicitCopy))
  }

  datatype Problem = Problem(providers: seq<Provider>, steps: seq<Step>, dependencies: seq<Dependency>,
                             contracts: seq<Contract>, reference: bool)
  {
    predicate DependenciesOk() {
      forall d <- dependencies :: d.resource != 0 && d.producer < d.consumer < |steps|
    }

    predicate InputOk(budget: nat) {
      && 0 < |providers| <= MAX_PROVIDERS && 0 < |steps| <= MAX_STEPS && |dependencies| <= MAX_DEPENDENCIES
      && |contracts| <= MAX_TRANSFERS
      && 0 < budget <= MAX_ATTEMPTS
      && (forall p <- providers :: ValidProvider(p))
      && (forall i, j | 0 <= j < i < |providers| :: providers[j].id != providers[i].id)
      && (forall s <- steps :: Known(s.required)) && DependenciesOk()
    }

    /** The first `n` steps are placed on supporting providers and every dependency among them can cross. */
    predicate Fits(choice: seq<nat>, n: nat)
      requires DependenciesOk()
    {
      && n <= |choice| && n <= |steps|
      && (forall s | 0 <= s < n :: choice[s] < |providers| && Supports(providers[choice[s]], steps[s], reference))
      && (forall d <- dependencies | d.consumer < n ::
            Possible(contracts, d, providers[choice[d.producer]], providers[choice[d.consumer]]))
    }

    /** A complete assignment of providers to steps. */
    predicate Admissible(choice: seq<nat>)
      requires DependenciesOk()
    {
      |choice| == |steps| && Fits(choice, |steps|)
    }
  }

  /** `a` comes before `b`, or is `b`, in the order of provider preference from step `from` on. */
  predicate Preferred(a: seq<nat>, b: seq<nat>, from: nat)
    requires |a| == |b| && from <= |a|
    decreases |a| - from
  {
    from == |a| || a[from] < b[from] || (a[from] == b[from] && Preferred(a, b, from + 1))
  }

  /** The attempts of an exhaustive search: `n` providers, each followed by the search of the remaining steps. */
  function Effort(n: nat, steps: nat): nat {
    if steps == 0 then 0 else Rows(n, Effort(n, steps - 1))
  }

  function Rows(n: nat, effort: nat): nat {
    if n == 0 then 0 else Rows(n - 1, effort) + 1 + effort
  }

  /** Some complete assignment begins this way. */
  ghost predicate Completable(p: Problem, prefix: seq<nat>)
    requires p.DependenciesOk()
  {
    exists c :: p.Admissible(c) && prefix <= c
  }

  /** The attempts of a search without a budget behind a beginning: it stops at the first completion. */
  ghost function Cost(p: Problem, prefix: seq<nat>): nat
    requires p.DependenciesOk()
    decreases |p.steps| - |prefix|, |p.providers| + 1
  {
    if |prefix| >= |p.steps| then 0 else CostFrom(p, prefix, 0)
  }

  ghost function CostFrom(p: Problem, prefix: seq<nat>, i: nat): nat
    requires p.DependenciesOk() && |prefix| < |p.steps| && i <= |p.providers|
    decreases |p.steps| - |prefix|, |p.providers| - i
  {
    if i == |p.providers| then 0
    else 1 + CostBehind(p, prefix, i) + if Completable(p, prefix + [i]) then 0 else CostFrom(p, prefix, i + 1)
  }

  /** Nothing is searched behind a provider that does not fit. */
  ghost function CostBehind(p: Problem, prefix: seq<nat>, i: nat): nat
    requires p.DependenciesOk() && |prefix| < |p.steps|
    decreases |p.steps| - |prefix|, 0
  {
    if p.Fits(prefix + [i], |prefix| + 1) then Cost(p, prefix + [i]) else 0
  }

  /** It never takes more than an exhaustive search. */
  lemma {:induction false} CostBound(p: Problem, prefix: seq<nat>)
    requires p.DependenciesOk() && |prefix| <= |p.steps|
    ensures Cost(p, prefix) <= Effort(|p.providers|, |p.steps| - |prefix|)
    decreases |p.steps| - |prefix|, |p.providers| + 1
  {
    hide Completable;
    if |prefix| < |p.steps| { CostFromBound(p, prefix, 0); }
  }

  lemma {:induction false} CostFromBound(p: Problem, prefix: seq<nat>, i: nat)
    requires p.DependenciesOk() && |prefix| < |p.steps| && i <= |p.providers|
    ensures CostFrom(p, prefix, i) <= Rows(|p.providers| - i, Effort(|p.providers|, |p.steps| - |prefix| - 1))
    decreases |p.steps| - |prefix|, |p.providers| - i
  {
    hide Completable;
    if i < |p.providers| {
      CostBound(p, prefix + [i]);
      CostFromBound(p, prefix, i + 1);
    }
  }

  class Search {
    const p: Problem
    const budget: nat
    var attempts: nat
    var limitReached: bool
    var selected: seq<nat>
    var modes: seq<Mode>

    ghost predicate Valid()
      reads this
    {
      && p.DependenciesOk() && |selected| == |p.steps| && |modes| == |p.dependencies| && attempts <= budget
      && (limitReached ==> attempts == budget)
    }

    constructor (p: Problem, budget: nat)
      requires p.DependenciesOk()
      ensures this.p == p && this.budget == budget && Valid() && attempts == 0 && !limitReached
    {
      this.p, this.budget := p, budget;
      attempts, limitReached := 0, false;
      selected, modes := seq(|p.steps|, _ => 0), seq(|p.dependencies|, _ => NoTransfer);
    }

    /** Sharing is looked for first, then, if allowed, a copy. */
    method Transfer(d: Dependency) returns (ok: bool, mode: Mode)
      requires Valid() && d in p.dependencies && selected[d.producer] < |p.providers|
      requires selected[d.consumer] < |p.providers|
      ensures ok <==> Possible(p.contracts, d, p.providers[selected[d.producer]], p.providers[selected[d.consumer]])
      ensures ok ==> Crosses(p.contracts, d, p.providers[selected[d.producer]], p.providers[selected[d.consumer]], mode)
    {
      var a, b := p.providers[selected[d.producer]], p.providers[selected[d.consumer]];
      if a.id == b.id { return true, NoTransfer; }
      for pass := 0 to 2
        invariant pass > 0 ==> !HasContract(p.contracts, d, a, b, SharedResource)
        invariant pass > 1 ==> d.policy != SharedOrCopy || !HasContract(p.contracts, d, a, b, ExplicitCopy)
      {
        var wanted := if pass == 0 then SharedResource else ExplicitCopy;
        if wanted == SharedResource || d.policy == SharedOrCopy {
          for i := 0 to |p.contracts|
            invariant forall j | 0 <= j < i :: !ContractFits(p.contracts[j], d, a, b, wanted)
          {
            if ContractFits(p.contracts[i], d, a, b, wanted) {
              assert p.contracts[i] in p.contracts;
              return true, wanted;
            }
          }
        }
      }
      return false, NoTransfer;
    }

    /** The recorded mode of every dependency into a step from `lo` up to `hi` is how it crosses. */
    ghost predicate ModesOk(lo: nat, hi: nat)
      requires Valid()
      reads this
    {
      forall e | 0 <= e < |modes| && lo <= p.dependencies[e].consumer < hi :: ModeAt(p, selected, modes, e)
    }

    /** Checks every dependency into `step` and records how it crosses. */
    method Connect(step: nat) returns (ok: bool)
      requires Valid() && step < |p.steps| && p.Fits(selected, step) && selected[step] < |p.providers|
      requires Supports(p.providers[selected[step]], p.steps[step], p.reference)
      modifies this`modes
      ensures Valid() && (ok <==> p.Fits(selected, step + 1))
      ensures ok ==> ModesOk(step, step + 1)
      ensures forall e | 0 <= e < |modes| && p.dependencies[e].consumer != step :: modes[e] == old(modes)[e]
    {
      hide Crosses, Supports, Possible;
      for e := 0 to |p.dependencies|
        invariant Valid()
        invariant forall n | 0 <= n < e && p.dependencies[n].consumer == step :: ModeAt(p, selected, modes, n)
        invariant forall n | 0 <= n < e && p.dependencies[n].consumer == step ::
                    Possible(p.contracts, p.dependencies[n], p.providers[selected[p.dependencies[n].producer]],
                             p.providers[selected[step]])
        invariant forall n | 0 <= n < |modes| && p.dependencies[n].consumer != step :: modes[n] == old(modes)[n]
      {
        var d := p.dependencies[e];
        assert d in p.dependencies;
        if d.consumer == step {
          var crosses, mode := Transfer(d);
          if !crosses { return false; }
          modes := modes[e := mode];
        }
      }
      forall d | d in p.dependencies && d.consumer < step + 1
        ensures Possible(p.contracts, d, p.providers[selected[d.producer]], p.providers[selected[d.consumer]])
      {
        var n :| 0 <= n < |p.dependencies| && p.dependencies[n] == d;
      }
      return true;
    }

    /** Tries providers in order for `step` and, behind each, for the steps after it. */
    method Choose(step: nat) returns (ok: bool)
      requires Valid() && step <= |p.steps| && p.Fits(selected, step) && !limitReached
      modifies this`attempts, this`limitReached, this`selected, this`modes
      ensures Valid() && selected[..step] == old(selected)[..step] && attempts >= old(attempts)
      ensures forall e | 0 <= e < |modes| && p.dependencies[e].consumer < step :: modes[e] == old(modes)[e]
      ensures ok ==> p.Admissible(selected) && ModesOk(step, |p.steps|) && !limitReached
      ensures ok ==> forall c | p.Admissible(c) && c[..step] == selected[..step] :: Preferred(selected, c, step)
      ensures !ok && !limitReached ==> forall c | p.Admissible(c) :: c[..step] != selected[..step]
      ensures limitReached <==> budget < old(attempts) + Cost(p, old(selected)[..step])
      ensures !limitReached ==> attempts == old(attempts) + Cost(p, old(selected)[..step])
      decreases |p.steps| - step
    {
      hide Crosses, Supports, Possible, ModeAt, Cost, CostBehind, Completable;
      ghost var prefix := selected[..step];
      CostUnfolds(p, prefix);
      if step == |p.steps| { return true; }
      for i := 0 to |p.providers|
        invariant Valid() && !limitReached && selected[..step] == old(selected)[..step] && attempts >= old(attempts)
        invariant forall e | 0 <= e < |modes| && p.dependencies[e].consumer < step :: modes[e] == old(modes)[e]
        invariant forall c | p.Admissible(c) && c[..step] == old(selected)[..step] :: c[step] >= i
        invariant attempts + CostFrom(p, prefix, i) == old(attempts) + Cost(p, prefix)
      {
        if attempts == budget { limitReached := true; return false; }
        attempts := attempts + 1;
        ok := Try(step, i, old(selected));
        if ok { return true; }
        if limitReached { return false; }
      }
      forall c | p.Admissible(c)
        ensures c[..step] != selected[..step]
      {
        assert c[step] < |p.providers|;
      }
      return false;
    }

    /** Provider `i` for `step`, if it supports it and every dependency can cross, and then the rest. */
    method Try(step: nat, i: nat, ghost base: seq<nat>) returns (ok: bool)
      requires Valid() && step < |p.steps| && i < |p.providers| && !limitReached
      requires |base| == |selected| && selected[..step] == base[..step] && p.Fits(base, step)
      modifies this`attempts, this`limitReached, this`selected, this`modes
      ensures Valid() && selected[..step] == base[..step] && attempts >= old(attempts)
      ensures forall e | 0 <= e < |modes| && p.dependencies[e].consumer < step :: modes[e] == old(modes)[e]
      ensures ok ==> p.Admissible(selected) && ModesOk(step, |p.steps|) && !limitReached && selected[step] == i
      ensures ok ==> forall c | p.Admissible(c) && c[..step] == base[..step] && c[step] == i ::
                Preferred(selected, c, step)
      ensures !ok && !limitReached ==> forall c | p.Admissible(c) && c[..step] == base[..step] :: c[step] != i
      ensures limitReached <==> budget < old(attempts) + CostBehind(p, base[..step], i)
      ensures !limitReached ==> attempts == old(attempts) + CostBehind(p, base[..step], i)
      ensures !limitReached ==> (ok <==> Completable(p, base[..step] + [i]))
      decreases |p.steps| - step, 0
    {
      hide Crosses, Supports, Possible, ModeAt, Cost, Completable;
      OneMore(p, base, step, i);
      if !Supports(p.providers[i], p.steps[step], p.reference) { return false; }
      selected := selected[step := i];
      PrefixFits(p, base, selected, step);
      var compatible := Connect(step);
      SameStart(p, base, selected, step, i);
      if !compatible { return false; }
      ghost var choice, tried := selected, modes;
      ok := Choose(step + 1);
      assert selected[..step] == selected[..step + 1][..step] == base[..step];
      assert selected[step] == selected[..step + 1][step] == i;
      if ok {
        forall e | 0 <= e < |modes| && step <= p.dependencies[e].consumer < |p.steps|
          ensures ModeAt(p, selected, modes, e)
        {
          if p.dependencies[e].consumer == step { SameMode(p, choice, selected, tried, modes, e, step + 1); }
        }
      }
    }
  }

  /** Every assignment that begins like `base` and goes on with `i` begins like `choice`. */
  lemma SameStart(p: Problem, base: seq<nat>, choice: seq<nat>, step: nat, i: nat)
    requires p.DependenciesOk() && step < |p.steps| == |base| == |choice| && choice[..step] == base[..step]
    requires choice[step] == i
    ensures choice[..step + 1] == base[..step] + [i]
    ensures p.Fits(choice, step + 1) <==> p.Fits(base[..step] + [i], step + 1)
    ensures forall c | p.Admissible(c) && c[..step] == base[..step] && c[step] == i ::
              c[..step + 1] == choice[..step + 1] && p.Fits(choice, step + 1)
  {
    hide Supports, Possible;
    assert choice[..step + 1] == choice[..step] + [i];
    PrefixFits(p, base[..step] + [i], choice, step + 1);
    forall c | p.Admissible(c) && c[..step] == base[..step] && c[step] == i
      ensures c[..step + 1] == choice[..step + 1] && p.Fits(choice, step + 1)
    {
      assert c[..step + 1] == c[..step] + [i];
      PrefixFits(p, c, choice, step + 1);
    }
  }

  lemma CostUnfolds(p: Problem, prefix: seq<nat>)
    requires p.DependenciesOk() && |prefix| <= |p.steps|
    ensures Cost(p, prefix) == if |prefix| == |p.steps| then 0 else CostFrom(p, prefix, 0)
  {
  }

  /** A beginning that does not fit has no completion; one more provider is one more step. */
  lemma OneMore(p: Problem, base: seq<nat>, step: nat, i: nat)
    requires p.DependenciesOk() && step < |p.steps| == |base|
    ensures Completable(p, base[..step] + [i]) <==>
              exists c :: p.Admissible(c) && c[..step] == base[..step] && c[step] == i
    ensures p.Fits(base[..step] + [i], step + 1) && i < |p.providers| ==>
              Supports(p.providers[i], p.steps[step], p.reference)
  {
    hide Supports, Possible;
    var here := base[..step] + [i];
    if c :| p.Admissible(c) && here <= c {
      assert c[..step] == here[..step] && c[step] == here[step];
    }
    if c :| p.Admissible(c) && c[..step] == base[..step] && c[step] == i {
      assert c[..step + 1] == c[..step] + [i] == here;
      assert here <= c;
    }
  }

  ghost predicate ModeAt(p: Problem, choice: seq<nat>, modes: seq<Mode>, e: nat)
    requires p.DependenciesOk() && e < |modes| == |p.dependencies|
  {
    var d := p.dependencies[e];
    && d.producer < |choice| && d.consumer < |choice| && choice[d.producer] < |p.providers|
    && choice[d.consumer] < |p.providers|
    && Crosses(p.contracts, d, p.providers[choice[d.producer]], p.providers[choice[d.consumer]], modes[e])
  }

  lemma SameMode(p: Problem, a: seq<nat>, b: seq<nat>, modes: seq<Mode>, modes': seq<Mode>, e: nat, n: nat)
    requires p.DependenciesOk() && e < |modes| == |modes'| == |p.dependencies| && n <= |a| == |b| && a[..n] == b[..n]
    requires p.dependencies[e].consumer < n && modes[e] == modes'[e] && ModeAt(p, a, modes, e)
    ensures ModeAt(p, b, modes', e)
  {
    var d := p.dependencies[e];
    assert d in p.dependencies;
    assert a[d.producer] == a[..n][d.producer] == b[d.producer];
    assert a[d.consumer] == a[..n][d.consumer] == b[d.consumer];
  }

  /** Whether a prefix fits depends on the prefix only. */
  lemma PrefixFits(p: Problem, a: seq<nat>, b: seq<nat>, n: nat)
    requires p.DependenciesOk() && n <= |a| && n <= |b| && a[..n] == b[..n]
    ensures p.Fits(a, n) <==> p.Fits(b, n)
  {
    hide Supports, Possible;
    assert forall s | 0 <= s < n :: a[s] == a[..n][s] && b[s] == b[..n][s];
  }

  /** The order of preference is antisymmetric: the first admissible assignment is one assignment. */
  lemma {:induction false} PreferredOnce(a: seq<nat>, b: seq<nat>, from: nat)
    requires |a| == |b| && from <= |a| && Preferred(a, b, from) && Preferred(b, a, from)
    ensures a[from..] == b[from..]
    decreases |a| - from
  {
    if from < |a| {
      PreferredOnce(a, b, from + 1);
      assert a[from..] == [a[from]] + a[from + 1..] && b[from..] == [b[from]] + b[from + 1..];
    }
  }

  datatype Plan = Plan(status: PlanStatus, providers: seq<nat>, transfers: seq<Mode>, reference: bool, attempts: nat)

  /** The first admissible assignment in order of provider preference. */
  ghost predicate First(p: Problem, choice: seq<nat>)
    requires p.DependenciesOk()
  {
    p.Admissible(choice) && forall c | p.Admissible(c) :: Preferred(choice, c, 0)
  }

  method CheckInput(p: Problem, budget: nat) returns (ok: bool)
    ensures ok <==> p.InputOk(budget)
  {
    hide ValidProvider, Known;
    if p.providers == [] || |p.providers| > MAX_PROVIDERS || p.steps == [] || |p.steps| > MAX_STEPS ||
       |p.dependencies| > MAX_DEPENDENCIES || |p.contracts| > MAX_TRANSFERS || budget == 0 ||
       budget > MAX_ATTEMPTS { return false; }
    for i := 0 to |p.providers|
      invariant forall a | 0 <= a < i :: ValidProvider(p.providers[a])
      invariant forall a, b | 0 <= b < a < i :: p.providers[b].id != p.providers[a].id
    {
      if !ValidProvider(p.providers[i]) { assert p.providers[i] in p.providers; return false; }
      for j := 0 to i
        invariant forall b | 0 <= b < j :: p.providers[b].id != p.providers[i].id
      {
        if p.providers[j].id == p.providers[i].id { return false; }
      }
    }
    for i := 0 to |p.steps|
      invariant forall a | 0 <= a < i :: Known(p.steps[a].required)
    {
      if !Known(p.steps[i].required) { assert p.steps[i] in p.steps; return false; }
    }
    for i := 0 to |p.dependencies|
      invariant forall a | 0 <= a < i ::
                p.dependencies[a].resource != 0 && p.dependencies[a].producer < p.dependencies[a].consumer < |p.steps|
    {
      var d := p.dependencies[i];
      if d.resource == 0 || d.producer >= d.consumer || d.consumer >= |p.steps| {
        assert d in p.dependencies;
        return false;
      }
    }
    return true;
  }

  predicate Supported(p: Problem, s: Step) {
    exists q <- p.providers :: Supports(q, s, p.reference)
  }

  /** The first admissible assignment, with the way every dependency crosses. */
  ghost predicate Routed(p: Problem, plan: Plan, choice: seq<nat>)
    requires p.DependenciesOk()
  {
    && First(p, choice) && |plan.providers| == |p.steps| && |plan.transfers| == |p.dependencies|
    && (forall s | 0 <= s < |p.steps| :: plan.providers[s] == p.providers[choice[s]].id)
    && (forall e | 0 <= e < |p.dependencies| :: ModeAt(p, choice, plan.transfers, e))
  }

  /** What planning gives, for every input and every budget. */
  ghost predicate Outcome(p: Problem, budget: nat, plan: Plan) {
    && plan.attempts <= budget
    && (plan.status == InvalidInput <==> !p.InputOk(budget))
    && (plan.status == UnsupportedFeatures <==> p.InputOk(budget) && exists s <- p.steps :: !Supported(p, s))
    && (p.InputOk(budget) ==> Searched(p, budget, plan))
  }

  ghost predicate Searched(p: Problem, budget: nat, plan: Plan)
    requires p.DependenciesOk()
  {
    match plan.status
    case SearchLimit => plan.attempts == budget < Cost(p, []) <= Effort(|p.providers|, |p.steps|)
    case TransferUnavailable => plan.attempts == Cost(p, []) <= budget && forall c :: !p.Admissible(c)
    case ReadyPlan =>
      plan.attempts == Cost(p, []) <= budget && plan.reference == p.reference && exists choice ::
        Routed(p, plan, choice)
    case _ => true
  }

  /** A larger budget keeps a ready plan, attempts and all. */
  lemma MoreBudget(p: Problem, budget: nat, plan: Plan, budget': nat, plan': Plan)
    requires Outcome(p, budget, plan) && plan.status == ReadyPlan
    requires budget <= budget' <= MAX_ATTEMPTS && Outcome(p, budget', plan')
    ensures plan' == plan
  {
    hide Cost, Effort, Supports, Preferred, ModeAt;
    var choice :| Routed(p, plan, choice);
    assert p.Admissible(choice);
    assert plan'.status == ReadyPlan;
    var choice' :| Routed(p, plan', choice');
    PreferredOnce(choice, choice', 0);
    assert choice[0..] == choice && choice'[0..] == choice';
    assert plan'.providers == plan.providers;
    forall e | 0 <= e < |p.dependencies| ensures plan'.transfers[e] == plan.transfers[e] {
      OneMode(p, choice, plan.transfers, plan'.transfers, e);
    }
  }

  lemma OneMode(p: Problem, choice: seq<nat>, a: seq<Mode>, b: seq<Mode>, e: nat)
    requires p.DependenciesOk() && e < |p.dependencies| == |a| == |b| && ModeAt(p, choice, a, e)
    requires ModeAt(p, choice, b, e)
    ensures a[e] == b[e]
  {
    hide HasContract;
  }

  method PlanWorkload(p: Problem, budget: nat) returns (plan: Plan)
    ensures Outcome(p, budget, plan)
  {
    hide Crosses, Supports, Effort;
    plan := Plan(InvalidInput, [], [], false, 0);
    var valid := CheckInput(p, budget);
    if !valid { return; }
    for i := 0 to |p.steps|
      invariant forall a | 0 <= a < i :: Supported(p, p.steps[a])
    {
      if !Supported(p, p.steps[i]) {
        assert p.steps[i] in p.steps;
        return plan.(status := UnsupportedFeatures);
      }
    }
    plan := FindRoute(p, budget);
  }

  method FindRoute(p: Problem, budget: nat) returns (plan: Plan)
    requires p.InputOk(budget)
    ensures plan.status in {ReadyPlan, TransferUnavailable, SearchLimit} && plan.attempts <= budget
    ensures Searched(p, budget, plan)
  {
    hide Crosses, Supports, Possible, Effort, Preferred, Cost;
    var search := new Search(p, budget);
    NothingChosen(p, search.selected);
    var found := search.Choose(0);
    CostBound(p, []);
    assert search.selected[..0] == [];
    assert forall c | p.Admissible(c) :: c[..0] == search.selected[..0];
    if !found {
      return Plan(if search.limitReached then SearchLimit else TransferUnavailable, [], [], false, search.attempts);
    }
    ghost var choice := search.selected;
    assert First(p, choice);
    forall e | 0 <= e < |p.dependencies| ensures ModeAt(p, choice, search.modes, e) {
      assert p.dependencies[e] in p.dependencies;
    }
    var ids := seq(|p.steps|, s requires 0 <= s < |p.steps| &&
                   p.Admissible(search.selected) reads search => p.providers[search.selected[s]].id);
    plan := Plan(ReadyPlan, ids, search.modes, p.reference, search.attempts);
    assert Routed(p, plan, choice);
  }

  lemma NothingChosen(p: Problem, choice: seq<nat>)
    requires p.DependenciesOk()
    ensures p.Fits(choice, 0)
  {
  }
}
