/**
 MellowXe::SubmissionQueue over the memory bridge: batches in, fences observed, timeouts and
 resets, with every resource held from acceptance to authoritative completion.
 */
module Submission {
  import opened Arithmetic
  import VM = VirtualMemory
  import opened MemoryBridge
  import opened SubmissionModel

  class Queue {
    const bridge: Bridge
    const owner: nat
    const context: nat
    const engine: nat
    /** The transport supplies every callback. */
    const complete: bool
    var jobs: seq<Job>
    var generation: nat
    var lastTime: nat
    var nextSequence: nat
    var lastSubmitted: nat
    var lastObserved: nat
    var exhausted: bool
    var state: QueueState
    ghost var observations: seq<Observation>
    /** What the backend answers, call by call, and the next call. The tape may be any. */
    const tape: nat -> Answer
    var at: nat

    function Who(): Identity {
      Identity(owner, context, engine)
    }

    ghost predicate Counters()
      reads this
    {
      && 0 < generation < U64 && lastObserved <= lastSubmitted < U32
      && (if exhausted then lastSubmitted == U32 - 1 else nextSequence == lastSubmitted + 1 < U32)
      && Monotone(observations, generation, lastObserved) && Genuine(observations, tape, at, Who())
    }

    ghost predicate Valid()
      reads this, bridge, bridge.vm
    {
      && bridge.Valid() && bridge.holds == JobHolds(jobs)
      && JobsOk(jobs, generation, lastSubmitted, observations) && Counters()
    }

    constructor (bridge: Bridge, owner: nat, context: nat, engine: nat, complete: bool, tape: nat -> Answer)
      requires bridge.Valid() && bridge.holds == multiset{}
      ensures this.bridge == bridge && this.owner == owner && Valid() && state == Inactive && this.tape == tape
      ensures jobs == seq(MAX_JOBS, _ => NO_JOB)
    {
      this.bridge, this.owner, this.context, this.engine, this.complete := bridge, owner, context, engine, complete;
      this.tape, at := tape, 0;
      jobs := seq(MAX_JOBS, _ => NO_JOB);
      generation, lastTime, nextSequence, lastSubmitted, lastObserved, exhausted, state :=
        1, 0, 1, 0, 0, false, Inactive;
      observations := [];
      new;
      HoldsEmpty(MAX_JOBS);
    }

    /** `firmware` is whether the release is a supported one with its code and key sizes known. */
    method Activate(firmware: bool) returns (error: Error)
      requires Valid()
      modifies this`state, this`at
      ensures Valid()
      ensures state == if error == NoError then Ready else old(state)
      ensures error ==
                if !complete then UnsupportedBackend
                else if owner == 0 || context == 0 || old(state) != Inactive then NotReady
                else if !firmware then InvalidArgument
                else if bridge.faulted then NotReady
                else var a := At(tape, old(at));
                  if a.readiness != NoError then a.readiness
                  else if !Prepared(a.ready, generation, Who()) then NotReady else NoError
    {
      hide HoldsOk, JobsOk, JobHolds, Monotone, Genuine, Bridge.Valid;
      if !complete { return UnsupportedBackend; }
      if owner == 0 || context == 0 || state != Inactive { return NotReady; }
      if !firmware { return InvalidArgument; }
      if bridge.faulted { return NotReady; }
      var answer := Backend();
      if answer.readiness != NoError { return answer.readiness; }
      if !Prepared(answer.ready, generation, Who()) { return NotReady; }
      state := Ready;
      return NoError;
    }

    /** The backend's next answer. */
    method Backend() returns (answer: Answer)
      requires Counters()
      modifies this`at
      ensures Counters() && at == old(at) + 1 && answer == At(tape, old(at))
      ensures Genuine(observations, tape, old(at), Who())
    {
      hide At, Monotone, Genuine;
      GenuineLater(observations, tape, at, Who());
      answer := At(tape, at);
      at := at + 1;
    }

    /** The clock may only go forward. */
    method Tick(now: nat) returns (ok: bool)
      modifies this`lastTime
      ensures ok <==> old(lastTime) <= now
      ensures lastTime == if ok then now else old(lastTime)
    {
      if now < lastTime { return false; }
      lastTime := now;
      return true;
    }

    // ---------------------------------------------------------------- holds

    /** Gives back the first `n` of a list of resources that are held on top of `rest`. */
    method GiveBack(resources: seq<Resource>, n: nat, ghost rest: multiset<Resource>)
      requires bridge.Valid() && n <= |resources| && bridge.holds == rest + multiset(resources[..n])
      modifies bridge, bridge.vm`slots
      ensures bridge.Valid() && bridge.holds == rest && UsesOnly(old(bridge.vm.slots), bridge.vm.slots)
    {
      hide Bridge.Valid;
      var k := n;
      while k > 0
        invariant 0 <= k <= n && bridge.Valid() && bridge.holds == rest + multiset(resources[..k])
        invariant UsesOnly(old(bridge.vm.slots), bridge.vm.slots)
      {
        assert resources[..k] == resources[..k - 1] + [resources[k - 1]];
        k := k - 1;
        bridge.Release(resources[k]);
      }
    }

    /** The first `n` resources are held on top of `rest`; `slots` is the table before that. */
    ghost predicate Holding(resources: seq<Resource>, n: nat, rest: multiset<Resource>, slots: seq<VM.Allocation>)
      requires n <= |resources|
      reads bridge, bridge.vm
    {
      && bridge.Valid() && bridge.holds == rest + multiset(resources[..n]) && UsesOnly(slots, bridge.vm.slots)
      && Elsewhere(slots, bridge.vm.slots, resources, n)
      && forall i | 0 <= i < n :: Takeable(bridge.vm.ready, slots, resources[i])
    }

    method TakeNext(resources: seq<Resource>, n: nat, ghost rest: multiset<Resource>, ghost slots: seq<VM.Allocation>)
      returns (ok: bool)
      requires n < |resources| && DistinctIds(resources) && Holding(resources, n, rest, slots)
      modifies bridge`holds, bridge.vm`slots
      ensures Holding(resources, if ok then n + 1 else n, rest, slots)
      ensures ok <==> Takeable(bridge.vm.ready, slots, resources[n])
    {
      hide Bridge.Valid, VM.VirtualMemory.Valid, Takeable, Elsewhere, UsesOnly;
      ghost var before := bridge.vm.slots;
      SameSlot(bridge.vm.ready, slots, before, resources, n);
      ok := bridge.Retain(resources[n]);
      UsesOnlyTransitive(slots, before, bridge.vm.slots);
      if ok {
        assert resources[..n + 1] == resources[..n] + [resources[n]];
        ElsewhereStep(slots, before, bridge.vm.slots, resources, n);
      }
    }

    /** All or nothing. */
    method TakeAll(resources: seq<Resource>) returns (ok: bool)
      requires bridge.Valid() && DistinctIds(resources)
      modifies bridge, bridge.vm`slots
      ensures bridge.Valid() && UsesOnly(old(bridge.vm.slots), bridge.vm.slots)
      ensures bridge.holds == if ok then old(bridge.holds) + multiset(resources) else old(bridge.holds)
      ensures ok <==> forall r <- resources :: Takeable(bridge.vm.ready, old(bridge.vm.slots), r)
    {
      hide Bridge.Valid, VM.VirtualMemory.Valid, Takeable, Elsewhere;
      Untouched(bridge.vm.slots, resources);
      var n := 0;
      while n < |resources|
        invariant 0 <= n <= |resources| && Holding(resources, n, old(bridge.holds), old(bridge.vm.slots))
      {
        var retained := TakeNext(resources, n, old(bridge.holds), old(bridge.vm.slots));
        if !retained {
          assert resources[n] in resources;
          ghost var before := bridge.vm.slots;
          GiveBack(resources, n, old(bridge.holds));
          UsesOnlyTransitive(old(bridge.vm.slots), before, bridge.vm.slots);
          return false;
        }
        n := n + 1;
      }
      assert resources[..n] == resources;
      return true;
    }

    /** Ends a job's hold and sets its state. */
    method Finish(i: nat, s: JobState)
      requires Valid() && i < |jobs| && jobs[i].state != JFree && s != JFree
      requires JobStep(jobs[i], jobs[i].(state := s, held := false))
      requires JobOk(jobs[i].(state := s, held := false), generation, lastSubmitted, observations)
      modifies this`jobs, bridge, bridge.vm`slots
      ensures Valid() && jobs == old(jobs)[i := old(jobs)[i].(state := s, held := false)]
      ensures UsesOnly(old(bridge.vm.slots), bridge.vm.slots)
      ensures Develops(old(jobs), jobs, generation, lastSubmitted)
    {
      hide HoldsOk, JobsOk, JobOk, JobStep, Develops, JobHolds, Monotone, Genuine;
      JobChange(jobs, generation, lastSubmitted, observations, i, jobs[i].(state := s, held := false));
      HoldsUpdate(jobs, i, jobs[i].(state := s, held := false));
      DropHolds(i);
      jobs := jobs[i := jobs[i].(state := s, held := false)];
    }

    method DropHolds(i: nat)
      requires bridge.Valid() && i < |jobs| && bridge.holds == JobHolds(jobs)
      modifies bridge, bridge.vm`slots
      ensures bridge.Valid() && bridge.holds == JobHolds(jobs) - HeldBy(jobs[i])
      ensures UsesOnly(old(bridge.vm.slots), bridge.vm.slots)
    {
      hide HoldsOk, JobHolds;
      var job := jobs[i];
      HoldsUpdate(jobs, i, job);
      if job.held {
        assert job.resources[..|job.resources|] == job.resources;
        GiveBack(job.resources, |job.resources|, bridge.holds - HeldBy(job));
      }
    }

    // ---------------------------------------------------------------- submission

    static method ValidateBatch(words: seq<nat>) returns (error: Error)
      ensures error == NoError <==> BootstrapBatch(words)
      ensures error == InvalidArgument <==> words == [] || |words| > MAX_WORDS
      ensures error in {NoError, InvalidArgument, InvalidCommand}
    {
      if words == [] || |words| > MAX_WORDS { return InvalidArgument; }
      for i := 0 to |words|
        invariant forall j | 0 <= j < i :: words[j] == 0
      {
        if words[i] == BATCH_END { return if i == |words| - 1 then NoError else InvalidCommand; }
        if words[i] != 0 { return InvalidCommand; }
      }
      return InvalidCommand;
    }

    /** The first resource with a fault decides the error. */
    method CheckResources(resources: seq<Resource>) returns (error: Error)
      ensures error == ListFault(owner, resources, |resources|)
      ensures error in {NoError, Ownership, InvalidMapping, InvalidArgument}
      ensures error == NoError <==>
                (forall r <- resources :: r.id != 0 && r.owner == owner && ResourceOk(r)) && DistinctIds(resources)
    {
      hide ResourceOk;
      NoFault(owner, resources);
      for i := 0 to |resources|
        invariant ListFault(owner, resources, i) == NoError
      {
        if ListFault(owner, resources, i + 1) != NoError { FaultStays(owner, resources, i + 1); }
        var r := resources[i];
        if r.id == 0 || r.owner != owner { return Ownership; }
        if !ResourceOk(r) { return InvalidMapping; }
        for j := 0 to i
          invariant forall k | 0 <= k < j :: resources[k].id != r.id
        {
          if resources[j].id == r.id { return InvalidArgument; }
        }
      }
      return NoError;
    }

    method FreeJob() returns (i: nat)
      ensures i <= |jobs| && (i < |jobs| ==> jobs[i].state == JFree)
      ensures forall j | 0 <= j < i :: jobs[j].state != JFree
    {
      for n := 0 to |jobs|
        invariant forall j | 0 <= j < n :: jobs[j].state != JFree
      {
        if jobs[n].state == JFree { return n; }
      }
      return |jobs|;
    }

    /** A free entry is overwritten with another free one. */
    method Blank(i: nat, job: Job)
      requires Valid() && i < |jobs| && jobs[i].state == JFree && job.state == JFree && !job.held
      modifies this`jobs
      ensures Valid() && jobs == old(jobs)[i := job] && Develops(old(jobs), jobs, generation, lastSubmitted)
    {
      hide HoldsOk, JobsOk, JobStep, Develops, JobHolds, Monotone, Genuine;
      assert JobOk(job, generation, lastSubmitted, observations);
      assert !jobs[i].held by { FreeNotHeld(jobs, generation, lastSubmitted, observations, i); }
      JobChange(jobs, generation, lastSubmitted, observations, i, job);
      HoldsUpdate(jobs, i, job);
      jobs := jobs[i := job];
    }

    /** The held job gets the next token. */
    method Commit(i: nat, s: JobState, deadline: nat, resources: seq<Resource>) returns (token: Token)
      requires bridge.Valid() && bridge.holds == JobHolds(jobs) + multiset(resources)
      requires JobsOk(jobs, generation, lastSubmitted, observations) && Counters()
      requires i < |jobs| && jobs[i] == NO_JOB && !exhausted && DistinctIds(resources) && s in {JSubmitted, JUnknown}
      modifies this`jobs, this`lastSubmitted, this`nextSequence, this`exhausted
      ensures Valid() && Develops(old(jobs), jobs, generation, old(lastSubmitted))
      ensures token == Token(generation, old(lastSubmitted) + 1) && lastSubmitted == old(lastSubmitted) + 1
      ensures jobs == old(jobs)[i := Job(s, true, token, deadline, resources)]
    {
      hide HoldsOk, JobsOk, Develops, JobHolds, Monotone, Genuine;
      token := Token(generation, nextSequence);
      var job := Job(s, true, token, deadline, resources);
      HoldsUpdate(jobs, i, job);
      JobIssue(jobs, generation, lastSubmitted, observations, i, job);
      jobs := jobs[i := job];
      lastSubmitted := nextSequence;
      if nextSequence == U32 - 1 { exhausted := true; } else { nextSequence := nextSequence + 1; }
    }

    /** Holds everything, offers the batch to the transport, and issues the token unless it was rejected. */
    method Offer(i: nat, words: seq<nat>, deadline: nat, resources: seq<Resource>)
      returns (error: Error, token: Token)
      requires Valid() && i < |jobs| && jobs[i] == NO_JOB && !exhausted && DistinctIds(resources) && state == Ready
      modifies this`jobs, this`lastSubmitted, this`nextSequence, this`exhausted, this`state, this`at
      modifies bridge, bridge.vm`slots
      ensures Valid() && Develops(old(jobs), jobs, generation, old(lastSubmitted))
      ensures UsesOnly(old(bridge.vm.slots), bridge.vm.slots)
      ensures error == if exists r <- resources :: !Takeable(bridge.vm.ready, old(bridge.vm.slots), r) then ResourceBusy
                       else Verdict(Decision(tape, old(at), Snapshot(old(lastSubmitted), deadline, words, resources)))
      ensures at == if error == ResourceBusy then old(at) else old(at) + 1
      ensures Effect(old(jobs), old(lastSubmitted), i, deadline, resources, error, token)
      ensures state == if error == AcceptanceUnknown then NeedsReset else Ready
    {
      hide HoldsOk, JobsOk, JobHolds, Monotone, Genuine, UsesOnly, Takeable, Decision;
      token := Token(0, 0);
      DevelopsSelf(jobs, generation, lastSubmitted);
      var retained := TakeAll(resources);
      if !retained { return ResourceBusy, token; }
      ghost var before := bridge.vm.slots;
      error, token := Present(i, words, deadline, resources);
      UsesOnlyTransitive(old(bridge.vm.slots), before, bridge.vm.slots);
    }

    /** The batch that comes after sequence `last`. */
    function Snapshot(last: nat, deadline: nat, words: seq<nat>, resources: seq<Resource>): Batch
      reads this`generation
    {
      Batch(Token(generation, last + 1), Who(), deadline, words, resources)
    }

    /** Everything is held; the transport decides. A refusal gives everything back. */
    method Present(i: nat, words: seq<nat>, deadline: nat, resources: seq<Resource>)
      returns (error: Error, token: Token)
      requires bridge.Valid() && bridge.holds == JobHolds(jobs) + multiset(resources)
      requires JobsOk(jobs, generation, lastSubmitted, observations) && Counters() && state == Ready
      requires i < |jobs| && jobs[i] == NO_JOB && !exhausted && DistinctIds(resources)
      modifies this`jobs, this`lastSubmitted, this`nextSequence, this`exhausted, this`state, this`at
      modifies bridge, bridge.vm`slots
      ensures Valid() && Develops(old(jobs), jobs, generation, old(lastSubmitted))
      ensures UsesOnly(old(bridge.vm.slots), bridge.vm.slots)
      ensures error == Verdict(Decision(tape, old(at), Snapshot(old(lastSubmitted), deadline, words, resources)))
      ensures at == old(at) + 1
      ensures Effect(old(jobs), old(lastSubmitted), i, deadline, resources, error, token)
      ensures state == if error == AcceptanceUnknown then NeedsReset else Ready
    {
      hide At, HoldsOk, JobsOk, JobHolds, Monotone, Genuine, Develops, Decision;
      token := Token(0, 0);
      DevelopsSelf(jobs, generation, lastSubmitted);
      var accepted := Refused;
      if !bridge.faulted {
        var batch := Batch(Token(generation, nextSequence), Who(), deadline, words, resources);
        accepted := Decision(tape, at, batch);
        var _ := Backend();
      }
      if accepted == Refused {
        assert resources[..|resources|] == resources;
        GiveBack(resources, |resources|, JobHolds(jobs));
        return Rejected, token;
      }
      token := Commit(i, if accepted == Accepted then JSubmitted else JUnknown, deadline, resources);
      if accepted != Accepted {
        state := NeedsReset;
        return AcceptanceUnknown, token;
      }
      return NoError, token;
    }

    /** Accepted, or possibly accepted: one new held job under the next token. Otherwise the
        table is as it was. */
    ghost predicate Effect(jobs': seq<Job>, last': nat, i: nat, deadline: nat, resources: seq<Resource>, error: Error,
                           token: Token)
      reads this
    {
      if error == NoError || error == AcceptanceUnknown then
        && token == Token(generation, last' + 1) && lastSubmitted == last' + 1 && i < |jobs'| && jobs'[i].state == JFree
        && jobs == jobs'[i := Job(if error == NoError then JSubmitted else JUnknown, true, token, deadline, resources)]
      else
        token == Token(0, 0) && lastSubmitted == last' && jobs == jobs'
    }

    predicate Sound(words: seq<nat>, resources: seq<Resource>) {
      BootstrapBatch(words) && (forall r <- resources :: r.id != 0 && r.owner == owner && ResourceOk(r)) &&
      DistinctIds(resources)
    }

    /** Freezes the caller's arguments in the job, checks the copy and offers it. */
    method Take(i: nat, words: seq<nat>, deadline: nat, resources: seq<Resource>) returns (error: Error, token: Token)
      requires Valid() && i < |jobs| && jobs[i].state == JFree && !exhausted && state == Ready
      modifies this`jobs, this`lastSubmitted, this`nextSequence, this`exhausted, this`state, this`at
      modifies bridge, bridge.vm`slots
      ensures Valid() && Develops(old(jobs), jobs, generation, old(lastSubmitted))
      ensures UsesOnly(old(bridge.vm.slots), bridge.vm.slots)
      ensures error in {NoError, AcceptanceUnknown} ==>
                Effect(old(jobs), old(lastSubmitted), i, deadline, resources, error, token)
      ensures error !in {NoError, AcceptanceUnknown} ==>
                token == Token(0, 0) && lastSubmitted == old(lastSubmitted) && bridge.holds == old(bridge.holds)
      ensures state == if error == AcceptanceUnknown then NeedsReset else Ready
      ensures if !Sound(words, resources) then error == BatchFault(owner, words, resources)
              else if exists r <- resources :: !Takeable(bridge.vm.ready, old(bridge.vm.slots), r)
              then error == ResourceBusy
              else error == Verdict(Decision(tape, old(at), Snapshot(old(lastSubmitted), deadline, words, resources)))
    {
      hide HoldsOk, JobsOk, Develops, JobHolds, Monotone, Genuine, BootstrapBatch, ResourceOk, Takeable, Decision;
      token := Token(0, 0);
      Blank(i, Job(JFree, false, Token(generation, nextSequence), deadline, resources));
      error := ValidateBatch(words);
      if error != NoError { return; }
      error := CheckResources(resources);
      if error != NoError { return; }
      error, token := Launch(i, words, deadline, resources, old(jobs));
    }

    /** Why a batch is not taken: what the arguments and the state decide, and then the transport's answer. */
    ghost predicate Reason(error: Error, words: seq<nat>, resources: seq<Resource>, now: nat, deadline: nat,
                           lastTime': nat, state': QueueState, exhausted': bool, jobs': seq<Job>,
                             slots': seq<VM.Allocation>, at': nat, last': nat)
      reads this, bridge, bridge.vm
    {
      var fits := deadline > now && 0 < |resources| <= MAX_RESOURCES && 0 < |words| <= MAX_WORDS;
      if !complete then error == UnsupportedBackend
      else if state' != Ready then error == NotReady
      else if now < lastTime' then error == ClockRegression
      else if !fits then error == InvalidArgument
      else if exhausted' then error == SequenceExhausted
      else if forall job <- jobs' :: job.state != JFree then error == Capacity
      else if !Sound(words, resources) then error == BatchFault(owner, words, resources)
      else if exists r <- resources :: !Takeable(bridge.vm.ready, slots', r) then error == ResourceBusy
      else error == Verdict(Decision(tape, at', Snapshot(last', deadline, words, resources)))
    }

    method Submit(words: seq<nat>, resources: seq<Resource>, now: nat, deadline: nat)
      returns (error: Error, token: Token)
      requires Valid()
      modifies this, bridge, bridge.vm`slots
      ensures Valid() && Develops(old(jobs), jobs, old(generation), old(lastSubmitted))
      ensures generation == old(generation) && UsesOnly(old(bridge.vm.slots), bridge.vm.slots)
      ensures error in {NoError, AcceptanceUnknown} ==>
                exists i :: Effect(old(jobs), old(lastSubmitted), i, deadline, resources, error, token)
      ensures error !in {NoError, AcceptanceUnknown} ==>
                token == Token(0, 0) && lastSubmitted == old(lastSubmitted) && bridge.holds == old(bridge.holds)
      ensures error in {NoError, AcceptanceUnknown} ==>
                BootstrapBatch(words) && 0 < |resources| <= MAX_RESOURCES && deadline > now && old(state) == Ready
      ensures state == if error == AcceptanceUnknown then NeedsReset else old(state)
      ensures Reason(error, words, resources, now, deadline, old(lastTime), old(state), old(exhausted), old(jobs),
                     old(bridge.vm.slots), old(at), old(lastSubmitted))
    {
      hide HoldsOk, JobsOk, Develops, JobHolds, Monotone, Genuine, BootstrapBatch, ResourceOk, Takeable, Effect;
      hide Decision;
      token := Token(0, 0);
      DevelopsSelf(jobs, generation, lastSubmitted);
      if !complete { return UnsupportedBackend, token; }
      if state != Ready { return NotReady, token; }
      var ticked := Tick(now);
      if !ticked { return ClockRegression, token; }
      if deadline <= now || resources == [] || |resources| > MAX_RESOURCES || words == [] || |words| > MAX_WORDS {
        return InvalidArgument, token;
      }
      if exhausted { return SequenceExhausted, token; }
      var i := FreeJob();
      if i == |jobs| { return Capacity, token; }
      assert jobs[i] in jobs;
      error, token := Take(i, words, deadline, resources);
    }

    method Launch(i: nat, words: seq<nat>, deadline: nat, resources: seq<Resource>, ghost before: seq<Job>)
      returns (error: Error, token: Token)
      requires Valid() && i < |jobs| && jobs[i].state == JFree && !exhausted && DistinctIds(resources) && state == Ready
      requires |before| == |jobs| && before[i].state == JFree && jobs == before[i := jobs[i]]
      requires Develops(before, jobs, generation, lastSubmitted)
      modifies this`jobs, this`lastSubmitted, this`nextSequence, this`exhausted, this`state, this`at
      modifies bridge, bridge.vm`slots
      ensures Valid() && Develops(before, jobs, generation, old(lastSubmitted))
      ensures UsesOnly(old(bridge.vm.slots), bridge.vm.slots)
      ensures error == if exists r <- resources :: !Takeable(bridge.vm.ready, old(bridge.vm.slots), r) then ResourceBusy
                       else Verdict(Decision(tape, old(at), Snapshot(old(lastSubmitted), deadline, words, resources)))
      ensures at == if error == ResourceBusy then old(at) else old(at) + 1
      ensures error in {NoError, AcceptanceUnknown} ==>
                Effect(before, old(lastSubmitted), i, deadline, resources, error, token)
      ensures error !in {NoError, AcceptanceUnknown} ==>
                token == Token(0, 0) && lastSubmitted == old(lastSubmitted) && bridge.holds == old(bridge.holds)
      ensures state == if error == AcceptanceUnknown then NeedsReset else Ready
    {
      hide HoldsOk, JobsOk, Develops, JobHolds, Monotone, Genuine;
      ghost var last, staged := lastSubmitted, jobs;
      FreeNotHeld(jobs, generation, lastSubmitted, observations, i);
      SameHolds(jobs, jobs[i := NO_JOB], i);
      Blank(i, NO_JOB);
      ghost var blank := jobs;
      error, token := Offer(i, words, deadline, resources);
      DevelopsTransitive(before, staged, blank, generation, last, generation, last);
      DevelopsTransitive(before, blank, jobs, generation, last, generation, last);
    }

    // ---------------------------------------------------------------- time and completion

    /** One job passes its deadline; its resources stay held. */
    method TimeOut(i: nat)
      requires Valid() && i < |jobs| && jobs[i].state == JSubmitted
      modifies this`jobs
      ensures Valid() && jobs == old(jobs)[i := old(jobs)[i].(state := JTimedOut)]
      ensures Develops(old(jobs), jobs, generation, lastSubmitted)
    {
      hide HoldsOk, Develops, JobHolds, Monotone, Genuine, Covered;
      var job := jobs[i].(state := JTimedOut);
      assert JobOk(jobs[i], generation, lastSubmitted, observations);
      JobChange(jobs, generation, lastSubmitted, observations, i, job);
      HoldsUpdate(jobs, i, job);
      jobs := jobs[i := job];
    }

    method Expire(now: nat) returns (error: Error)
      requires Valid()
      modifies this`jobs, this`lastTime, this`state
      ensures Valid() && Develops(old(jobs), jobs, generation, lastSubmitted) && bridge.holds == old(bridge.holds)
      ensures error == if now < old(lastTime) then ClockRegression else NoError
      ensures |jobs| == |old(jobs)|
      ensures error == NoError ==> forall i | 0 <= i < |jobs| :: jobs[i] == Aged(old(jobs)[i], now)
      ensures error != NoError ==> jobs == old(jobs) && state == old(state)
      ensures error == NoError && (exists i | 0 <= i < |jobs| :: Overdue(old(jobs)[i], now)) ==> state == NeedsReset
      ensures state != old(state) ==> state == NeedsReset
    {
      hide HoldsOk, JobsOk, Develops, JobHolds, Monotone, Genuine;
      DevelopsSelf(jobs, generation, lastSubmitted);
      var ticked := Tick(now);
      if !ticked { return ClockRegression; }
      for i := 0 to |jobs|
        invariant Valid() && |jobs| == |old(jobs)| && Develops(old(jobs), jobs, generation, lastSubmitted)
        invariant forall j | 0 <= j < i :: jobs[j] == Aged(old(jobs)[j], now)
        invariant forall j | i <= j < |jobs| :: jobs[j] == old(jobs)[j]
        invariant if exists j | 0 <= j < i :: Overdue(old(jobs)[j], now) then state == NeedsReset
                  else state == old(state)
        modifies this`jobs, this`state
      {
        if Overdue(jobs[i], now) {
          ghost var before := jobs;
          TimeOut(i);
          DevelopsTransitive(old(jobs), before, jobs, generation, lastSubmitted, generation, lastSubmitted);
          state := NeedsReset;
        }
      }
      return NoError;
    }

    /** A fence reading that belongs to this generation, does not go back and does not pass the last submission. */
    method Observe(now: nat, sequence: nat)
      requires Valid() && lastObserved <= sequence <= lastSubmitted && 0 < at
      requires Genuine(observations, tape, at - 1, Who())
      requires Reported(tape, Observation(generation, sequence, lastSubmitted, now, at - 1), Who())
      modifies this`observations, this`lastObserved
      ensures Valid() && lastObserved == sequence
      ensures observations == old(observations) + [Observation(generation, sequence, lastSubmitted, now, at - 1)]
    {
      hide HoldsOk, JobsOk, JobHolds, Monotone, Genuine, Reported;
      var o := Observation(generation, sequence, lastSubmitted, now, at - 1);
      GenuineGrows(observations, tape, at - 1, Who(), o);
      MoreEvidence(jobs, generation, lastSubmitted, observations, o);
      MonotoneGrows(observations, generation, lastObserved, o);
      observations := observations + [o];
      lastObserved := sequence;
    }

    /** Completes or releases every job the observed fence has passed. */
    method Settle(now: nat)
      requires Valid() && observations != []
      requires Latest(observations[|observations| - 1], generation, lastObserved, now)
      requires forall i | 0 <= i < |jobs| :: !Overdue(jobs[i], now)
      modifies this`jobs, bridge, bridge.vm`slots
      ensures Valid() && Develops(old(jobs), jobs, generation, lastSubmitted) && |jobs| == |old(jobs)|
      ensures UsesOnly(old(bridge.vm.slots), bridge.vm.slots)
      ensures forall i | 0 <= i < |jobs| :: jobs[i] == Settled(old(jobs)[i], generation, lastObserved)
    {
      hide HoldsOk, JobsOk, Develops, JobHolds, Monotone, Genuine;
      DevelopsSelf(jobs, generation, lastSubmitted);
      for i := 0 to |jobs|
        invariant Valid() && |jobs| == |old(jobs)| && Develops(old(jobs), jobs, generation, lastSubmitted)
        invariant UsesOnly(old(bridge.vm.slots), bridge.vm.slots)
        invariant forall j | 0 <= j < i :: jobs[j] == Settled(old(jobs)[j], generation, lastObserved)
        invariant forall j | i <= j < |jobs| :: jobs[j] == old(jobs)[j]
        modifies this`jobs, bridge, bridge.vm`slots
      {
        var job := jobs[i];
        if job.token.generation == generation && job.token.sequence <= lastObserved &&
           job.state in {JSubmitted, JTimedOut, JUnknown} {
          ghost var before := jobs;
          assert !Overdue(job, now);
          SettledOk(jobs, generation, lastSubmitted, observations, i, now, lastObserved);
          Finish(i, if job.state == JSubmitted then JCompleted else job.state);
          DevelopsTransitive(old(jobs), before, jobs, generation, lastSubmitted, generation, lastSubmitted);
        }
      }
    }

    /** How an interrupt ends: by the state, or by the one reading taken. */
    function InterruptError(gen: nat, now: nat, state': QueueState, lastTime': nat, lastObserved': nat, a: Answer)
      : Error
      reads this`generation, this`lastSubmitted
    {
      if gen != generation then StaleGeneration
      else if !complete then UnsupportedBackend
      else if state' == Inactive then NotReady
      else if now < lastTime' then ClockRegression
      else if a.read != NoError then a.read
      else if OwnReading(a.fence, generation, Who()) && lastObserved' <= a.fence.sequence <= lastSubmitted then NoError
      else InvalidObservation
    }

    method OnInterrupt(gen: nat, now: nat) returns (error: Error)
      requires Valid()
      modifies this, bridge, bridge.vm`slots
      ensures Valid() && Develops(old(jobs), jobs, generation, lastSubmitted)
      ensures UsesOnly(old(bridge.vm.slots), bridge.vm.slots)
      ensures generation == old(generation) && lastSubmitted == old(lastSubmitted)
      ensures error == InterruptError(gen, now, old(state), old(lastTime), old(lastObserved), At(tape, old(at)))
      ensures gen != generation ==> jobs == old(jobs)
      ensures at == if complete && gen == generation && old(state) != Inactive && old(lastTime) <= now then old(at) + 1
                    else old(at)
      ensures error == NoError ==>
                lastObserved == At(tape, old(at)).fence.sequence && old(lastObserved) <= lastObserved <= lastSubmitted
      ensures observations ==
                if error == NoError
                then old(observations) + [Observation(generation, lastObserved, lastSubmitted, now, old(at))]
                else old(observations)
      ensures error == NoError ==>
                forall i | 0 <= i < |jobs| && jobs[i].state == JSubmitted ::
                  jobs[i].token.sequence > lastObserved && now < jobs[i].deadline
      ensures error != NoError ==> lastObserved == old(lastObserved)
      ensures |jobs| == |old(jobs)|
      ensures (error == NoError ==>
                 forall i | 0 <= i < |jobs| :: jobs[i] == Settled(Aged(old(jobs)[i], now), generation, lastObserved))
      ensures error == NoError ==>
                forall i | 0 <= i < |jobs| && old(jobs)[i].held ::
                  jobs[i].held <==> !Reached(jobs[i], generation, lastObserved)
      ensures state != old(state) ==> state == NeedsReset
    {
      hide At, HoldsOk, JobsOk, Develops, JobHolds, Monotone, Genuine, JobOk, OwnReading, Reached;
      DevelopsSelf(jobs, generation, lastSubmitted);
      if gen != generation { return StaleGeneration; }
      if !complete { return UnsupportedBackend; }
      if state == Inactive { return NotReady; }
      error := Expire(now);
      if error != NoError { return; }
      var answer := Backend();
      if answer.read != NoError { return answer.read; }
      if !OwnReading(answer.fence, generation, Who()) || answer.fence.sequence < lastObserved ||
         answer.fence.sequence > lastSubmitted {
        return InvalidObservation;
      }
      ghost var before := jobs;
      Observe(now, answer.fence.sequence);
      Settle(now);
      DevelopsTransitive(old(jobs), before, jobs, generation, lastSubmitted, generation, lastSubmitted);
      forall i | 0 <= i < |jobs| && jobs[i].state == JSubmitted
        ensures jobs[i].token.sequence > lastObserved && now < jobs[i].deadline
      {
        SubmittedToken(jobs, generation, lastSubmitted, observations, i);
      }
      HoldsEnd(old(jobs), jobs, generation, lastSubmitted, old(observations), now, lastObserved);
    }

    // ---------------------------------------------------------------- reset and query

    /** Every unfinished job becomes Reset, and every hold ends. */
    method ReleaseAll()
      requires Valid()
      modifies this`jobs, bridge, bridge.vm`slots
      ensures Valid() && Develops(old(jobs), jobs, generation, lastSubmitted) && |jobs| == |old(jobs)|
      ensures UsesOnly(old(bridge.vm.slots), bridge.vm.slots)
      ensures forall i | 0 <= i < |jobs| :: jobs[i] == AfterReset(old(jobs)[i])
    {
      hide HoldsOk, JobsOk, Develops, JobHolds, Monotone, Genuine, JobOk, JobStep;
      DevelopsSelf(jobs, generation, lastSubmitted);
      for i := 0 to |jobs|
        invariant Valid() && |jobs| == |old(jobs)| && Develops(old(jobs), jobs, generation, lastSubmitted)
        invariant UsesOnly(old(bridge.vm.slots), bridge.vm.slots)
        invariant forall j | 0 <= j < i :: jobs[j] == AfterReset(old(jobs)[j])
        invariant forall j | i <= j < |jobs| :: jobs[j] == old(jobs)[j]
        modifies this`jobs, bridge, bridge.vm`slots
      {
        ResetOk(jobs, generation, lastSubmitted, observations, i);
        if jobs[i].state != JFree {
          ghost var before := jobs;
          Finish(i, AfterReset(jobs[i]).state);
          DevelopsTransitive(old(jobs), before, jobs, generation, lastSubmitted, generation, lastSubmitted);
        }
      }
    }

    method Reset(now: nat) returns (error: Error)
      requires Valid()
      modifies this, bridge, bridge.vm`slots
      ensures Valid() && Develops(old(jobs), jobs, old(generation), old(lastSubmitted)) && |jobs| == |old(jobs)|
      ensures UsesOnly(old(bridge.vm.slots), bridge.vm.slots)
      ensures error == NoError ==> generation == old(generation) + 1 && lastSubmitted == 0 && state == Inactive
      ensures error == NoError ==>
                bridge.holds == multiset{} && forall i | 0 <= i < |jobs| ::
                  !jobs[i].held && jobs[i] == AfterReset(old(jobs)[i])
      ensures error == NoError ==>
                forall i | 0 <= i < |jobs| ::
                  if old(jobs)[i].state in {JSubmitted, JUnknown} then jobs[i].state == JReset
                  else jobs[i].state == old(jobs)[i].state
      ensures error != NoError ==>
                generation == old(generation) && lastSubmitted == old(lastSubmitted) && jobs == old(jobs)
      ensures error in {SequenceExhausted, QuiesceFailed} ==> state == NeedsReset
      ensures error == if !complete then UnsupportedBackend
                       else if now < old(lastTime) then ClockRegression
                       else if old(generation) == U64 - 1 then SequenceExhausted
                       else if !At(tape, old(at)).quiesced then QuiesceFailed
                       else NoError
    {
      hide HoldsOk, JobsOk, Develops, JobHolds, Monotone, Genuine;
      DevelopsSelf(jobs, generation, lastSubmitted);
      if !complete { return UnsupportedBackend; }
      var ticked := Tick(now);
      if !ticked { return ClockRegression; }
      state := NeedsReset;
      if generation == U64 - 1 { return SequenceExhausted; }
      var answer := Backend();
      if !answer.quiesced { return QuiesceFailed; }
      Restart();
      return NoError;
    }

    /** The queue is quiet: nothing is held any more, and a new generation begins. */
    method Restart()
      requires Valid() && generation < U64 - 1
      modifies this`jobs, this`generation, this`nextSequence, this`lastSubmitted, this`lastObserved, this`exhausted
      modifies this`state, bridge, bridge.vm`slots
      ensures Valid() && Develops(old(jobs), jobs, old(generation), old(lastSubmitted)) && |jobs| == |old(jobs)|
      ensures UsesOnly(old(bridge.vm.slots), bridge.vm.slots)
      ensures generation == old(generation) + 1 && lastSubmitted == 0 && state == Inactive && bridge.holds == multiset{}
      ensures forall i | 0 <= i < |jobs| :: jobs[i] == AfterReset(old(jobs)[i])
    {
      hide HoldsOk, JobsOk, Develops, JobHolds, Monotone, Genuine;
      ReleaseAll();
      NextGeneration(jobs, generation, lastSubmitted, observations);
      MonotoneNext(observations, generation, lastObserved);
      NoneHeld(jobs);
      generation := generation + 1;
      nextSequence, lastSubmitted, lastObserved, exhausted, state := 1, 0, 0, false, Inactive;
    }

    function Find(token: Token): (i: nat)
      reads this
      ensures i <= |jobs|
      ensures i < |jobs| ==> jobs[i].state != JFree && jobs[i].token == token
      ensures i == |jobs| ==> forall j | 0 <= j < |jobs| :: jobs[j].state == JFree || jobs[j].token != token
    {
      FindFrom(jobs, token, 0)
    }

    method Query(token: Token) returns (error: Error, s: JobState, held: bool)
      requires Valid()
      ensures error == if Find(token) == |jobs| then StaleGeneration else NoError
      ensures error == NoError ==> s == jobs[Find(token)].state && held == jobs[Find(token)].held
      ensures error == NoError ==>
                s != JFree &&
                (s == JCompleted ==>
                   !held && exists job <- jobs ::
                     job.token == token && Covered(observations, job) && Passed(tape, at, Who(), job))
    {
      hide HoldsOk, JobHolds, Covered, Passed, Genuine, Monotone;
      var i := Find(token);
      if i == |jobs| { return StaleGeneration, JFree, false; }
      assert JobOk(jobs[i], generation, lastSubmitted, observations);
      assert jobs[i] in jobs;
      if jobs[i].state == JCompleted { CoveredPassed(observations, tape, at, Who(), jobs[i]); }
      return NoError, jobs[i].state, jobs[i].held;
    }

    method Retire(token: Token) returns (error: Error)
      requires Valid()
      modifies this`jobs
      ensures Valid() && Develops(old(jobs), jobs, generation, lastSubmitted) && bridge.holds == old(bridge.holds)
      ensures error == NoError ==>
                exists i | 0 <= i < |old(jobs)| ::
                  old(jobs)[i].token == token && !old(jobs)[i].held && old(jobs)[i].state !in {JFree, JSubmitted} &&
                  jobs == old(jobs)[i := NO_JOB]
      ensures error != NoError ==> jobs == old(jobs)
      ensures var i := old(Find(token));
              error == if i == |old(jobs)| then StaleGeneration
                else if old(jobs)[i].held || old(jobs)[i].state == JSubmitted then ResourceBusy else NoError
    {
      hide HoldsOk, JobsOk, Develops, JobHolds, Monotone, Genuine;
      DevelopsSelf(jobs, generation, lastSubmitted);
      var i := Find(token);
      if i == |jobs| { return StaleGeneration; }
      if jobs[i].held || jobs[i].state == JSubmitted { return ResourceBusy; }
      assert JobOk(NO_JOB, generation, lastSubmitted, observations);
      JobChange(jobs, generation, lastSubmitted, observations, i, NO_JOB);
      HoldsUpdate(jobs, i, NO_JOB);
      jobs := jobs[i := NO_JOB];
      return NoError;
    }

    // ---------------------------------------------------------------- every run

    method Perform(event: Event) returns (issued: bool, token: Token)
      requires Valid()
      modifies this, bridge, bridge.vm
      ensures Valid() && Develops(old(jobs), jobs, old(generation), old(lastSubmitted))
      ensures LaterPoint(old(generation), old(lastSubmitted), generation, lastSubmitted)
      ensures issued ==>
                token == Token(generation, lastSubmitted) && !Issued(token, old(generation), old(lastSubmitted))
      ensures PinsKept(old(bridge.vm.slots), bridge.vm.slots, old(bridge.holds))
    {
      hide HoldsOk, JobsOk, Develops, JobHolds, Monotone, Genuine, BootstrapBatch, PinsKept, Sound, Effect;
      issued, token := false, Token(0, 0);
      DevelopsSelf(jobs, generation, lastSubmitted);
      match event {
        case DoMemory(op) =>
          UsesKeepPins(bridge.vm.slots, bridge.vm.slots, bridge.holds);
          if !op.RetainOp? && !op.ReleaseOp? { bridge.Client(op); }
        case _ =>
          issued, token := Call(event);
          UsesKeepPins(old(bridge.vm.slots), bridge.vm.slots, old(bridge.holds));
      }
    }

    /** A call on the queue itself. */
    method Call(event: Event) returns (issued: bool, token: Token)
      requires Valid() && !event.DoMemory?
      modifies this, bridge, bridge.vm`slots
      ensures Valid() && Develops(old(jobs), jobs, old(generation), old(lastSubmitted))
      ensures UsesOnly(old(bridge.vm.slots), bridge.vm.slots)
      ensures LaterPoint(old(generation), old(lastSubmitted), generation, lastSubmitted)
      ensures issued ==>
                token == Token(generation, lastSubmitted) && !Issued(token, old(generation), old(lastSubmitted))
    {
      hide HoldsOk, JobsOk, Develops, JobHolds, Monotone, Genuine, BootstrapBatch, Sound;
      issued, token := false, Token(0, 0);
      DevelopsSelf(jobs, generation, lastSubmitted);
      match event {
        case DoActivate(firmware) => var e := Activate(firmware);
        case DoSubmit(words, resources, now, deadline) =>
          var e;
          e, token := Submit(words, resources, now, deadline);
          issued := e == NoError || e == SubmissionModel.AcceptanceUnknown;
        case DoInterrupt(gen, now) => var e := OnInterrupt(gen, now);
        case DoExpire(now) => var e := Expire(now);
        case DoReset(now) => var e := Reset(now);
        case DoRetire(t) => var e := Retire(t);
      }
    }

    /** Whatever the queue's and the manager's clients call and whatever the hardware answers:
        an allocation's use count is the number of held jobs that list it, every listed
        resource is still exactly the allocation it was, the bridge never faults, no token is
        issued twice, a completion rests on an accepted observation before the deadline, and
        a timed-out or unknown job never completes. A job still held has its pages where they
        were when the run began. */
    method Execute(events: seq<Event>) returns (tokens: seq<Token>)
      requires Valid()
      modifies this, bridge, bridge.vm
      ensures Valid() && !bridge.faulted
      ensures forall i | 0 <= i < |bridge.vm.slots| ::
                bridge.vm.slots[i].uses == Listing(jobs, ResourceOf(i, bridge.vm.slots[i]))
      ensures forall job <- jobs, r <- job.resources | job.held ::
                0 < r.id <= |bridge.vm.slots| && r == ResourceOf(r.id - 1, bridge.vm.slots[r.id - 1]) &&
                Usable(bridge.vm.slots[r.id - 1], true)
      ensures forall i, j | 0 <= i < j < |tokens| :: tokens[i] != tokens[j]
      ensures Develops(old(jobs), jobs, old(generation), old(lastSubmitted))
      ensures forall job <- jobs | job.state == JCompleted ::
                !job.held && Covered(observations, job) && Passed(tape, at, Who(), job)
      ensures SamePins(jobs, old(generation), old(lastSubmitted), old(bridge.vm.slots), bridge.vm.slots)
    {
      hide HoldsOk, JobsOk, Develops, JobHolds, Monotone, Genuine, Covered, PinsKept, SamePins, Passed;
      tokens := [];
      DevelopsSelf(jobs, generation, lastSubmitted);
      AllSamePins(jobs, generation, lastSubmitted, bridge.vm.slots, bridge.holds);
      for n := 0 to |events|
        invariant Valid() && Develops(old(jobs), jobs, old(generation), old(lastSubmitted))
        invariant SamePins(jobs, old(generation), old(lastSubmitted), old(bridge.vm.slots), bridge.vm.slots)
        invariant LaterPoint(old(generation), old(lastSubmitted), generation, lastSubmitted)
        invariant forall t <- tokens :: Issued(t, generation, lastSubmitted)
        invariant forall i, j | 0 <= i < j < |tokens| :: tokens[i] != tokens[j]
      {
        ghost var before, gen, last := jobs, generation, lastSubmitted;
        ghost var slots := bridge.vm.slots;
        var issued, token := Perform(events[n]);
        HeldAreLive(jobs, generation, lastSubmitted, observations);
        SamePinsStep(before, jobs, old(generation), old(lastSubmitted), gen, last, old(bridge.vm.slots), slots,
                     bridge.vm.slots);
        DevelopsTransitive(old(jobs), before, jobs, old(generation), old(lastSubmitted), gen, last);
        if issued {
          assert forall i | 0 <= i < |tokens| :: tokens[i] in tokens;
          tokens := tokens + [token];
        }
      }
      Consequences();
    }

    lemma Consequences()
      requires Valid()
      ensures forall i | 0 <= i < |bridge.vm.slots| ::
                bridge.vm.slots[i].uses == Listing(jobs, ResourceOf(i, bridge.vm.slots[i]))
      ensures forall job <- jobs, r <- job.resources | job.held ::
                0 < r.id <= |bridge.vm.slots| && r == ResourceOf(r.id - 1, bridge.vm.slots[r.id - 1]) &&
                Usable(bridge.vm.slots[r.id - 1], true)
      ensures forall job <- jobs | job.state == JCompleted ::
                !job.held && Covered(observations, job) && Passed(tape, at, Who(), job)
    {
      hide Covered, JobHolds, Monotone, Genuine, Listing, Passed;
      forall job | job in jobs && job.state == JCompleted
        ensures !job.held && Covered(observations, job) && Passed(tape, at, Who(), job)
      {
        var j :| 0 <= j < |jobs| && jobs[j] == job;
        assert JobOk(jobs[j], generation, lastSubmitted, observations);
        CoveredPassed(observations, tape, at, Who(), job);
      }
      forall j | 0 <= j < |jobs| ensures JobOk(jobs[j], generation, lastSubmitted, observations) {}
      forall i | 0 <= i < |bridge.vm.slots|
        ensures bridge.vm.slots[i].uses == Listing(jobs, ResourceOf(i, bridge.vm.slots[i]))
      {
        HoldsAreJobs(jobs, ResourceOf(i, bridge.vm.slots[i]));
      }
      forall job, r | job in jobs && r in job.resources && job.held
        ensures 0 < r.id <= |bridge.vm.slots| && r == ResourceOf(r.id - 1, bridge.vm.slots[r.id - 1])
        ensures Usable(bridge.vm.slots[r.id - 1], true)
      {
        var j :| 0 <= j < |jobs| && jobs[j] == job;
        HoldsUpdate(jobs, j, job);
        assert r in HeldBy(job);
      }
    }
  }

  datatype Event =
    | DoActivate(firmware: bool)
    | DoSubmit(words: seq<nat>, resources: seq<Resource>, now: nat, deadline: nat)
    | DoInterrupt(gen: nat, now: nat)
    | DoExpire(now: nat)
    | DoReset(now: nat)
    | DoRetire(t: Token)
    | DoMemory(op: VM.Op)

  function FindFrom(jobs: seq<Job>, token: Token, from: nat): (i: nat)
    requires from <= |jobs|
    ensures from <= i <= |jobs|
    ensures i < |jobs| ==> jobs[i].state != JFree && jobs[i].token == token
    ensures i == |jobs| ==> forall j | from <= j < |jobs| :: jobs[j].state == JFree || jobs[j].token != token
    decreases |jobs| - from
  {
    if from == |jobs| then from
    else if jobs[from].state != JFree && jobs[from].token == token then from
    else FindFrom(jobs, token, from + 1)
  }

  function AfterReset(job: Job): Job {
    job.(state := if job.state == JSubmitted || job.state == JUnknown then JReset else job.state, held := false)
  }

  lemma ResetOk(jobs: seq<Job>, gen: nat, last: nat, observations: seq<Observation>, i: nat)
    requires JobsOk(jobs, gen, last, observations) && i < |jobs|
    ensures jobs[i].state == JFree ==> AfterReset(jobs[i]) == jobs[i]
    ensures JobOk(AfterReset(jobs[i]), gen, last, observations)
    ensures (jobs[i].state != JFree ==> JobStep(jobs[i], AfterReset(jobs[i])))
  {
    assert JobOk(jobs[i], gen, last, observations);
    if Covered(observations, jobs[i]) {
      var o :| o in observations && o.generation == jobs[i].token.generation && jobs[i].token.sequence <= o.sequence &&
      o.time < jobs[i].deadline;
      assert Covered(observations, AfterReset(jobs[i]));
    }
  }

  lemma MonotoneNext(observations: seq<Observation>, gen: nat, lastObserved: nat)
    requires Monotone(observations, gen, lastObserved)
    ensures Monotone(observations, gen + 1, 0)
  {
  }

  lemma {:induction false} NoneHeld(jobs: seq<Job>)
    requires forall i | 0 <= i < |jobs| :: !jobs[i].held
    ensures JobHolds(jobs) == multiset{}
  {
    if jobs != [] { NoneHeld(jobs[..|jobs| - 1]); }
  }

  predicate Overdue(job: Job, now: nat) {
    job.state == JSubmitted && now >= job.deadline
  }

  function Aged(job: Job, now: nat): Job {
    if Overdue(job, now) then job.(state := JTimedOut) else job
  }

  /** What an observation of `sequence` makes of a job. */
  function Settled(job: Job, gen: nat, sequence: nat): Job {
    if job.token.generation != gen || job.token.sequence > sequence then job
    else if job.state == JSubmitted then job.(state := JCompleted, held := false)
    else if job.state == JTimedOut || job.state == JUnknown then job.(held := false)
    else job
  }

  predicate Latest(o: Observation, gen: nat, sequence: nat, now: nat) {
    o.generation == gen && o.sequence == sequence && o.time == now
  }

  function Verdict(a: Acceptance): Error {
    match a
    case Accepted => NoError
    case Refused => Rejected
    case Unclear => AcceptanceUnknown
  }

  lemma SettledOk(jobs: seq<Job>, gen: nat, last: nat, observations: seq<Observation>, i: nat, now: nat, sequence: nat)
    requires JobsOk(jobs, gen, last, observations) && i < |jobs| && observations != []
    requires Latest(observations[|observations| - 1], gen, sequence, now)
    requires jobs[i].token.generation == gen && jobs[i].token.sequence <= sequence && !Overdue(jobs[i], now)
    requires jobs[i].state in {JSubmitted, JTimedOut, JUnknown}
    ensures var job := Settled(jobs[i], gen, sequence); JobOk(job, gen, last, observations) && JobStep(jobs[i], job)
  {
    assert JobOk(jobs[i], gen, last, observations);
    var o := observations[|observations| - 1];
    assert o in observations;
    if jobs[i].state == JSubmitted { assert Covered(observations, Settled(jobs[i], gen, sequence)); }
  }

  /** The fence has passed the job. */
  predicate Reached(job: Job, gen: nat, sequence: nat) {
    job.token.generation == gen && job.token.sequence <= sequence
  }

  /** A reading ends exactly the holds of the jobs it has passed, whatever became of them. */
  lemma HoldsEnd(before: seq<Job>, after: seq<Job>, gen: nat, last: nat, observations: seq<Observation>, now: nat,
                 sequence: nat)
    requires JobsOk(before, gen, last, observations) && |after| == |before|
    requires forall i | 0 <= i < |after| :: after[i] == Settled(Aged(before[i], now), gen, sequence)
    ensures forall i | 0 <= i < |after| && before[i].held :: after[i].held <==> !Reached(after[i], gen, sequence)
  {
    hide Covered;
    forall i | 0 <= i < |after| && before[i].held ensures after[i].held <==> !Reached(after[i], gen, sequence) {
      assert JobOk(before[i], gen, last, observations);
    }
  }

  lemma SubmittedToken(jobs: seq<Job>, gen: nat, last: nat, observations: seq<Observation>, i: nat)
    requires JobsOk(jobs, gen, last, observations) && i < |jobs| && jobs[i].state == JSubmitted
    ensures jobs[i].token.generation == gen
  {
    assert JobOk(jobs[i], gen, last, observations);
  }

  lemma FreeNotHeld(jobs: seq<Job>, gen: nat, last: nat, observations: seq<Observation>, i: nat)
    requires JobsOk(jobs, gen, last, observations) && i < |jobs| && jobs[i].state == JFree
    ensures !jobs[i].held
  {
    assert JobOk(jobs[i], gen, last, observations);
  }

  lemma HeldAreLive(jobs: seq<Job>, gen: nat, last: nat, observations: seq<Observation>)
    requires JobsOk(jobs, gen, last, observations)
    ensures forall i | 0 <= i < |jobs| && jobs[i].held :: jobs[i].state != JFree
  {
    hide Covered;
    forall i | 0 <= i < |jobs| && jobs[i].held ensures jobs[i].state != JFree {
      assert JobOk(jobs[i], gen, last, observations);
    }
  }

  lemma SameHolds(before: seq<Job>, after: seq<Job>, i: nat)
    requires i < |before| && !before[i].held && after == before[i := NO_JOB]
    ensures JobHolds(after) == JobHolds(before)
  {
    HoldsUpdate(before, i, NO_JOB);
  }

  /** Slots that none of the first `n` resources names are as they were. */
  predicate Elsewhere(before: seq<VM.Allocation>, now: seq<VM.Allocation>, resources: seq<Resource>, n: nat)
    requires n <= |resources|
  {
    |before| == |now| && forall k | 0 <= k < |now| && (forall i | 0 <= i < n :: resources[i].id != k + 1) ::
      now[k] == before[k]
  }

  lemma Untouched(slots: seq<VM.Allocation>, resources: seq<Resource>)
    ensures Elsewhere(slots, slots, resources, 0)
  {
  }

  lemma ElsewhereStep(first: seq<VM.Allocation>, before: seq<VM.Allocation>, now: seq<VM.Allocation>,
                      resources: seq<Resource>, n: nat)
    requires n < |resources| && Elsewhere(first, before, resources, n) && 0 < resources[n].id <= |before|
    requires |now| == |before| && now == before[resources[n].id - 1 := now[resources[n].id - 1]]
    ensures Elsewhere(first, now, resources, n + 1)
  {
  }

  /** Holding other resources does not change whether this one can be held. */
  lemma SameSlot(ready: bool, before: seq<VM.Allocation>, now: seq<VM.Allocation>, resources: seq<Resource>, n: nat)
    requires n < |resources| && DistinctIds(resources) && Elsewhere(before, now, resources, n)
    ensures Takeable(ready, now, resources[n]) <==> Takeable(ready, before, resources[n])
  {
    var k := resources[n].id - 1;
    if 0 <= k < |now| {
      assert forall i | 0 <= i < n :: resources[i].id != k + 1;
      assert now[k] == before[k];
    }
  }
}
