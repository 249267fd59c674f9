/**
 The job table of the submission queue: what is held, what each job may become, and what a
 completion rests on.
 */
module SubmissionModel {
  import VM = VirtualMemory
  import opened MemoryBridge

  const MAX_JOBS: nat := 32
  const MAX_RESOURCES: nat := 8
  const MAX_WORDS: nat := 64
  const BATCH_END: nat := 0x0500_0000

  datatype Error =
    | NoError | UnsupportedBackend | NotReady | InvalidArgument | InvalidCommand | Ownership | InvalidMapping
    | ResourceBusy | Capacity | Rejected | AcceptanceUnknown | StaleGeneration | InvalidObservation
    | QuiesceFailed | SequenceExhausted | ClockRegression
  datatype JobState = JFree | JSubmitted | JUnknown | JCompleted | JTimedOut | JReset
  datatype QueueState = Inactive | Ready | NeedsReset

  datatype Token = Token(generation: nat, sequence: nat)
  datatype Job = Job(state: JobState, held: bool, token: Token, deadline: nat, resources: seq<Resource>)

  const NO_JOB: Job := Job(JFree, false, Token(0, 0), 0, [])

  /** A fence reading the queue accepted: the sequence, the last one submitted then, the time, and which of the
      backend's answers it was. */
  datatype Observation = Observation(generation: nat, sequence: nat, limit: nat, time: nat, at: nat)

  datatype Acceptance = Accepted | Refused | Unclear

  /** What the backend reports about its own readiness, and what it reads from a fence. */
  datatype Readiness = Readiness(generation: nat, owner: nat, context: nat, engine: nat, flags: nat)
  datatype Reading = Reading(generation: nat, owner: nat, context: nat, engine: nat, sequence: nat, valid: bool,
                             ordered: bool)

  /** Whom a queue serves. */
  datatype Identity = Identity(owner: nat, context: nat, engine: nat)

  /** What the transport is given. */
  datatype Batch = Batch(token: Token, who: Identity, deadline: nat, words: seq<nat>, resources: seq<Resource>)

  /** What the backend would answer to each of the calls it may get next. */
  datatype Answer = Answer(readiness: Error, ready: Readiness, accepts: Batch -> Acceptance, read: Error,
                           fence: Reading, quiesced: bool)

  function At(tape: nat -> Answer, k: nat): Answer {
    tape(k)
  }

  /** The answer to this batch, if it comes with call `k`. */
  function Decision(tape: nat -> Answer, k: nat, batch: Batch): Acceptance {
    At(tape, k).accepts(batch)
  }

  /** All eight readiness bits, for exactly this queue. */
  predicate Prepared(r: Readiness, gen: nat, who: Identity) {
    r.generation == gen && r.owner == who.owner && r.context == who.context && r.engine == who.engine &&
    r.flags % 256 == 255
  }

  /** A valid, ordered reading of this queue's own fence. */
  predicate OwnReading(r: Reading, gen: nat, who: Identity) {
    r.valid && r.ordered && r.generation == gen && r.owner == who.owner && r.context == who.context &&
    r.engine == who.engine
  }

  /** Every accepted observation is a reading the backend gave, each a later one than the last. */
  ghost predicate Genuine(observations: seq<Observation>, tape: nat -> Answer, at: nat, who: Identity) {
    && (forall o <- observations :: o.at < at && Reported(tape, o, who))
    && (forall i, j | 0 <= i < j < |observations| :: observations[i].at < observations[j].at)
  }

  predicate Reported(tape: nat -> Answer, o: Observation, who: Identity) {
    var a := At(tape, o.at);
    a.read == NoError && OwnReading(a.fence, o.generation, who) && a.fence.sequence == o.sequence
  }

  lemma GenuineLater(observations: seq<Observation>, tape: nat -> Answer, at: nat, who: Identity)
    requires Genuine(observations, tape, at, who)
    ensures Genuine(observations, tape, at + 1, who)
  {
    hide Reported;
  }

  lemma GenuineGrows(observations: seq<Observation>, tape: nat -> Answer, at: nat, who: Identity, o: Observation)
    requires Genuine(observations, tape, at, who) && o.at == at && Reported(tape, o, who)
    ensures Genuine(observations + [o], tape, at + 1, who)
  {
    hide Reported;
    var u := observations + [o];
    forall p | p in u ensures p.at < at + 1 && Reported(tape, p, who) { assert p in observations || p == o; }
    forall i, j | 0 <= i < j < |u| ensures u[i].at < u[j].at { assert u[i] in observations; }
  }

  /** A reading the backend gave, by now, passed the job's sequence. */
  ghost predicate Passed(tape: nat -> Answer, at: nat, who: Identity, job: Job) {
    exists k | 0 <= k < at ::
      && At(tape, k).read == NoError && OwnReading(At(tape, k).fence, job.token.generation, who)
      && job.token.sequence <= At(tape, k).fence.sequence
  }

  /** A completed job rests on a fence that the hardware really showed. */
  lemma CoveredPassed(observations: seq<Observation>, tape: nat -> Answer, at: nat, who: Identity, job: Job)
    requires Genuine(observations, tape, at, who) && Covered(observations, job)
    ensures Passed(tape, at, who, job)
  {
    hide At, OwnReading;
    var o :| o in observations && o.generation == job.token.generation && job.token.sequence <= o.sequence &&
    o.time < job.deadline;
    assert Reported(tape, o, who);
  }

  /** NOOPs, ended by exactly one BATCH_BUFFER_END. */
  predicate BootstrapBatch(words: seq<nat>) {
    && 0 < |words| <= MAX_WORDS && words[|words| - 1] == BATCH_END
    && forall i | 0 <= i < |words| - 1 :: words[i] == 0
  }

  predicate ResourceOk(r: Resource) {
    r.generation != 0 && r.bytes != 0 && r.pinned && r.readable && r.address % 4 == 0 &&
    r.address + r.bytes <= 0x1_0000_0000_0000
  }

  predicate DistinctIds(resources: seq<Resource>) {
    forall i, j | 0 <= i < j < |resources| :: resources[i].id != resources[j].id
  }

  // ------------------------------------------------------------ why a batch is refused

  function FaultAt(owner: nat, resources: seq<Resource>, i: nat): Error
    requires i < |resources|
  {
    var r := resources[i];
    if r.id == 0 || r.owner != owner then Ownership
    else if !ResourceOk(r) then InvalidMapping
    else if exists j | 0 <= j < i :: resources[j].id == r.id then InvalidArgument
    else NoError
  }

  /** The first fault among the first `n` resources. */
  function ListFault(owner: nat, resources: seq<Resource>, n: nat): Error
    requires n <= |resources|
  {
    if n == 0 then NoError
    else if ListFault(owner, resources, n - 1) != NoError then ListFault(owner, resources, n - 1)
    else FaultAt(owner, resources, n - 1)
  }

  function BatchFault(owner: nat, words: seq<nat>, resources: seq<Resource>): Error {
    if words == [] || |words| > MAX_WORDS then InvalidArgument
    else if !BootstrapBatch(words) then InvalidCommand
    else ListFault(owner, resources, |resources|)
  }

  lemma {:induction false} FaultStays(owner: nat, resources: seq<Resource>, n: nat)
    requires n <= |resources| && ListFault(owner, resources, n) != NoError
    ensures ListFault(owner, resources, |resources|) == ListFault(owner, resources, n)
    decreases |resources| - n
  {
    hide FaultAt;
    if n < |resources| { FaultStays(owner, resources, n + 1); }
  }

  /** No fault means that every resource is the owner's, well formed and listed once. */
  lemma NoFault(owner: nat, resources: seq<Resource>)
    ensures ListFault(owner, resources, |resources|) == NoError <==>
            (forall r <- resources :: r.id != 0 && r.owner == owner && ResourceOk(r)) && DistinctIds(resources)
  {
    hide ResourceOk;
    NoFaultUpTo(owner, resources, |resources|);
    if ListFault(owner, resources, |resources|) == NoError {
      forall i | 0 <= i < |resources|
        ensures resources[i].id != 0 && resources[i].owner == owner && ResourceOk(resources[i])
      {
        assert FaultAt(owner, resources, i) == NoError;
      }
      forall i, j | 0 <= j < i < |resources| ensures resources[j].id != resources[i].id {
        assert FaultAt(owner, resources, i) == NoError;
      }
    }
  }

  lemma {:induction false} NoFaultUpTo(owner: nat, resources: seq<Resource>, n: nat)
    requires n <= |resources|
    ensures ListFault(owner, resources, n) == NoError <==>
              forall i | 0 <= i < n :: FaultAt(owner, resources, i) == NoError
  {
    hide FaultAt;
    if n > 0 { NoFaultUpTo(owner, resources, n - 1); }
  }

  // ------------------------------------------------------------ pins

  /** Jobs issued by (gen, last) and still held have their resources' pins as they were in `first`. */
  ghost predicate SamePins(jobs: seq<Job>, gen: nat, last: nat, first: seq<VM.Allocation>, now: seq<VM.Allocation>) {
    |first| == |now| &&
    forall i, r | 0 <= i < |jobs| && jobs[i].held && Issued(jobs[i].token, gen, last) && r in jobs[i].resources ::
      0 < r.id <= |first| && now[r.id - 1].pin == first[r.id - 1].pin
  }

  lemma AllSamePins(jobs: seq<Job>, gen: nat, last: nat, slots: seq<VM.Allocation>, holds: multiset<Resource>)
    requires HoldsOk(slots, holds) && holds == JobHolds(jobs)
    ensures SamePins(jobs, gen, last, slots, slots)
  {
    hide JobHolds;
    forall i, r | 0 <= i < |jobs| && jobs[i].held && r in jobs[i].resources ensures 0 < r.id <= |slots| {
      HoldsUpdate(jobs, i, jobs[i]);
      assert r in HeldBy(jobs[i]);
    }
  }

  /** One step keeps the pins of all that was held, and what is held still was held before. */
  lemma SamePinsStep(before: seq<Job>, after: seq<Job>, gen: nat, last: nat, gen': nat, last': nat,
                     first: seq<VM.Allocation>, middle: seq<VM.Allocation>, now: seq<VM.Allocation>)
    requires SamePins(before, gen, last, first, middle) && Develops(before, after, gen', last')
    requires LaterPoint(gen, last, gen', last')
    requires PinsKept(middle, now, JobHolds(before)) && forall i | 0 <= i < |after| && after[i].held ::
              after[i].state != JFree
    ensures SamePins(after, gen, last, first, now)
  {
    hide JobHolds;
    forall i, r | 0 <= i < |after| && after[i].held && Issued(after[i].token, gen, last) && r in after[i].resources
      ensures 0 < r.id <= |first| && now[r.id - 1].pin == first[r.id - 1].pin
    {
      assert JobStep(before[i], after[i]);
      HoldsUpdate(before, i, before[i]);
      assert r in HeldBy(before[i]);
    }
  }

  // ------------------------------------------------------------ holds

  function HeldBy(job: Job): multiset<Resource> {
    if job.held then multiset(job.resources) else multiset{}
  }

  /** Everything the job table holds. */
  function JobHolds(jobs: seq<Job>): multiset<Resource> {
    if jobs == [] then multiset{} else JobHolds(jobs[..|jobs| - 1]) + HeldBy(jobs[|jobs| - 1])
  }

  lemma {:induction false} HoldsUpdate(jobs: seq<Job>, i: nat, job: Job)
    requires i < |jobs|
    ensures HeldBy(jobs[i]) <= JobHolds(jobs)
    ensures JobHolds(jobs[i := job]) == JobHolds(jobs) - HeldBy(jobs[i]) + HeldBy(job)
  {
    var n := |jobs| - 1;
    if i == n {
      assert jobs[i := job][..n] == jobs[..n];
    } else {
      HoldsUpdate(jobs[..n], i, job);
      assert jobs[i := job][..n] == jobs[..n][i := job];
    }
  }

  lemma {:induction false} HoldsEmpty(n: nat)
    ensures JobHolds(seq(n, _ => NO_JOB)) == multiset{}
  {
    if n > 0 {
      HoldsEmpty(n - 1);
      assert seq(n, _ => NO_JOB)[..n - 1] == seq(n - 1, _ => NO_JOB);
    }
  }

  /** The number of held jobs that list a resource. */
  function Listing(jobs: seq<Job>, r: Resource): nat {
    if jobs == [] then 0
    else Listing(jobs[..|jobs| - 1], r) + if jobs[|jobs| - 1].held && r in jobs[|jobs| - 1].resources then 1 else 0
  }

  /** With no resource twice in a job, counting holds is counting jobs. */
  lemma {:induction false} HoldsAreJobs(jobs: seq<Job>, r: Resource)
    requires forall i | 0 <= i < |jobs| && jobs[i].held :: DistinctIds(jobs[i].resources)
    ensures JobHolds(jobs)[r] == Listing(jobs, r)
  {
    if jobs != [] {
      var n := |jobs| - 1;
      HoldsAreJobs(jobs[..n], r);
      if jobs[n].held { OnceAtMost(jobs[n].resources, r); }
    }
  }

  lemma {:induction false} OnceAtMost(resources: seq<Resource>, r: Resource)
    requires DistinctIds(resources)
    ensures multiset(resources)[r] == if r in resources then 1 else 0
  {
    if resources != [] {
      var n := |resources| - 1;
      OnceAtMost(resources[..n], r);
      assert resources == resources[..n] + [resources[n]];
    }
  }

  // ------------------------------------------------------------ tokens and evidence

  /** Issued no later than sequence `last` of generation `gen`. */
  predicate Issued(t: Token, gen: nat, last: nat) {
    t.generation < gen || (t.generation == gen && t.sequence <= last)
  }

  predicate LaterPoint(gen: nat, last: nat, gen': nat, last': nat) {
    gen < gen' || (gen == gen' && last <= last')
  }

  /** An accepted observation reached the job before its deadline. */
  predicate Covered(observations: seq<Observation>, job: Job) {
    exists o <- observations ::
      o.generation == job.token.generation && job.token.sequence <= o.sequence && o.time < job.deadline
  }

  /** Observations stay in range and never go back within a generation. */
  predicate Monotone(observations: seq<Observation>, gen: nat, lastObserved: nat) {
    && (forall o <- observations ::
          o.sequence <= o.limit && o.generation <= gen && (o.generation == gen ==> o.sequence <= lastObserved))
    && (forall i, j | 0 <= i < j < |observations| && observations[i].generation == observations[j].generation ::
          observations[i].sequence <= observations[j].sequence)
  }

  predicate JobOk(job: Job, gen: nat, last: nat, observations: seq<Observation>) {
    && (job.held ==> DistinctIds(job.resources))
    && (job.state in {JFree, JCompleted, JReset} ==> !job.held)
    && (job.state == JSubmitted ==> job.held && job.token.generation == gen)
    && (job.state == JUnknown ==> job.token.generation == gen)
    && (job.state != JFree ==> Issued(job.token, gen, last) && 0 < job.token.sequence)
    && (job.state == JCompleted ==> Covered(observations, job))
  }

  predicate Distinct(a: Job, b: Job) {
    a.state != JFree && b.state != JFree ==> a.token != b.token
  }

  predicate JobsOk(jobs: seq<Job>, gen: nat, last: nat, observations: seq<Observation>) {
    && |jobs| == MAX_JOBS
    && (forall i | 0 <= i < |jobs| :: JobOk(jobs[i], gen, last, observations))
    && (forall i, j | 0 <= i < j < |jobs| :: Distinct(jobs[i], jobs[j]))
  }

  // ------------------------------------------------------------ histories

  /** What may become of a job. */
  predicate JobStep(a: Job, b: Job) {
    && b.token == a.token && b.resources == a.resources && b.deadline == a.deadline
    && (!a.held ==> !b.held)
    && (a.state == JCompleted ==> b == a)
    && (a.state == JTimedOut ==> b.state == JTimedOut)
    && (a.state == JUnknown ==> b.state == JUnknown || b.state == JReset)
    && (a.state == JReset ==> b == a)
  }

  /** Every job issued by (gen, last) and still in the table developed from itself. */
  predicate Develops(before: seq<Job>, after: seq<Job>, gen: nat, last: nat) {
    && |before| == |after|
    && forall i | 0 <= i < |after| && after[i].state != JFree && Issued(after[i].token, gen, last) ::
         before[i].state != JFree && JobStep(before[i], after[i])
  }

  lemma DevelopsTransitive(a: seq<Job>, b: seq<Job>, c: seq<Job>, gen: nat, last: nat, gen': nat, last': nat)
    requires Develops(a, b, gen, last) && Develops(b, c, gen', last') && LaterPoint(gen, last, gen', last')
    ensures Develops(a, c, gen, last)
  {
  }

  lemma DevelopsSelf(a: seq<Job>, gen: nat, last: nat)
    ensures Develops(a, a, gen, last)
  {
  }

  /** One job moves on, in place. */
  lemma JobChange(jobs: seq<Job>, gen: nat, last: nat, observations: seq<Observation>, i: nat, job: Job)
    requires JobsOk(jobs, gen, last, observations) && i < |jobs| && JobOk(job, gen, last, observations)
    requires job.state != JFree ==> jobs[i].state != JFree && JobStep(jobs[i], job)
    ensures JobsOk(jobs[i := job], gen, last, observations)
    ensures Develops(jobs, jobs[i := job], gen, last)
  {
    hide JobOk;
    var u := jobs[i := job];
    forall a, b | 0 <= a < b < |u| ensures Distinct(u[a], u[b]) { assert Distinct(jobs[a], jobs[b]); }
  }

  /** A new job under the next token. */
  lemma JobIssue(jobs: seq<Job>, gen: nat, last: nat, observations: seq<Observation>, i: nat, job: Job)
    requires JobsOk(jobs, gen, last, observations) && i < |jobs| && jobs[i].state == JFree
    requires job.token == Token(gen, last + 1) && JobOk(job, gen, last + 1, observations)
    ensures JobsOk(jobs[i := job], gen, last + 1, observations)
    ensures Develops(jobs, jobs[i := job], gen, last)
  {
    hide Covered;
    var u := jobs[i := job];
    forall j | 0 <= j < |u| ensures JobOk(u[j], gen, last + 1, observations) {
      assert JobOk(jobs[j], gen, last, observations);
    }
    forall a, b | 0 <= a < b < |u|
      ensures Distinct(u[a], u[b])
    {
      assert Distinct(jobs[a], jobs[b]) && JobOk(jobs[a], gen, last, observations) &&
             JobOk(jobs[b], gen, last, observations);
    }
  }

  /** More evidence never takes a completion back. */
  lemma MoreEvidence(jobs: seq<Job>, gen: nat, last: nat, observations: seq<Observation>, o: Observation)
    requires JobsOk(jobs, gen, last, observations)
    ensures JobsOk(jobs, gen, last, observations + [o])
  {
    forall i | 0 <= i < |jobs|
      ensures JobOk(jobs[i], gen, last, observations + [o])
    {
      assert JobOk(jobs[i], gen, last, observations);
      if Covered(observations, jobs[i]) {
        var p :| p in observations && p.generation == jobs[i].token.generation &&
        jobs[i].token.sequence <= p.sequence &&
        p.time < jobs[i].deadline;
        assert p in observations + [o];
      }
    }
  }

  lemma MonotoneGrows(observations: seq<Observation>, gen: nat, lastObserved: nat, o: Observation)
    requires Monotone(observations, gen, lastObserved) && o.generation == gen && lastObserved <= o.sequence <= o.limit
    ensures Monotone(observations + [o], gen, o.sequence)
  {
    var u := observations + [o];
    forall p | p in u
      ensures p.sequence <= p.limit && p.generation <= gen && (p.generation == gen ==> p.sequence <= o.sequence)
    {
      assert p in observations || p == o;
    }
    forall i, j | 0 <= i < j < |u| && u[i].generation == u[j].generation
      ensures u[i].sequence <= u[j].sequence
    {
      assert u[i] == observations[i] && observations[i] in observations;
    }
  }

  /** A new generation starts with nothing submitted. */
  lemma NextGeneration(jobs: seq<Job>, gen: nat, last: nat, observations: seq<Observation>)
    requires JobsOk(jobs, gen, last, observations)
    requires forall i | 0 <= i < |jobs| :: jobs[i].state != JSubmitted && jobs[i].state != JUnknown
    ensures JobsOk(jobs, gen + 1, 0, observations)
  {
    hide Covered;
    forall i | 0 <= i < |jobs| ensures JobOk(jobs[i], gen + 1, 0, observations) {
      assert JobOk(jobs[i], gen, last, observations);
    }
    forall a, b | 0 <= a < b < |jobs| ensures Distinct(jobs[a], jobs[b]) { assert Distinct(jobs[a], jobs[b]); }
  }
}
