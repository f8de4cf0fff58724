/**
 What the invariant of the scan system means, for every state any run can reach.
 */
module ScanTheorems {
  import opened Options
  import opened Netq
  import opened Gate
  import opened ScanSystem
  import opened ScanInvariant

  // ----- Exclusion, order, no wedge -----

  lemma {:induction false} OneByOneAt(admitted: seq<Job>, n: nat)
    requires n <= |admitted|
    ensures |OneByOne(admitted, n)| == 2 * n
    ensures forall k | 0 <= k < n :: OneByOne(admitted, n)[2 * k] == Began(k)
    ensures forall k | 0 <= k < n :: OneByOne(admitted, n)[2 * k + 1] == Ended(k, admitted[k].panics)
  {
    if n > 0 {
      OneByOneAt(admitted, n - 1);
    }
  }

  /**
   Lane jobs never overlap, and each admitted job runs exactly once, in admission order:
   the begin and end events of any run are begin 0, end 0, begin 1, end 1, and so on, a
   panicking job included, and once the lane is idle every admitted job has had both.
   */
  lemma JobsRunOneByOne(s: State)
    requires Reachable(s)
    ensures var runs := Runs(s.log);
            && |runs| <= 2 * |s.admitted|
            && (forall k | 0 <= 2 * k < |runs| :: runs[2 * k] == Began(k))
            && (forall k | 0 <= 2 * k + 1 < |runs| :: runs[2 * k + 1] == Ended(k, s.admitted[k].panics))
            && (s.lane.running.None? ==> |runs| == 2 * |s.admitted|)
  {
    ReachableLane(s);
    RunsAt(s);
  }

  lemma ReachableLane(s: State)
    requires Reachable(s)
    ensures LaneInv(s) && UiInv(s) && LogInv(s)
  {
    ReachableInv(s);
  }

  lemma RunsAt(s: State)
    requires LaneInv(s) && LogInv(s)
    ensures var runs := Runs(s.log);
            && |runs| <= 2 * |s.admitted|
            && (forall k | 0 <= 2 * k < |runs| :: runs[2 * k] == Began(k))
            && (forall k | 0 <= 2 * k + 1 < |runs| :: runs[2 * k + 1] == Ended(k, s.admitted[k].panics))
            && (s.lane.running.None? ==> |runs| == 2 * |s.admitted|)
  {
    OneByOneAt(s.admitted, if s.lane.running.None? then |s.admitted| else Own(s).ticket.id);
  }

  /**
   Whenever the lane mutex is free, the closures stored are exactly those of the queued ids,
   and a job is running exactly when there is a worker, only one, holding that very job.
   */
  lemma LaneMatchesWorkers(s: State)
    requires Reachable(s)
    ensures s.jobs.Keys == set t | t in s.lane.queued :: t.id
    ensures s.lane.running.Some? <==> s.workers != map[]
    ensures forall w, w' | w in s.workers && w' in s.workers :: w == w'
    ensures forall w | w in s.workers :: s.lane.running == Some(s.workers[w].ticket)
  {
    ReachableInv(s);
    forall i | i in s.jobs
      ensures exists t :: t in s.lane.queued && t.id == i
    {
      assert s.lane.queued[i - s.lane.running.value.id - 1] in s.lane.queued;
    }
    if s.lane.running.Some? {
      assert s.lastWorker in s.workers;
    }
  }

  /** A worker telling the lane its job is done never meets the stale-id branch of `complete`
      and never finds a promoted job without its closure. */
  lemma TakeoverNeverLost(s: State, w: JobId)
    requires Reachable(s) && Enabled(s, WorkerTakeover(w))
    ensures var id := s.workers[w].ticket.id;
            var (lane', _, next) := TakeoverRegion(s.lane, s.jobs, id);
            && s.lane.running == Some(s.workers[w].ticket)
            && (if s.lane.queued == [] then next == Exit && lane'.running.None?
                else s.lane.queued[0].id in s.jobs
                     && next == Next(s.lane.queued[0], s.jobs[s.lane.queued[0].id]))
  {
    ReachableInv(s);
    TakeoverKeepsPaired(s.lane, s.jobs, s.admitted);
  }

  /** The lane is never wedged: a running job always has a worker, or its submitter, able to
      take a step. */
  lemma NeverWedged(s: State)
    requires Reachable(s) && s.lane.running.Some?
    ensures Enabled(s, Spawn) || exists step :: WorkerStep(step) && Enabled(s, step)
  {
    ReachableLane(s);
    var w := s.lastWorker;
    match Own(s).phase {
      case Unspawned => assert Enabled(s, Spawn);
      case Working(posted) =>
        assert WorkerStep(WorkerPost(w)) && WorkerStep(WorkerPanic(w));
        assert Enabled(s, WorkerPost(w)) || Enabled(s, WorkerPanic(w));
      case Scheduling(_, _) => assert WorkerStep(WorkerSchedule(w)) && Enabled(s, WorkerSchedule(w));
      case Returned => assert WorkerStep(WorkerTakeover(w)) && Enabled(s, WorkerTakeover(w));
    }
  }

  // ----- Work left -----

  predicate WorkerStep(step: Step) {
    step.WorkerPost? || step.WorkerSchedule? || step.WorkerPanic? || step.WorkerTakeover?
  }

  /** Worker steps a job takes: two per post, one for a panic, one to tell the lane. */
  function Cost(job: Job): nat {
    2 * job.pages + (if job.panics then 1 else 2) + 1
  }

  function CostFrom(admitted: seq<Job>, from: nat): nat
    decreases |admitted| - from
  {
    if from >= |admitted| then 0 else Cost(admitted[from]) + CostFrom(admitted, from + 1)
  }

  function Left(k: Worker): int {
    match k.phase
    case Unspawned => Cost(k.job)
    case Working(posted) => Cost(k.job) - 2 * posted
    case Scheduling(posted, last) => if last then 2 else Cost(k.job) - 2 * posted + 1
    case Returned => 1
  }

  /** Worker steps still due for the jobs in the lane. */
  ghost function WorkLeft(s: State): int {
    if s.lane.running.None? || s.lastWorker !in s.workers then 0
    else Left(Own(s)) + CostFrom(s.admitted, Own(s).ticket.id + 1)
  }

  lemma {:induction false} CostFromGrows(admitted: seq<Job>, job: Job, from: nat)
    requires from <= |admitted|
    ensures CostFrom(admitted + [job], from) == CostFrom(admitted, from) + Cost(job)
    decreases |admitted| - from
  {
    if from < |admitted| {
      CostFromGrows(admitted, job, from + 1);
    } else {
      assert CostFrom(admitted + [job], from + 1) == 0;
    }
  }

  /** A worker step is one unit of work; a submission adds its job's cost if admitted;
      nothing else changes the work left. */
  lemma WorkPerStep(s: State, step: Step)
    requires LaneInv(s) && UiInv(s) && Enabled(s, step)
    ensures WorkLeft(After(s, step)) == WorkLeft(s) - (if WorkerStep(step) then 1 else 0) + Added(s, step)
  {
    if Quiet(step) {
      WorkQuiet(s, step);
    } else if step.Submit? {
      WorkSubmitted(s, step.job);
    } else if step.WorkerTakeover? {
      WorkTakeover(s, step.w);
    } else {
      WorkPhase(s, step);
    }
  }

  lemma WorkQuiet(s: State, step: Step)
    requires LaneInv(s) && Enabled(s, step) && Quiet(step)
    ensures WorkLeft(After(s, step)) == WorkLeft(s) && !WorkerStep(step) && Added(s, step) == 0
  {
    QuietStep(s, step);
    WorkSame(s, After(s, step));
  }

  lemma WorkSame(s: State, t: State)
    requires t.lane.running == s.lane.running && t.workers == s.workers
          && t.lastWorker == s.lastWorker && t.admitted == s.admitted
    ensures WorkLeft(t) == WorkLeft(s)
  {
  }

  lemma WorkTakeover(s: State, w: JobId)
    requires LaneInv(s) && Enabled(s, WorkerTakeover(w))
    ensures WorkLeft(After(s, WorkerTakeover(w))) == WorkLeft(s) - 1
  {
    TakeoverKeepsPaired(s.lane, s.jobs, s.admitted);
  }

  lemma WorkPhase(s: State, step: Step)
    requires LaneInv(s) && UiInv(s) && Enabled(s, step)
    requires ChangesPhase(step)
    ensures WorkLeft(After(s, step)) == WorkLeft(s) - (if WorkerStep(step) then 1 else 0)
  {
    PhaseStep(s, step);
  }

  lemma WorkSubmitted(s: State, job: Job)
    requires LaneInv(s) && Enabled(s, Submit(job))
    ensures WorkLeft(After(s, Submit(job))) == WorkLeft(s) + Added(s, Submit(job))
  {
    if s.lane.running.Some? {
      SubmitBehind(s, job);
      if Added(s, Submit(job)) == 0 {
        WorkSame(s, After(s, Submit(job)));
      } else {
        WorkBehind(s, After(s, Submit(job)), job);
      }
    } else {
      SubmitFirst(s, job);
    }
  }

  lemma WorkBehind(s: State, t: State, job: Job)
    requires LaneInv(s) && s.lane.running.Some?
    requires t.lane.running == s.lane.running && t.workers == s.workers && t.lastWorker == s.lastWorker
    requires t.admitted == s.admitted + [job]
    ensures WorkLeft(t) == WorkLeft(s) + Cost(job)
  {
    CostFromGrows(s.admitted, job, Own(s).ticket.id + 1);
  }

  lemma SubmitFirst(s: State, job: Job)
    requires LaneInv(s) && Enabled(s, Submit(job)) && s.lane.running.None?
    ensures WorkLeft(After(s, Submit(job))) == Cost(job) == Added(s, Submit(job))
  {
  }

  lemma SubmitBehind(s: State, job: Job)
    requires LaneInv(s) && Enabled(s, Submit(job)) && s.lane.running.Some?
    ensures var s' := After(s, Submit(job));
            && s'.lane.running == s.lane.running && s'.workers == s.workers && s'.lastWorker == s.lastWorker
            && s'.admitted == if Added(s, Submit(job)) == 0 then s.admitted else s.admitted + [job]
  {
  }

  /** The cost a step adds to the lane. */
  function Added(s: State, step: Step): nat {
    if step.Submit? && !SubmitRegion(s.lane, s.jobs, step.job).2.Coalesced? then Cost(step.job) else 0
  }

  function WorkerSteps(steps: seq<Step>): nat {
    if steps == [] then 0 else (if WorkerStep(steps[0]) then 1 else 0) + WorkerSteps(steps[1..])
  }

  /**
   Once submissions stop, the lane reaches idle after exactly `WorkLeft` worker steps,
   whatever the UI thread and other posters do meanwhile, and no run has more of them.
   */
  lemma {:induction false} IdleAfterExactly(s: State, steps: seq<Step>)
    requires Inv(s) && ValidRun(s, steps)
    requires forall i | 0 <= i < |steps| :: !steps[i].Submit?
    ensures WorkerSteps(steps) <= WorkLeft(s)
    ensures AfterRun(s, steps).lane.running.None? <==> WorkerSteps(steps) == WorkLeft(s)
    decreases |steps|
  {
    if steps == [] {
      assert s.lane.running.Some? ==> Left(Own(s)) > 0;
    } else {
      var s' := After(s, steps[0]);
      StepKeepsInv(s, steps[0]);
      WorkPerStep(s, steps[0]);
      IdleAfterExactly(s', steps[1..]);
    }
  }

  // ----- Freshness -----

  /**
   No submission is forgotten, however it was answered: at every moment a job under its key
   has begun since, or is in the lane and has not begun; so when the lane is idle every
   submission has been followed by a run of a job under its key, and that run has ended.
   */
  lemma EverySubmissionServed(s: State, t: nat)
    requires Reachable(s) && t < |s.log| && s.log[t].Submitted?
    ensures Served(s, s.log[t].key, t) || Waiting(s, s.log[t].key)
    ensures Waiting(s, s.log[t].key) ==>
              || (exists i :: 0 <= i < |s.lane.queued| && s.lane.queued[i].key == s.log[t].key)
              || (exists w :: w in s.workers && s.workers[w].phase.Unspawned?
                              && s.workers[w].ticket.key == s.log[t].key)
    ensures s.lane.running.None? ==>
              exists u :: t < u < |s.log| && s.log[u].Began? && s.log[u].id < |s.admitted|
                          && s.admitted[s.log[u].id].key == s.log[t].key
                          && Ended(s.log[u].id, s.admitted[s.log[u].id].panics) in s.log
  {
    ReachableInv(s);
    if s.lane.running.None? {
      var u :| t < u < |s.log| && s.log[u].Began? && s.log[u].id < |s.admitted|
               && s.admitted[s.log[u].id].key == s.log[t].key;
      var id := s.log[u].id;
      EndedInRuns(s.log, Ended(id, s.admitted[id].panics));
      EndsAt(s, id, s.admitted[id].panics);
    }
  }

  // ----- The gate -----

  /** Where an admitted scan can be before its result is applied: queued, scanning, posted,
      or dead of a panic. */
  ghost predicate InFlight(s: State, id: JobId) {
    || (exists t :: t in s.lane.queued && t.id == id)
    || (exists w :: w in s.workers && s.workers[w].ticket.id == id && !FinalOut(s.workers[w].phase))
    || (exists p :: p in s.batch + s.queue && p.Final? && p.id == id)
    || Ended(id, true) in s.log
  }

  lemma {:induction false} EndedInRuns(log: seq<Event>, e: Event)
    requires !e.Submitted?
    ensures e in log <==> e in Runs(log)
  {
    if log != [] {
      EndedInRuns(log[..|log| - 1], e);
      assert log == log[..|log| - 1] + [log[|log| - 1]];
    }
  }

  /** The end event of job `id`, if logged, tells whether the job panics. */
  lemma EndsAt(s: State, id: JobId, panicked: bool)
    requires LaneInv(s) && LogInv(s) && id < |s.admitted|
    ensures Ended(id, panicked) in Runs(s.log) <==>
            && panicked == s.admitted[id].panics
            && (s.lane.running.Some? ==>
                  id < Own(s).ticket.id || (id == Own(s).ticket.id && Own(s).phase.Returned?))
  {
    var n := if s.lane.running.None? then |s.admitted| else Own(s).ticket.id;
    var done := OneByOne(s.admitted, n);
    var tail := if s.lane.running.None? then [] else RunTail(Own(s));
    assert Runs(s.log) == done + tail;
    EndedOnce(s.admitted, n, id, panicked);
  }

  lemma {:induction false} EndedOnce(admitted: seq<Job>, n: nat, id: JobId, panicked: bool)
    requires n <= |admitted| && id < |admitted|
    ensures Ended(id, panicked) in OneByOne(admitted, n) <==> id < n && panicked == admitted[id].panics
  {
    if n > 0 {
      EndedOnce(admitted, n - 1, id, panicked);
    }
  }

  /** Exactly the jobs that panic and have finished leave a panicked end in the log. */
  lemma PanickedEnds(s: State, id: JobId)
    requires LaneInv(s) && LogInv(s) && id < |s.admitted|
    ensures Ended(id, true) in s.log <==> Finished(s, id) && s.admitted[id].panics
  {
    EndedInRuns(s.log, Ended(id, true));
    EndsAt(s, id, true);
  }

  lemma UnappliedIsInFlight(s: State, id: JobId)
    requires Inv(s) && id < |s.admitted|
    ensures InFlight(s, id) <==> Final(id, s.admitted[id].cls) !in s.applied
  {
    var final := Final(id, s.admitted[id].cls);
    PanickedEnds(s, id);
    if !Finished(s, id) {
      if id != s.lane.running.value.id {
        assert s.lane.queued[id - s.lane.running.value.id - 1] in s.lane.queued;
      }
      assert InFlight(s, id);
      assert final !in s.pushed;
      assert forall p :: p in s.applied ==> p in s.pushed;
    } else if !s.admitted[id].panics {
      FinishedScan(s, id);
    } else {
      assert final !in s.pushed;
      assert forall p :: p in s.applied ==> p in s.pushed;
    }
  }

  lemma FinishedScan(s: State, id: JobId)
    requires Inv(s) && id < |s.admitted| && Finished(s, id) && !s.admitted[id].panics
    ensures InFlight(s, id) <==> Final(id, s.admitted[id].cls) !in s.applied
  {
    var final := Final(id, s.admitted[id].cls);
    PanickedEnds(s, id);
    PushedIsSplit(s.pushed, s.applied, s.batch + s.queue, final);
    if final in s.applied {
      var i :| 0 <= i < |s.applied| && s.applied[i] == final;
      AppliedHasLeft(s, id, i);
    }
  }

  lemma PushedIsSplit(pushed: seq<Post>, applied: seq<Post>, rest: seq<Post>, p: Post)
    requires pushed == applied + rest && p in pushed
    ensures p in applied || p in rest
  {
  }

  /** A result that was applied is in no queue. */
  lemma AppliedHasLeft(s: State, id: JobId, i: nat)
    requires Inv(s) && id < |s.admitted| && i < |s.applied| && s.pushed[i] == Final(id, s.admitted[id].cls)
    ensures forall p | p in s.batch + s.queue && p.Final? :: p.id != id
  {
    forall p | p in s.batch + s.queue && p.Final?
      ensures p.id != id
    {
      var j :| 0 <= j < |s.batch + s.queue| && (s.batch + s.queue)[j] == p;
      assert s.pushed[|s.applied| + j] == p;
      assert p in s.pushed;
    }
  }

  ghost function InFlightOf(s: State, cls: ScanClass): set<JobId> {
    set i | 0 <= i < |s.admitted| && s.admitted[i].cls == cls && InFlight(s, i)
  }

  lemma InFlightCount(s: State, cls: ScanClass)
    requires Inv(s)
    ensures InFlightOf(s, cls) == Unapplied(s, cls)
  {
    forall i | 0 <= i < |s.admitted|
      ensures InFlight(s, i) <==> Final(i, s.admitted[i].cls) !in s.applied
    {
      UnappliedIsInFlight(s, i);
    }
  }

  /**
   The gate is balanced: between UI callbacks each count is the number of scans of its class
   still queued, scanning, posted but unapplied, or dead of a panic; the flag says whether
   there is such a wallet-stores scan, and there is never more than one of it or of the
   spending scan.
   */
  lemma GateBalanced(s: State)
    requires Reachable(s) && s.ui.AtRest?
    ensures s.gate.notebook == |InFlightOf(s, Notebook)|
    ensures s.gate.spending == |InFlightOf(s, Spending)| <= 1
    ensures (if s.gate.walletStores then 1 else 0) == |InFlightOf(s, WalletStores)| <= 1
  {
    ReachableInv(s);
    InFlightCount(s, Notebook);
    InFlightCount(s, Spending);
    InFlightCount(s, WalletStores);
  }

  /** Between UI callbacks, Sign is allowed exactly when no admitted notebook, spending or
      wallet-stores scan is in flight. */
  lemma SignAllowedIffNothingInFlight(s: State)
    requires Reachable(s) && s.ui.AtRest?
    ensures !s.signBlocked <==>
            forall i | 0 <= i < |s.admitted| && !s.admitted[i].cls.Discovery? :: !InFlight(s, i)
  {
    ReachableInv(s);
    GateBalanced(s);
    if s.signBlocked {
      var cls := if s.gate.notebook > 0 then Notebook else if s.gate.spending > 0 then Spending else WalletStores;
      assert |InFlightOf(s, cls)| > 0;
      var i :| i in InFlightOf(s, cls);
    } else {
      forall i | 0 <= i < |s.admitted| && !s.admitted[i].cls.Discovery?
        ensures !InFlight(s, i)
      {
        assert |InFlightOf(s, s.admitted[i].cls)| == 0;
        assert i !in InFlightOf(s, s.admitted[i].cls);
      }
    }
  }

  /** No drain ever meets an empty counter or a cleared flag, even when the worker posted its
      result before the submitter had raised the gate; and but for such drains and the
      submitter's raise, no step of any thread moves the gate. */
  lemma DrainNeverUnderflows(s: State, step: Step)
    requires Reachable(s) && Enabled(s, step)
    ensures step.ApplyNext? && s.batch[0].Final? ==>
              match s.batch[0].cls
              case Notebook => s.gate.notebook > 0
              case Spending => s.gate.spending > 0
              case WalletStores => s.gate.walletStores
              case Discovery => true
    ensures !step.RaiseGate? && !(step.ApplyNext? && s.batch[0].Final?) ==> After(s, step).gate == s.gate
  {
    if step.ApplyNext? && s.batch[0].Final? {
      ReachableInv(s);
      ApplyTakesOne(s);
      assert |Unapplied(s, s.batch[0].cls)| > 0;
    }
  }

  /** Nothing runs and nothing waits to be applied. */
  ghost predicate Quiescent(s: State) {
    s.ui.AtRest? && s.lane.running.None? && s.queue == []
  }

  /** The gate reopens after every scan is done if and only if no gated scan panicked. */
  lemma GateReopensIffNoPanic(s: State)
    requires Reachable(s) && Quiescent(s)
    ensures s.signBlocked <==>
            exists i :: 0 <= i < |s.admitted| && !s.admitted[i].cls.Discovery? && s.admitted[i].panics
  {
    ReachableInv(s);
    SignAllowedIffNothingInFlight(s);
    forall i | 0 <= i < |s.admitted|
      ensures InFlight(s, i) <==> s.admitted[i].panics
    {
      PanickedEnds(s, i);
    }
  }

  // ----- Posts -----

  lemma {:induction false} LanePostsConcat(a: seq<Post>, b: seq<Post>)
    ensures LanePosts(a + b) == LanePosts(a) + LanePosts(b)
  {
    if b == [] {
      assert a + b == a;
    } else {
      var b' := b[..|b| - 1];
      LanePostsConcat(a, b');
      assert b == b' + [b[|b| - 1]];
      assert a + b == (a + b') + [b[|b| - 1]];
      LanePostsAppend(a + b', b[|b| - 1]);
      LanePostsAppend(b', b[|b| - 1]);
    }
  }

  lemma {:induction false} PagesPrefix(id: JobId, m: nat, n: nat)
    requires m <= n
    ensures Pages(id, m) <= Pages(id, n)
  {
    if m < n {
      PagesPrefix(id, m, n - 1);
    }
  }

  lemma {:induction false} TracesPrefix(admitted: seq<Job>, m: nat, n: nat)
    requires m <= n <= |admitted|
    ensures Traces(admitted, m) <= Traces(admitted, n)
  {
    if m < n {
      TracesPrefix(admitted, m, n - 1);
    }
  }

  /**
   Posts are applied once each in the order they were pushed: what has been applied, what the
   UI thread holds and what is queued make up everything pushed, in order. Restricted to lane
   jobs, what has been applied is an initial part of the jobs' traces laid end to end in
   admission order: job by job, the pages of a scan in order and before its final result.
   */
  lemma AppliedInOrder(s: State)
    requires Reachable(s)
    ensures s.pushed == s.applied + s.batch + s.queue
    ensures LanePosts(s.applied) <= Traces(s.admitted, |s.admitted|)
    ensures Quiescent(s) ==> s.applied == s.pushed && LanePosts(s.applied) == Traces(s.admitted, |s.admitted|)
  {
    ReachablePosts(s);
    AppliedOfPushed(s);
    PushedInOrder(s);
  }

  lemma ReachablePosts(s: State)
    requires Reachable(s)
    ensures LaneInv(s) && UiInv(s) && PostInv(s)
  {
    ReachableInv(s);
  }

  lemma AppliedOfPushed(s: State)
    requires s.pushed == s.applied + s.batch + s.queue
    ensures LanePosts(s.applied) <= LanePosts(s.pushed)
  {
    assert s.pushed == s.applied + (s.batch + s.queue);
    LanePostsConcat(s.applied, s.batch + s.queue);
  }

  lemma PushedInOrder(s: State)
    requires LaneInv(s) && PostInv(s)
    ensures LanePosts(s.pushed) <= Traces(s.admitted, |s.admitted|)
    ensures s.lane.running.None? ==> LanePosts(s.pushed) == Traces(s.admitted, |s.admitted|)
  {
    if s.lane.running.Some? {
      var id := Own(s).ticket.id;
      ProgressPrefix(Own(s));
      TracesPrefix(s.admitted, id + 1, |s.admitted|);
      PrefixExtends(Traces(s.admitted, id), Progress(Own(s)),
                    Trace(id, s.admitted[id]), Traces(s.admitted, |s.admitted|));
    }
  }

  lemma PrefixExtends(done: seq<Post>, some: seq<Post>, more: seq<Post>, all: seq<Post>)
    requires some <= more && done + more <= all
    ensures done + some <= all
  {
    assert done + some <= done + more;
  }

  lemma ProgressPrefix(k: Worker)
    requires PhaseFits(k)
    ensures Progress(k) <= Trace(k.ticket.id, k.job)
  {
    if k.phase.Working? || k.phase.Scheduling? {
      PagesPrefix(k.ticket.id, k.phase.posted, k.job.pages);
    }
  }

  /** No post is stranded: while one is queued, a callback is scheduled, or a thread is
      between its push and its scheduling. */
  lemma NoPostStranded(s: State)
    requires Reachable(s) && s.queue != []
    ensures || s.callbacks > 0 || s.posters > 0 || s.ui.ScheduleDue?
            || (exists w :: w in s.workers && s.workers[w].phase.Scheduling?)
  {
    ReachableInv(s);
    if s.lastWorker in s.workers && Own(s).phase.Scheduling? {
      assert s.workers[s.lastWorker].phase.Scheduling?;
    }
  }
}
