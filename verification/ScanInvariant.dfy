/**
 What every step of the scan system keeps. The invariant comes in eight parts, each with its
 own preservation lemmas; `ScanTheorems` draws the conclusions.

 - `LaneInv`: the job map holds the queued jobs, and one worker holds the running one.
 - `UiInv`: a worker is unspawned only while its submitter is about to start it.
 - `LogInv`: jobs have run one by one, in the order of their admission.
 - `PostInv`: what was pushed is what was applied, then the batch, then the queue, and what
   lane jobs pushed is their traces in order.
 - `NotStranded`: a queued post has a callback coming.
 - `FinalInv`: every job that finished without a panic has posted one final result.
 - `GateInv`: the gate counts the admitted scans whose result is not applied.
 - `FreshInv`: every submission has been served since, or is waiting.
 */
module ScanInvariant {
  import opened Options
  import opened Netq
  import opened Gate
  import opened ScanSystem

  // ----- The lane, its job map and its one worker -----

  ghost predicate PhaseFits(k: Worker) {
    match k.phase
    case Working(posted) => posted <= k.job.pages
    case Scheduling(posted, last) => if last then posted == k.job.pages && !k.job.panics else 1 <= posted <= k.job.pages
    case _ => true
  }

  /** The worker last spawned is the only one there is, and it holds the lane's running job. */
  ghost predicate OneWorker(s: State) {
    && (forall w :: w in s.workers <==> w == s.lastWorker)
    && s.lane.running == Some(Own(s).ticket)
    && Own(s).ticket.id < |s.admitted|
    && Own(s).job == s.admitted[Own(s).ticket.id]
    && PhaseFits(Own(s))
  }

  ghost function Own(s: State): Worker
    requires s.lastWorker in s.workers
  {
    s.workers[s.lastWorker]
  }

  /** What the lane mutex guards: every queued id has its closure in the map, and nothing
      else has; ids index the list of admitted jobs. */
  ghost predicate Paired(lane: LaneView, jobs: map<JobId, Job>, admitted: seq<Job>) {
    && WellFormed(lane)
    && lane.nextId == |admitted|
    && (lane.running.Some? ==> lane.running.value.key == admitted[lane.running.value.id].key)
    && (forall t | t in lane.queued :: t.id < |admitted| && t.key == admitted[t.id].key)
    && (forall i :: i in jobs <==> lane.running.Some? && lane.running.value.id < i < |admitted|)
    && (forall i | i in jobs :: jobs[i] == admitted[i])
  }

  ghost predicate LaneInv(s: State) {
    && Paired(s.lane, s.jobs, s.admitted)
    && (s.lane.running.None? ==> forall w :: w !in s.workers)
    && (s.lane.running.Some? ==> OneWorker(s))
  }

  /** A worker is unspawned exactly while its submitter is about to start it, and the UI
      thread rests with no batch in hand. */
  ghost predicate UiInv(s: State) {
    && (s.ui.SpawnDue? ==> s.ui.worker == s.lastWorker && s.lastWorker in s.workers && Own(s).phase.Unspawned?)
    && (s.lastWorker in s.workers && Own(s).phase.Unspawned? ==> s.ui.SpawnDue?)
    && (s.ui.AtRest? ==> s.batch == [])
  }

  // ----- The run log -----

  /** The begin and end events of a log, in order. */
  ghost function Runs(log: seq<Event>): seq<Event> {
    if log == [] then []
    else Runs(log[..|log| - 1]) + (if log[|log| - 1].Submitted? then [] else [log[|log| - 1]])
  }

  lemma RunsAppend(log: seq<Event>, e: Event)
    ensures Runs(log + [e]) == Runs(log) + (if e.Submitted? then [] else [e])
  {
    assert (log + [e])[..|log|] == log;
  }

  /** Jobs 0 to n-1 one after another, each beginning and ending before the next. */
  ghost function OneByOne(admitted: seq<Job>, n: nat): seq<Event>
    requires n <= |admitted|
  {
    if n == 0 then [] else OneByOne(admitted, n - 1) + [Began(n - 1), Ended(n - 1, admitted[n - 1].panics)]
  }

  lemma {:induction false} OneByOneGrows(admitted: seq<Job>, job: Job, n: nat)
    requires n <= |admitted|
    ensures OneByOne(admitted + [job], n) == OneByOne(admitted, n)
  {
    if n > 0 {
      OneByOneGrows(admitted, job, n - 1);
    }
  }

  ghost function RunTail(k: Worker): seq<Event> {
    match k.phase
    case Unspawned => []
    case Returned => [Began(k.ticket.id), Ended(k.ticket.id, k.job.panics)]
    case _ => [Began(k.ticket.id)]
  }

  ghost predicate LogInv(s: State) {
    && (s.lane.running.None? ==> Runs(s.log) == OneByOne(s.admitted, |s.admitted|))
    && (s.lane.running.Some? ==>
          && s.lastWorker in s.workers && Own(s).ticket.id < |s.admitted|
          && Runs(s.log) == OneByOne(s.admitted, Own(s).ticket.id) + RunTail(Own(s)))
  }

  // ----- Posts -----

  /** The posts made by lane jobs. */
  ghost function LanePosts(posts: seq<Post>): seq<Post> {
    if posts == [] then []
    else LanePosts(posts[..|posts| - 1]) + (if posts[|posts| - 1].Other? then [] else [posts[|posts| - 1]])
  }

  lemma LanePostsAppend(posts: seq<Post>, p: Post)
    ensures LanePosts(posts + [p]) == LanePosts(posts) + (if p.Other? then [] else [p])
  {
    assert (posts + [p])[..|posts|] == posts;
  }

  ghost function Pages(id: JobId, n: nat): seq<Post> {
    if n == 0 then [] else Pages(id, n - 1) + [Page(id, n)]
  }

  /** Everything one job posts: its pages in order, then its final result unless it panics. */
  ghost function Trace(id: JobId, job: Job): seq<Post> {
    Pages(id, job.pages) + (if job.panics then [] else [Final(id, job.cls)])
  }

  ghost function Traces(admitted: seq<Job>, n: nat): seq<Post>
    requires n <= |admitted|
  {
    if n == 0 then [] else Traces(admitted, n - 1) + Trace(n - 1, admitted[n - 1])
  }

  lemma {:induction false} TracesGrow(admitted: seq<Job>, job: Job, n: nat)
    requires n <= |admitted|
    ensures Traces(admitted + [job], n) == Traces(admitted, n)
  {
    if n > 0 {
      TracesGrow(admitted, job, n - 1);
    }
  }

  /** What the running job has posted so far. */
  ghost function Progress(k: Worker): seq<Post> {
    match k.phase
    case Unspawned => []
    case Working(posted) => Pages(k.ticket.id, posted)
    case Scheduling(posted, last) => if last then Trace(k.ticket.id, k.job) else Pages(k.ticket.id, posted)
    case Returned => Trace(k.ticket.id, k.job)
  }

  ghost predicate PostInv(s: State) {
    && s.pushed == s.applied + s.batch + s.queue
    && (s.lane.running.None? ==> LanePosts(s.pushed) == Traces(s.admitted, |s.admitted|))
    && (s.lane.running.Some? ==>
          && s.lastWorker in s.workers && Own(s).ticket.id < |s.admitted|
          && LanePosts(s.pushed) == Traces(s.admitted, Own(s).ticket.id) + Progress(Own(s)))
  }

  /** A post is in the queue only while a callback is scheduled or its poster is between
      the push and the scheduling. */
  ghost predicate NotStranded(s: State) {
    s.queue != [] ==>
      || s.callbacks > 0 || s.posters > 0 || s.ui.ScheduleDue?
      || (s.lastWorker in s.workers && Own(s).phase.Scheduling?)
  }

  // ----- Final results -----

  ghost predicate FinalOut(phase: Phase) {
    phase.Returned? || (phase.Scheduling? && phase.last)
  }

  /** `id`'s job has posted its last post. */
  ghost predicate Finished(s: State, id: JobId) {
    && id < |s.admitted|
    && (s.lane.running.Some? ==>
          id < s.lane.running.value.id
          || (id == s.lane.running.value.id && s.lastWorker in s.workers && FinalOut(Own(s).phase)))
  }

  ghost predicate FinalInv(s: State) {
    FinalsFinished(s) && FinalsOnce(s.pushed) && FinishedPosted(s)
  }

  /** A final result comes from a job that has posted its last and did not panic. */
  ghost predicate FinalsFinished(s: State) {
    forall p | p in s.pushed && p.Final? ::
      Finished(s, p.id) && p.cls == s.admitted[p.id].cls && !s.admitted[p.id].panics
  }

  ghost predicate FinalsOnce(pushed: seq<Post>) {
    forall a, b | 0 <= a < b < |pushed| && pushed[a].Final? :: pushed[a] != pushed[b]
  }

  ghost predicate FinishedPosted(s: State) {
    forall id | 0 <= id < |s.admitted| && Finished(s, id) && !s.admitted[id].panics ::
      Final(id, s.admitted[id].cls) in s.pushed
  }

  // ----- The gate -----

  /** The admitted scans of a class whose final result has not been applied. */
  ghost function Unapplied(s: State, cls: ScanClass): set<JobId> {
    Pending(s.admitted, s.applied, cls)
  }

  ghost function Pending(admitted: seq<Job>, applied: seq<Post>, cls: ScanClass): set<JobId> {
    set i | 0 <= i < |admitted| && admitted[i].cls == cls && Final(i, cls) !in applied
  }

  /** Admitted, but the submitter has not raised the gate yet. */
  ghost function Owed(s: State, cls: ScanClass): nat {
    if (s.ui.SpawnDue? && s.ui.cls == cls) || (s.ui.GateDue? && s.ui.owed == cls) then 1 else 0
  }

  ghost predicate GateInv(s: State) {
    && s.gate.notebook + Owed(s, Notebook) == |Unapplied(s, Notebook)|
    && s.gate.spending + Owed(s, Spending) == |Unapplied(s, Spending)| <= 1
    && (if s.gate.walletStores then 1 else 0) + Owed(s, WalletStores) == |Unapplied(s, WalletStores)| <= 1
    && s.signBlocked == Busy(s.gate)
  }

  // ----- Freshness -----

  /** A job under `key` began after position `t` of the log. */
  ghost predicate Served(s: State, key: string, t: nat) {
    exists u :: t < u < |s.log| && s.log[u].Began? && s.log[u].id < |s.admitted| && s.admitted[s.log[u].id].key == key
  }

  /** A job under `key` is in the lane and has not begun. */
  ghost predicate Waiting(s: State, key: string) {
    || KeyQueued(s.lane.queued, key)
    || (s.lastWorker in s.workers && Own(s).phase.Unspawned? && Own(s).ticket.key == key)
  }

  ghost predicate FreshInv(s: State) {
    forall t | 0 <= t < |s.log| && s.log[t].Submitted? :: Served(s, s.log[t].key, t) || Waiting(s, s.log[t].key)
  }

  ghost predicate Inv(s: State) {
    && LaneInv(s) && UiInv(s) && LogInv(s) && PostInv(s) && NotStranded(s)
    && FinalInv(s) && GateInv(s) && FreshInv(s)
  }

  // ----- Preservation -----

  lemma StartInv()
    ensures Inv(START)
  {
    StartLane();
    StartGate();
  }

  lemma StartLane()
    ensures LaneInv(START) && UiInv(START) && LogInv(START) && PostInv(START) && NotStranded(START)
  {
  }

  lemma StartGate()
    ensures FinalInv(START) && GateInv(START) && FreshInv(START)
  {
    assert Unapplied(START, Notebook) == {} == Unapplied(START, Spending) == Unapplied(START, WalletStores);
  }

  /** Admitting a job keeps the map paired with the queue. */
  lemma SubmitKeepsPaired(lane: LaneView, jobs: map<JobId, Job>, admitted: seq<Job>, job: Job)
    requires Paired(lane, jobs, admitted)
    ensures var (lane', jobs', answer) := SubmitRegion(lane, jobs, job);
            Paired(lane', jobs', if answer.Coalesced? then admitted else admitted + [job])
  {
    EventKeepsWellFormed(lane, Kick(job.key));
  }

  /** Completing the running job promotes the queue head, whose closure is always there. */
  lemma TakeoverKeepsPaired(lane: LaneView, jobs: map<JobId, Job>, admitted: seq<Job>)
    requires Paired(lane, jobs, admitted) && lane.running.Some?
    ensures var id := lane.running.value.id;
            var (lane', jobs', next) := TakeoverRegion(lane, jobs, id);
            && Paired(lane', jobs', admitted)
            && (if id + 1 == |admitted| then lane'.running.None? && next == Exit
                else next == Next(Ticket(id + 1, admitted[id + 1].key), admitted[id + 1])
                     && lane'.running == Some(next.ticket))
  {
    EventKeepsWellFormed(lane, Done);
    if lane.queued != [] {
      assert lane.queued[0] in lane.queued;
    }
  }

  /** Steps of the UI thread and of other posters that leave lane and workers alone. */
  predicate Quiet(step: Step) {
    step.UserEvent? || step.ApplyPending? || step.ApplyNext? || step.Return? || step.RaiseGate?
    || step.UiPost? || step.UiSchedule? || step.OtherPost? || step.OtherSchedule?
  }

  lemma QuietStep(s: State, step: Step)
    requires Enabled(s, step) && Quiet(step)
    ensures var s' := After(s, step);
            && s'.lane == s.lane && s'.jobs == s.jobs && s'.workers == s.workers && s'.lastWorker == s.lastWorker
            && s'.admitted == s.admitted && s'.log == s.log
            && LanePosts(s'.pushed) == LanePosts(s.pushed)
            && (s'.pushed == s.pushed || exists tag :: s'.pushed == s.pushed + [Other(tag)])
  {
    match step {
      case UiPost(tag) => LanePostsAppend(s.pushed, Other(tag));
      case OtherPost(tag) => LanePostsAppend(s.pushed, Other(tag));
      case _ =>
    }
  }

  /** Steps that only move the one worker from one phase to the next. */
  predicate ChangesPhase(step: Step) {
    step.Spawn? || step.WorkerPost? || step.WorkerSchedule? || step.WorkerPanic?
  }

  /** The one worker moves from one phase to the next; nothing else of the lane changes. */
  lemma PhaseStep(s: State, step: Step)
    requires LaneInv(s) && UiInv(s) && Enabled(s, step)
    requires ChangesPhase(step)
    ensures PhaseMoved(s, After(s, step))
  {
    if step.Spawn? {
      OwnIsOnly(s, s.ui.worker);
      SpawnMoves(s);
    } else {
      OwnIsOnly(s, step.w);
      match step {
        case WorkerPost(w) => WorkerPostMoves(s, w);
        case WorkerSchedule(w) => ScheduleMoves(s, w);
        case WorkerPanic(w) => PanicMoves(s, w);
      }
    }
  }

  ghost predicate PhaseMoved(s: State, s': State) {
    && s'.lane == s.lane && s'.jobs == s.jobs && s'.lastWorker == s.lastWorker && s'.admitted == s.admitted
    && s.lastWorker in s.workers && s.lastWorker in s'.workers
    && s'.workers == s.workers[s.lastWorker := Own(s).(phase := Own(s').phase)]
    && PhaseFits(Own(s'))
  }

  lemma OwnIsOnly(s: State, w: JobId)
    requires LaneInv(s) && w in s.workers
    ensures w == s.lastWorker && s.lane.running == Some(Own(s).ticket) && PhaseFits(Own(s))
  {
  }

  lemma SpawnMoves(s: State)
    requires s.lastWorker in s.workers && Enabled(s, Spawn) && s.ui.worker == s.lastWorker
    ensures PhaseMoved(s, After(s, Spawn))
  {
  }

  lemma WorkerPostMoves(s: State, w: JobId)
    requires s.lastWorker in s.workers && Enabled(s, WorkerPost(w)) && w == s.lastWorker && PhaseFits(Own(s))
    ensures PhaseMoved(s, After(s, WorkerPost(w)))
  {
  }

  lemma ScheduleMoves(s: State, w: JobId)
    requires s.lastWorker in s.workers && Enabled(s, WorkerSchedule(w)) && w == s.lastWorker && PhaseFits(Own(s))
    ensures PhaseMoved(s, After(s, WorkerSchedule(w)))
  {
  }

  lemma PanicMoves(s: State, w: JobId)
    requires s.lastWorker in s.workers && Enabled(s, WorkerPanic(w)) && w == s.lastWorker && PhaseFits(Own(s))
    ensures PhaseMoved(s, After(s, WorkerPanic(w)))
  {
  }

  lemma LaneSubmit(s: State, job: Job)
    requires LaneInv(s) && UiInv(s) && Enabled(s, Submit(job))
    ensures LaneInv(After(s, Submit(job)))
  {
    SubmitKeepsPaired(s.lane, s.jobs, s.admitted, job);
  }

  lemma LaneQuiet(s: State, step: Step)
    requires LaneInv(s) && LogInv(s) && Enabled(s, step) && Quiet(step)
    ensures LaneInv(After(s, step)) && LogInv(After(s, step))
  {
    QuietStep(s, step);
  }

  lemma LanePhase(s: State, step: Step)
    requires LaneInv(s) && UiInv(s) && NotStranded(s) && Enabled(s, step)
    requires ChangesPhase(step)
    ensures LaneInv(After(s, step)) && NotStranded(After(s, step))
  {
    PhaseStep(s, step);
  }

  lemma LaneTakeover(s: State, w: JobId)
    requires LaneInv(s) && Enabled(s, WorkerTakeover(w))
    ensures LaneInv(After(s, WorkerTakeover(w)))
    ensures w == s.lastWorker && s.lane.running == Some(s.workers[w].ticket)
    ensures !TakeoverRegion(s.lane, s.jobs, s.workers[w].ticket.id).2.Lost?
  {
    TakeoverKeepsPaired(s.lane, s.jobs, s.admitted);
  }

  lemma UiTakeover(s: State, w: JobId)
    requires LaneInv(s) && UiInv(s) && NotStranded(s) && Enabled(s, WorkerTakeover(w))
    ensures UiInv(After(s, WorkerTakeover(w))) && NotStranded(After(s, WorkerTakeover(w)))
  {
    OwnIsOnly(s, w);
    TakeoverKeepsPaired(s.lane, s.jobs, s.admitted);
  }

  lemma UiQuiet(s: State, step: Step)
    requires UiInv(s) && Enabled(s, step) && Quiet(step)
    ensures UiInv(After(s, step))
  {
    QuietStep(s, step);
  }

  lemma UiPhase(s: State, step: Step)
    requires LaneInv(s) && UiInv(s) && Enabled(s, step)
    requires ChangesPhase(step)
    ensures UiInv(After(s, step))
  {
    PhaseStep(s, step);
  }

  lemma UiSubmit(s: State, job: Job)
    requires LaneInv(s) && UiInv(s) && Enabled(s, Submit(job))
    ensures UiInv(After(s, Submit(job)))
  {
  }

  /** What a phase change of the running job logs. */
  ghost function PhaseEvents(s: State, step: Step): seq<Event>
    requires s.lastWorker in s.workers
  {
    var k := Own(s);
    if step.Spawn? then [Began(k.ticket.id)]
    else if step.WorkerPanic? then [Ended(k.ticket.id, true)]
    else if step.WorkerSchedule? && k.phase.Scheduling? && k.phase.last then [Ended(k.ticket.id, false)]
    else []
  }

  lemma LogPhase(s: State, step: Step)
    requires LaneInv(s) && UiInv(s) && LogInv(s) && Enabled(s, step)
    requires ChangesPhase(step)
    ensures LogInv(After(s, step))
  {
    PhaseStep(s, step);
    PhaseLogged(s, step);
    PhaseTail(s, step);
    LogExtends(s, After(s, step), PhaseEvents(s, step));
  }

  /** The log and the running job's own events grow alike. */
  lemma LogExtends(s: State, s': State, more: seq<Event>)
    requires LaneInv(s) && LaneInv(s') && LogInv(s) && s.lane.running.Some?
    requires s'.lane == s.lane && s'.admitted == s.admitted && Own(s').ticket == Own(s).ticket
    requires s'.log == s.log + more && RunTail(Own(s')) == RunTail(Own(s)) + more
    requires |more| <= 1 && forall e | e in more :: !e.Submitted?
    ensures LogInv(s')
  {
    var done, tail := OneByOne(s.admitted, Own(s).ticket.id), RunTail(Own(s));
    assert done + (tail + more) == (done + tail) + more;
    if |more| == 1 {
      RunsAppend(s.log, more[0]);
      assert more == [more[0]];
    } else {
      assert s'.log == s.log && done + tail + more == done + tail;
    }
  }

  lemma PhaseLogged(s: State, step: Step)
    requires LaneInv(s) && UiInv(s) && Enabled(s, step)
    requires ChangesPhase(step)
    ensures s.lastWorker in s.workers && After(s, step).log == s.log + PhaseEvents(s, step)
  {
  }

  lemma PhaseTail(s: State, step: Step)
    requires LaneInv(s) && UiInv(s) && Enabled(s, step)
    requires ChangesPhase(step)
    ensures var s' := After(s, step);
            && s.lastWorker in s.workers && s'.lastWorker in s'.workers
            && RunTail(Own(s')) == RunTail(Own(s)) + PhaseEvents(s, step)
  {
  }

  lemma LogSubmit(s: State, job: Job)
    requires LaneInv(s) && LogInv(s) && Enabled(s, Submit(job))
    ensures LogInv(After(s, Submit(job)))
  {
    RunsAppend(s.log, Submitted(job.key, SubmitRegion(s.lane, s.jobs, job).2));
    OneByOneGrows(s.admitted, job, |s.admitted|);
    if s.lane.running.Some? {
      OneByOneGrows(s.admitted, job, Own(s).ticket.id);
    }
  }

  lemma LogTakeover(s: State, w: JobId)
    requires LaneInv(s) && LogInv(s) && Enabled(s, WorkerTakeover(w))
    ensures LogInv(After(s, WorkerTakeover(w)))
  {
    TakeoverLogged(s, w);
    RunsAppend(s.log, Began(Own(s).ticket.id + 1));
    JobLogged(s.admitted, Own(s));
  }

  lemma TakeoverLogged(s: State, w: JobId)
    requires LaneInv(s) && Enabled(s, WorkerTakeover(w))
    ensures var s', id := After(s, WorkerTakeover(w)), Own(s).ticket.id;
            && s'.admitted == s.admitted && s.lane.running.Some? && Own(s).phase.Returned?
            && (if s'.lane.running.None? then id + 1 == |s.admitted| && s'.log == s.log
                else && s'.lastWorker in s'.workers && Own(s').ticket.id == id + 1
                     && RunTail(Own(s')) == [Began(id + 1)]
                     && s'.log == s.log + [Began(id + 1)])
  {
    TakeoverKeepsPaired(s.lane, s.jobs, s.admitted);
  }

  lemma JobLogged(admitted: seq<Job>, k: Worker)
    requires k.phase.Returned? && k.ticket.id < |admitted| && k.job == admitted[k.ticket.id]
    ensures OneByOne(admitted, k.ticket.id + 1) == OneByOne(admitted, k.ticket.id) + RunTail(k)
  {
  }

  lemma JobTraced(admitted: seq<Job>, k: Worker)
    requires k.phase.Returned? && k.ticket.id < |admitted| && k.job == admitted[k.ticket.id]
    ensures Traces(admitted, k.ticket.id + 1) == Traces(admitted, k.ticket.id) + Progress(k)
  {
  }

  lemma PostPhase(s: State, step: Step)
    requires LaneInv(s) && UiInv(s) && PostInv(s) && Enabled(s, step)
    requires step.Spawn? || step.WorkerSchedule? || step.WorkerPanic?
    ensures PostInv(After(s, step))
  {
    PhaseStep(s, step);
    assert Progress(Own(After(s, step))) == Progress(Own(s));
  }

  lemma PostQuiet(s: State, step: Step)
    requires LaneInv(s) && UiInv(s) && PostInv(s) && Enabled(s, step) && Quiet(step)
    ensures PostInv(After(s, step))
  {
    QuietStep(s, step);
    QuietQueues(s, step);
  }

  lemma QuietQueues(s: State, step: Step)
    requires UiInv(s) && s.pushed == s.applied + s.batch + s.queue && Enabled(s, step) && Quiet(step)
    ensures var s' := After(s, step);
            s'.pushed == s'.applied + s'.batch + s'.queue
  {
    match step {
      case UiPost(tag) => assert s.pushed + [Other(tag)] == s.applied + s.batch + (s.queue + [Other(tag)]);
      case OtherPost(tag) => assert s.pushed + [Other(tag)] == s.applied + s.batch + (s.queue + [Other(tag)]);
      case ApplyNext => assert s.applied + s.batch == s.applied + [s.batch[0]] + s.batch[1..];
      case ApplyPending => assert s.applied + [] + s.queue == s.applied + s.queue + [];
      case _ =>
    }
  }

  lemma PostSubmit(s: State, job: Job)
    requires LaneInv(s) && PostInv(s) && Enabled(s, Submit(job))
    ensures PostInv(After(s, Submit(job)))
  {
    TracesGrow(s.admitted, job, |s.admitted|);
    if s.lane.running.Some? {
      TracesGrow(s.admitted, job, Own(s).ticket.id);
    }
  }

  lemma PostTakeover(s: State, w: JobId)
    requires LaneInv(s) && PostInv(s) && Enabled(s, WorkerTakeover(w))
    ensures PostInv(After(s, WorkerTakeover(w)))
  {
    TakeoverPostsNothing(s, w);
    JobTraced(s.admitted, Own(s));
  }

  lemma TakeoverPostsNothing(s: State, w: JobId)
    requires LaneInv(s) && Enabled(s, WorkerTakeover(w))
    ensures var s' := After(s, WorkerTakeover(w));
            && s'.pushed == s.pushed && s'.applied == s.applied && s'.batch == s.batch && s'.queue == s.queue
            && s'.admitted == s.admitted && s.lane.running.Some?
            && (if s'.lane.running.None? then Own(s).ticket.id + 1 == |s.admitted|
                else s'.lastWorker in s'.workers && Own(s').ticket.id == Own(s).ticket.id + 1
                     && Progress(Own(s')) == [])
  {
    TakeoverKeepsPaired(s.lane, s.jobs, s.admitted);
  }

  lemma PostWorkerPost(s: State, w: JobId)
    requires LaneInv(s) && PostInv(s) && Enabled(s, WorkerPost(w))
    ensures PostInv(After(s, WorkerPost(w)))
  {
    var s' := After(s, WorkerPost(w));
    var p := WorkerPosts(s, w);
    LanePostsAppend(s.pushed, p);
    assert s'.pushed == s'.applied + s'.batch + s'.queue by {
      assert s.applied + s.batch + s.queue + [p] == s.applied + s.batch + (s.queue + [p]);
    }
    var before := Traces(s.admitted, Own(s).ticket.id);
    assert before + (Progress(Own(s)) + [p]) == before + Progress(Own(s)) + [p];
  }

  /** A worker's post is the next one of its job's trace. */
  lemma WorkerPosts(s: State, w: JobId) returns (p: Post)
    requires LaneInv(s) && Enabled(s, WorkerPost(w))
    ensures var s' := After(s, WorkerPost(w));
            && w == s.lastWorker && s'.lastWorker == w && w in s'.workers && !p.Other?
            && s'.pushed == s.pushed + [p] && s'.queue == s.queue + [p] && s'.lane == s.lane
            && s'.applied == s.applied && s'.batch == s.batch && s'.admitted == s.admitted
            && Own(s').ticket == Own(s).ticket && Progress(Own(s')) == Progress(Own(s)) + [p]
  {
    var s' := After(s, WorkerPost(w));
    p := s'.pushed[|s.pushed|];
  }

  lemma StrandQuiet(s: State, step: Step)
    requires NotStranded(s) && Enabled(s, step) && Quiet(step)
    ensures NotStranded(After(s, step))
  {
    QuietStep(s, step);
  }

  lemma StrandSubmit(s: State, job: Job)
    requires LaneInv(s) && NotStranded(s) && Enabled(s, Submit(job))
    ensures NotStranded(After(s, Submit(job)))
  {
  }

  lemma FinalPhase(s: State, step: Step)
    requires LaneInv(s) && UiInv(s) && FinalInv(s) && Enabled(s, step)
    requires step.Spawn? || step.WorkerSchedule? || step.WorkerPanic?
    ensures FinalInv(After(s, step))
  {
    FinishedPhase(s, step);
    SameFinals(s, After(s, step));
  }

  /** No such step posts anything or finishes a job, unless the job panics. */
  lemma FinishedPhase(s: State, step: Step)
    requires LaneInv(s) && UiInv(s) && Enabled(s, step)
    requires step.Spawn? || step.WorkerSchedule? || step.WorkerPanic?
    ensures var s' := After(s, step);
            && s'.pushed == s.pushed && s'.admitted == s.admitted
            && (forall id | Finished(s, id) :: Finished(s', id))
            && (forall id: JobId | Finished(s', id) && !s.admitted[id].panics :: Finished(s, id))
  {
    PhaseStep(s, step);
  }

  lemma SameFinals(s: State, s': State)
    requires FinalInv(s) && s'.pushed == s.pushed && s'.admitted == s.admitted
    requires forall id | Finished(s, id) :: Finished(s', id)
    requires forall id: JobId | Finished(s', id) && !s.admitted[id].panics :: Finished(s, id)
    ensures FinalInv(s')
  {
  }

  lemma FinalQuiet(s: State, step: Step)
    requires LaneInv(s) && UiInv(s) && FinalInv(s) && Enabled(s, step) && Quiet(step)
    ensures FinalInv(After(s, step))
  {
    QuietStep(s, step);
    var s' := After(s, step);
    assert forall id :: Finished(s, id) <==> Finished(s', id);
    assert forall p: Post :: p.Final? ==> (p in s.pushed <==> p in s'.pushed);
  }

  lemma FinishedSubmit(s: State, job: Job)
    requires LaneInv(s) && Enabled(s, Submit(job))
    ensures forall id :: Finished(s, id) <==> Finished(After(s, Submit(job)), id)
    ensures After(s, Submit(job)).pushed == s.pushed && s.admitted <= After(s, Submit(job)).admitted
  {
  }

  lemma FinalSubmit(s: State, job: Job)
    requires LaneInv(s) && FinalInv(s) && Enabled(s, Submit(job))
    ensures FinalInv(After(s, Submit(job)))
  {
    FinishedSubmit(s, job);
  }

  lemma FinalTakeover(s: State, w: JobId)
    requires LaneInv(s) && FinalInv(s) && Enabled(s, WorkerTakeover(w))
    ensures FinalInv(After(s, WorkerTakeover(w)))
  {
    TakeoverKeepsPaired(s.lane, s.jobs, s.admitted);
    var s' := After(s, WorkerTakeover(w));
    assert forall id :: Finished(s, id) <==> Finished(s', id);
  }

  lemma FinalWorkerPost(s: State, w: JobId)
    requires LaneInv(s) && FinalInv(s) && Enabled(s, WorkerPost(w))
    ensures FinalInv(After(s, WorkerPost(w)))
  {
    var s' := After(s, WorkerPost(w));
    var p := WorkerPosts(s, w);
    FinishedByPost(s, w, p);
    FinalsOnceGrow(s.pushed, p);
    if p.Final? {
      FinalPosted(s, s', p);
    } else {
      PagePosted(s, s', p);
    }
  }

  /** A job finishes by posting its final result, and only then. */
  lemma FinishedByPost(s: State, w: JobId, p: Post)
    requires LaneInv(s) && FinalInv(s) && Enabled(s, WorkerPost(w)) && After(s, WorkerPost(w)).pushed == s.pushed + [p]
    ensures var s', k := After(s, WorkerPost(w)), s.workers[w];
            && (forall id :: Finished(s', id) <==> Finished(s, id) || (p.Final? && id == k.ticket.id))
            && k.ticket.id < |s.admitted|
            && (p.Final? ==> p == Final(k.ticket.id, s.admitted[k.ticket.id].cls) && !s.admitted[k.ticket.id].panics)
            && (p.Final? ==> p !in s.pushed)
  {
    var s' := After(s, WorkerPost(w));
    OwnIsOnly(s, w);
    assert p == s'.pushed[|s.pushed|];
    assert !Finished(s, Own(s).ticket.id);
  }

  lemma FinalsOnceGrow(pushed: seq<Post>, p: Post)
    requires FinalsOnce(pushed) && (p.Final? ==> p !in pushed)
    ensures FinalsOnce(pushed + [p])
  {
  }

  lemma PagePosted(s: State, s': State, p: Post)
    requires FinalInv(s) && s'.admitted == s.admitted && s'.pushed == s.pushed + [p] && !p.Final?
    requires forall id :: Finished(s', id) <==> Finished(s, id)
    ensures FinalsFinished(s') && FinishedPosted(s')
  {
  }

  lemma FinalPosted(s: State, s': State, p: Post)
    requires FinalInv(s) && s'.admitted == s.admitted && s'.pushed == s.pushed + [p] && p.Final?
    requires p.id < |s.admitted| && p.cls == s.admitted[p.id].cls && !s.admitted[p.id].panics
    requires forall id :: Finished(s', id) <==> Finished(s, id) || id == p.id
    ensures FinalsFinished(s') && FinishedPosted(s')
  {
    assert p in s'.pushed;
  }

  /** The log grows by at most one event, by a submission only when one is made. */
  ghost predicate LogGrown(s: State, step: Step, s': State) {
    && s.log <= s'.log && |s'.log| <= |s.log| + 1 && s.admitted <= s'.admitted
    && (|s'.log| == |s.log| + 1 && s'.log[|s.log|].Submitted? ==>
          step.Submit? && s'.log[|s.log|].key == step.job.key)
  }

  lemma LogGrows(s: State, step: Step)
    requires Enabled(s, step)
    ensures LogGrown(s, step, After(s, step))
  {
    if Quiet(step) {
      QuietStep(s, step);
    } else if !step.Submit? {
      WorkerLogs(s, step);
    }
  }

  lemma WorkerLogs(s: State, step: Step)
    requires Enabled(s, step) && !Quiet(step) && !step.Submit?
    ensures LogGrown(s, step, After(s, step))
  {
  }

  lemma FreshStep(s: State, step: Step)
    requires LaneInv(s) && UiInv(s) && FreshInv(s) && Enabled(s, step)
    ensures FreshInv(After(s, step))
  {
    var s' := After(s, step);
    LogGrows(s, step);
    forall t | 0 <= t < |s'.log| && s'.log[t].Submitted?
      ensures Served(s', s'.log[t].key, t) || Waiting(s', s'.log[t].key)
    {
      if t == |s.log| {
        FreshSubmission(s, step.job);
      } else {
        FreshKept(s, step, s.log[t].key, t);
      }
    }
  }

  lemma FreshSubmission(s: State, job: Job)
    requires LaneInv(s) && Enabled(s, Submit(job))
    ensures Waiting(After(s, Submit(job)), job.key)
  {
    var s' := After(s, Submit(job));
    if s.lane.running.Some? && !KeyQueued(s.lane.queued, job.key) {
      assert s'.lane.queued[|s.lane.queued|].key == job.key;
    }
  }

  lemma FreshKept(s: State, step: Step, key: string, t: nat)
    requires LaneInv(s) && UiInv(s) && Enabled(s, step)
    requires t < |s.log|
    requires Served(s, key, t) || Waiting(s, key)
    ensures Served(After(s, step), key, t) || Waiting(After(s, step), key)
  {
    var s' := After(s, step);
    if Served(s, key, t) {
      ServedForGood(s, step, key, t);
    } else if Quiet(step) {
      QuietStep(s, step);
    } else if step.Submit? {
      assert forall i | 0 <= i < |s.lane.queued| :: s'.lane.queued[i] == s.lane.queued[i];
    } else if step.WorkerTakeover? {
      FreshTakeover(s, step.w, key, t);
    } else {
      PhaseStep(s, step);
      if step.Spawn? {
        assert s'.log[|s.log|] == Began(Own(s).ticket.id);
      }
    }
  }

  lemma FreshTakeover(s: State, w: JobId, key: string, t: nat)
    requires LaneInv(s) && Enabled(s, WorkerTakeover(w)) && t < |s.log| && Waiting(s, key)
    ensures Served(After(s, WorkerTakeover(w)), key, t) || Waiting(After(s, WorkerTakeover(w)), key)
  {
    var s' := After(s, WorkerTakeover(w));
    TakeoverKeepsPaired(s.lane, s.jobs, s.admitted);
    var i :| 0 <= i < |s.lane.queued| && s.lane.queued[i].key == key;
    if i == 0 {
      assert s'.log[|s.log|] == Began(s.lane.queued[0].id);
    } else {
      assert s'.lane.queued[i - 1] == s.lane.queued[i];
    }
  }

  lemma ServedForGood(s: State, step: Step, key: string, t: nat)
    requires Enabled(s, step) && Served(s, key, t)
    ensures Served(After(s, step), key, t)
  {
    var s' := After(s, step);
    LogGrows(s, step);
    var u :| t < u < |s.log| && s.log[u].Began? && s.log[u].id < |s.admitted| && s.admitted[s.log[u].id].key == key;
    assert s'.log[u] == s.log[u];
  }

  // ----- The gate -----

  lemma GateRaise(s: State)
    requires GateInv(s) && Enabled(s, RaiseGate)
    ensures GateInv(After(s, RaiseGate))
  {
  }

  /** The gate, what it is owed and the unapplied scans are the same. */
  ghost predicate SameGate(s: State, s': State) {
    && s'.gate == s.gate && s'.signBlocked == s.signBlocked && s'.applied == s.applied && s'.admitted == s.admitted
    && forall cls :: Owed(s', cls) == Owed(s, cls)
  }

  lemma SameGateInv(s: State, s': State)
    requires GateInv(s) && SameGate(s, s')
    ensures GateInv(s')
  {
  }

  /** Every other step leaves what the gate says and what it is owed. */
  lemma GateFrameQuiet(s: State, step: Step)
    requires Enabled(s, step) && Quiet(step) && !step.ApplyNext? && !step.RaiseGate?
    ensures SameGate(s, After(s, step))
  {
  }

  lemma GateFrameWorker(s: State, step: Step)
    requires Enabled(s, step) && !Quiet(step) && !step.Submit?
    ensures SameGate(s, After(s, step))
  {
    assert !step.Spawn? ==> After(s, step).ui == s.ui;
  }

  lemma GateSubmit(s: State, job: Job)
    requires LaneInv(s) && PostInv(s) && FinalInv(s) && GateInv(s) && Enabled(s, Submit(job))
    ensures GateInv(After(s, Submit(job)))
  {
    NotYetApplied(s, job.cls);
    PendingGrows(s.admitted, s.applied, job);
    SubmitOwes(s, job);
  }

  /** The next id to be admitted has no final result anywhere. */
  lemma NotYetApplied(s: State, cls: ScanClass)
    requires PostInv(s) && FinalInv(s)
    ensures Final(|s.admitted|, cls) !in s.applied
  {
    assert Final(|s.admitted|, cls) !in s.pushed;
    assert forall p :: p in s.applied ==> p in s.pushed;
  }

  /** An admitted scan is owed to the gate, which is otherwise left alone. */
  lemma SubmitOwes(s: State, job: Job)
    requires GateInv(s) && Enabled(s, Submit(job))
    requires forall cls :: |Pending(s.admitted + [job], s.applied, cls)| ==
                           |Pending(s.admitted, s.applied, cls)| + (if cls == job.cls then 1 else 0)
    ensures GateInv(After(s, Submit(job)))
  {
    var s' := After(s, Submit(job));
    assert s'.gate == s.gate && s'.applied == s.applied && s'.signBlocked == s.signBlocked;
    assert forall cls :: Owed(s, cls) == 0;
    var answer := SubmitRegion(s.lane, s.jobs, job).2;
    assert forall cls :: Owed(s', cls) == if !answer.Coalesced? && cls == job.cls then 1 else 0;
    assert s'.admitted == if answer.Coalesced? then s.admitted else s.admitted + [job];
  }

  lemma PendingGrows(admitted: seq<Job>, applied: seq<Post>, job: Job)
    requires Final(|admitted|, job.cls) !in applied
    ensures forall cls :: |Pending(admitted + [job], applied, cls)| ==
                          |Pending(admitted, applied, cls)| + (if cls == job.cls then 1 else 0)
  {
    forall cls
      ensures |Pending(admitted + [job], applied, cls)| ==
              |Pending(admitted, applied, cls)| + (if cls == job.cls then 1 else 0)
    {
      var before, now := Pending(admitted, applied, cls), Pending(admitted + [job], applied, cls);
      assert now == if cls == job.cls then before + {|admitted|} else before;
    }
  }

  /** Applying a final result takes exactly its own scan out of the unapplied ones. */
  lemma ApplyTakesOne(s: State)
    requires LaneInv(s) && PostInv(s) && FinalInv(s) && Enabled(s, ApplyNext) && s.batch[0].Final?
    ensures var Final(id, cls) := s.batch[0];
            && id in Unapplied(s, cls)
            && Unapplied(After(s, ApplyNext), cls) == Unapplied(s, cls) - {id}
            && |Unapplied(After(s, ApplyNext), cls)| == |Unapplied(s, cls)| - 1
            && (forall c | c != cls :: Unapplied(After(s, ApplyNext), c) == Unapplied(s, c))
  {
    NextFinalIsNew(s);
    PendingShrinks(s.admitted, s.applied, s.batch[0].id, s.batch[0].cls);
  }

  /** The result about to be applied is an admitted scan's own and was not applied before. */
  lemma NextFinalIsNew(s: State)
    requires LaneInv(s) && PostInv(s) && FinalInv(s) && Enabled(s, ApplyNext) && s.batch[0].Final?
    ensures var Final(id, cls) := s.batch[0];
            id < |s.admitted| && s.admitted[id].cls == cls && Final(id, cls) !in s.applied
  {
    var p := s.batch[0];
    assert s.pushed[|s.applied|] == p;
    assert p in s.pushed;
    assert forall a | 0 <= a < |s.applied| :: s.applied[a] == s.pushed[a];
  }

  lemma PendingShrinks(admitted: seq<Job>, applied: seq<Post>, id: JobId, cls: ScanClass)
    requires id < |admitted| && admitted[id].cls == cls && Final(id, cls) !in applied
    ensures var now := applied + [Final(id, cls)];
            && id in Pending(admitted, applied, cls)
            && Pending(admitted, now, cls) == Pending(admitted, applied, cls) - {id}
            && |Pending(admitted, now, cls)| == |Pending(admitted, applied, cls)| - 1
            && (forall c | c != cls :: Pending(admitted, now, c) == Pending(admitted, applied, c))
  {
  }

  lemma GateApply(s: State)
    requires LaneInv(s) && PostInv(s) && FinalInv(s) && GateInv(s) && Enabled(s, ApplyNext)
    ensures GateInv(After(s, ApplyNext))
  {
    var s' := After(s, ApplyNext);
    if s.batch[0].Final? {
      ApplyTakesOne(s);
      GateDrains(s, s.batch[0].cls);
    } else {
      assert forall cls :: Unapplied(s', cls) == Unapplied(s, cls);
    }
  }

  lemma GateDrains(s: State, cls: ScanClass)
    requires GateInv(s) && Enabled(s, ApplyNext) && s.batch[0].Final? && s.batch[0].cls == cls
    requires |Unapplied(After(s, ApplyNext), cls)| == |Unapplied(s, cls)| - 1
    requires forall c | c != cls :: Unapplied(After(s, ApplyNext), c) == Unapplied(s, c)
    ensures GateInv(After(s, ApplyNext))
  {
  }

  // ----- All parts together, over runs -----

  lemma QuietKeepsInv(s: State, step: Step)
    requires Inv(s) && Enabled(s, step) && Quiet(step)
    ensures Inv(After(s, step))
  {
    LaneQuiet(s, step);
    UiQuiet(s, step);
    PostQuiet(s, step);
    StrandQuiet(s, step);
    FinalQuiet(s, step);
    FreshStep(s, step);
    if step.ApplyNext? {
      GateApply(s);
    } else if step.RaiseGate? {
      GateRaise(s);
    } else {
      GateFrameQuiet(s, step);
      SameGateInv(s, After(s, step));
    }
  }

  lemma SubmitKeepsInv(s: State, job: Job)
    requires Inv(s) && Enabled(s, Submit(job))
    ensures Inv(After(s, Submit(job)))
  {
    LaneSubmit(s, job);
    UiSubmit(s, job);
    LogSubmit(s, job);
    PostSubmit(s, job);
    StrandSubmit(s, job);
    FinalSubmit(s, job);
    GateSubmit(s, job);
    FreshStep(s, Submit(job));
  }

  lemma TakeoverKeepsInv(s: State, w: JobId)
    requires Inv(s) && Enabled(s, WorkerTakeover(w))
    ensures Inv(After(s, WorkerTakeover(w)))
  {
    LaneTakeover(s, w);
    UiTakeover(s, w);
    LogTakeover(s, w);
    PostTakeover(s, w);
    FinalTakeover(s, w);
    GateWorker(s, WorkerTakeover(w));
    FreshStep(s, WorkerTakeover(w));
  }

  lemma PhaseKeepsLane(s: State, step: Step)
    requires LaneInv(s) && UiInv(s) && LogInv(s) && NotStranded(s) && Enabled(s, step) && ChangesPhase(step)
    ensures var s' := After(s, step);
            LaneInv(s') && UiInv(s') && LogInv(s') && NotStranded(s')
  {
    LanePhase(s, step);
    UiPhase(s, step);
    LogPhase(s, step);
  }

  lemma PhaseKeepsPosts(s: State, step: Step)
    requires LaneInv(s) && UiInv(s) && PostInv(s) && FinalInv(s) && Enabled(s, step) && ChangesPhase(step)
    ensures PostInv(After(s, step)) && FinalInv(After(s, step))
  {
    if step.WorkerPost? {
      PostWorkerPost(s, step.w);
      FinalWorkerPost(s, step.w);
    } else {
      PostPhase(s, step);
      FinalPhase(s, step);
    }
  }

  lemma GateWorker(s: State, step: Step)
    requires GateInv(s) && Enabled(s, step) && !Quiet(step) && !step.Submit?
    ensures GateInv(After(s, step))
  {
    GateFrameWorker(s, step);
    SameGateInv(s, After(s, step));
  }

  lemma StepKeepsInv(s: State, step: Step)
    requires Inv(s) && Enabled(s, step)
    ensures Inv(After(s, step))
  {
    if Quiet(step) {
      QuietKeepsInv(s, step);
    } else if step.Submit? {
      SubmitKeepsInv(s, step.job);
    } else if step.WorkerTakeover? {
      TakeoverKeepsInv(s, step.w);
    } else {
      PhaseKeepsLane(s, step);
      PhaseKeepsPosts(s, step);
      GateWorker(s, step);
      FreshStep(s, step);
    }
  }

  lemma {:induction false} RunKeepsInv(s: State, steps: seq<Step>)
    requires Inv(s) && ValidRun(s, steps)
    ensures Inv(AfterRun(s, steps))
    decreases |steps|
  {
    if steps != [] {
      StepKeepsInv(s, steps[0]);
      RunKeepsInv(After(s, steps[0]), steps[1..]);
    }
  }

  lemma ReachableInv(s: State)
    requires Reachable(s)
    ensures Inv(s)
  {
    var steps :| ValidRun(START, steps) && AfterRun(START, steps) == s;
    StartInv();
    RunKeepsInv(START, steps);
  }
}
