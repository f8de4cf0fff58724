/**
 The scan executor of `src/pending.rs` as a step relation: the UI thread, the worker
 threads behind the scan lane, and every other thread that posts results.

 A step is one mutex region or one call that no lock covers, so workers and posters may
 interleave with the UI thread between any two of them. The UI thread runs one callback
 at a time: either a user event, or the apply-pending trampoline, which takes the whole
 posted queue and then runs its entries one after another. Anything a callback does (a
 submission, a post) happens between two entries.

 A scan job is `pages` page posts followed by its final result, or by a panic.
 */
module ScanSystem {
  import opened Options
  import opened Netq
  import opened Gate

  datatype Job = Job(key: string, cls: ScanClass, pages: nat, panics: bool)

  datatype Post = Page(id: JobId, page: nat) | Final(id: JobId, cls: ScanClass) | Other(tag: nat)

  /** Where a worker stands with its current job. `Unspawned`: the lane admitted the job
      and the submitter has not started the thread yet. `Scheduling`: a post is in the
      queue and its callback is not scheduled yet. `Returned`: the job returned or
      panicked and the lane has not been told. */
  datatype Phase = Unspawned | Working(posted: nat) | Scheduling(posted: nat, last: bool) | Returned

  datatype Worker = Worker(ticket: Ticket, job: Job, phase: Phase)

  /** The UI thread: between callbacks, or inside one at a point that other threads see. */
  datatype Ui =
    | AtRest
    | Ready
    | SpawnDue(worker: JobId, cls: ScanClass)
    | GateDue(owed: ScanClass)
    | ScheduleDue

  datatype Event = Submitted(key: string, answer: Admit) | Began(id: JobId) | Ended(id: JobId, panicked: bool)

  /** `workers` is keyed by the id of the job a worker was spawned for. `signBlocked` is
      the UI's `wallet-scan-busy`. The last five fields only record what happened. */
  datatype State = State(
    lane: LaneView, jobs: map<JobId, Job>, workers: map<JobId, Worker>,
    queue: seq<Post>, callbacks: nat, posters: nat,
    ui: Ui, batch: seq<Post>, gate: GateView, signBlocked: bool,
    lastWorker: JobId, admitted: seq<Job>, pushed: seq<Post>, applied: seq<Post>, log: seq<Event>)

  const START := State(EMPTY_LANE, map[], map[], [], 0, 0, AtRest, [], OPEN_GATE, false, 0, [], [], [], [])

  // ----- The two lane lock regions -----

  /** `scan_lane_submit` under the lock: admit, and store the job if it has to wait. */
  function SubmitRegion(lane: LaneView, jobs: map<JobId, Job>, job: Job): (LaneView, map<JobId, Job>, Admit) {
    var (lane', answer) := Admitted(lane, job.key);
    (lane', if answer.Queued? then jobs[answer.id := job] else jobs, answer)
  }

  /** The worker's region after a job: `Exit` when `complete` returned nothing, `Lost` when
      a promoted job has no stored closure. */
  datatype Takeover = Exit | Lost | Next(ticket: Ticket, job: Job)

  function TakeoverRegion(lane: LaneView, jobs: map<JobId, Job>, id: JobId): (LaneView, map<JobId, Job>, Takeover) {
    var (lane', promoted) := Completed(lane, id);
    if promoted.None? then (lane', jobs, Exit)
    else if promoted.value.id !in jobs then (lane', jobs, Lost)
    else (lane', jobs - {promoted.value.id}, Next(promoted.value, jobs[promoted.value.id]))
  }

  // ----- Steps -----

  datatype Step =
    | UserEvent | ApplyPending | ApplyNext | Return
    | Submit(job: Job) | Spawn | RaiseGate
    | UiPost(tag: nat) | UiSchedule
    | WorkerPost(w: JobId) | WorkerSchedule(w: JobId) | WorkerPanic(w: JobId) | WorkerTakeover(w: JobId)
    | OtherPost(tag: nat) | OtherSchedule

  predicate Enabled(s: State, step: Step) {
    match step
    case UserEvent => s.ui.AtRest?
    case ApplyPending => s.ui.AtRest? && s.callbacks > 0
    case ApplyNext => s.ui.Ready? && s.batch != []
    case Return => s.ui.Ready? && s.batch == []
    case Submit(job) => s.ui.Ready? && !Refused(s.gate, job.cls)
    case Spawn => s.ui.SpawnDue? && s.ui.worker in s.workers
    case RaiseGate => s.ui.GateDue?
    case UiPost(_) => s.ui.Ready?
    case UiSchedule => s.ui.ScheduleDue?
    case WorkerPost(w) =>
      w in s.workers && s.workers[w].phase.Working?
      && (s.workers[w].phase.posted < s.workers[w].job.pages || !s.workers[w].job.panics)
    case WorkerSchedule(w) => w in s.workers && s.workers[w].phase.Scheduling?
    case WorkerPanic(w) =>
      w in s.workers && s.workers[w].phase.Working?
      && s.workers[w].phase.posted >= s.workers[w].job.pages && s.workers[w].job.panics
    case WorkerTakeover(w) => w in s.workers && s.workers[w].phase.Returned?
    case OtherPost(_) => true
    case OtherSchedule => s.posters > 0
  }

  /** Every gate change is followed at once by `update_scan_gate`. */
  function WithGate(s: State, g: GateView): State {
    s.(gate := g, signBlocked := Busy(g))
  }

  function Pushed(s: State, p: Post): State {
    s.(queue := s.queue + [p], pushed := s.pushed + [p])
  }

  function WithPhase(s: State, w: JobId, phase: Phase): State
    requires w in s.workers
  {
    s.(workers := s.workers[w := s.workers[w].(phase := phase)])
  }

  function Logged(s: State, e: Event): State {
    s.(log := s.log + [e])
  }

  /** A result closure runs: a final result drains its gate slot first, whatever its
      staleness guard then decides; a page never touches the gate. */
  function Applied(s: State): State
    requires s.batch != []
  {
    var p := s.batch[0];
    var s' := s.(batch := s.batch[1..], applied := s.applied + [p]);
    if p.Final? then WithGate(s', Drained(s.gate, p.cls)) else s'
  }

  function AfterSubmit(s: State, job: Job): State {
    var (lane', jobs', answer) := SubmitRegion(s.lane, s.jobs, job);
    var s' := Logged(s.(lane := lane', jobs := jobs'), Submitted(job.key, answer));
    match answer
    case Coalesced => s'
    case Queued(_) => s'.(admitted := s.admitted + [job], ui := GateDue(job.cls))
    case Run(id) =>
      s'.(admitted := s.admitted + [job],
          workers := s.workers[id := Worker(Ticket(id, job.key), job, Unspawned)],
          lastWorker := id,
          ui := SpawnDue(id, job.cls))
  }

  function AfterWorkerPost(s: State, w: JobId): State
    requires w in s.workers && s.workers[w].phase.Working?
  {
    var Worker(ticket, job, phase) := s.workers[w];
    if phase.posted < job.pages then
      Pushed(WithPhase(s, w, Scheduling(phase.posted + 1, false)), Page(ticket.id, phase.posted + 1))
    else
      Pushed(WithPhase(s, w, Scheduling(phase.posted, true)), Final(ticket.id, job.cls))
  }

  function AfterWorkerSchedule(s: State, w: JobId): State
    requires w in s.workers && s.workers[w].phase.Scheduling?
  {
    var Worker(ticket, _, phase) := s.workers[w];
    var s' := s.(callbacks := s.callbacks + 1);
    if phase.last then Logged(WithPhase(s', w, Returned), Ended(ticket.id, false))
    else WithPhase(s', w, Working(phase.posted))
  }

  function AfterTakeover(s: State, w: JobId): State
    requires w in s.workers
  {
    var (lane', jobs', next) := TakeoverRegion(s.lane, s.jobs, s.workers[w].ticket.id);
    var s' := s.(lane := lane', jobs := jobs');
    if next.Next? then
      Logged(s'.(workers := s.workers[w := Worker(next.ticket, next.job, Working(0))]), Began(next.ticket.id))
    else
      s'.(workers := s.workers - {w})
  }

  function After(s: State, step: Step): State
    requires Enabled(s, step)
  {
    match step
    case UserEvent => s.(ui := Ready)
    case ApplyPending => s.(ui := Ready, callbacks := s.callbacks - 1, batch := s.queue, queue := [])
    case ApplyNext => Applied(s)
    case Return => s.(ui := AtRest)
    case Submit(job) => AfterSubmit(s, job)
    case Spawn => Logged(WithPhase(s, s.ui.worker, Working(0)), Began(s.workers[s.ui.worker].ticket.id))
                  .(ui := GateDue(s.ui.cls))
    case RaiseGate => WithGate(s, Raised(s.gate, s.ui.owed)).(ui := Ready)
    case UiPost(tag) => Pushed(s, Other(tag)).(ui := ScheduleDue)
    case UiSchedule => s.(callbacks := s.callbacks + 1, ui := Ready)
    case WorkerPost(w) => AfterWorkerPost(s, w)
    case WorkerSchedule(w) => AfterWorkerSchedule(s, w)
    case WorkerPanic(w) => Logged(WithPhase(s, w, Returned), Ended(s.workers[w].ticket.id, true))
    case WorkerTakeover(w) => AfterTakeover(s, w)
    case OtherPost(tag) => Pushed(s, Other(tag)).(posters := s.posters + 1)
    case OtherSchedule => s.(callbacks := s.callbacks + 1, posters := s.posters - 1)
  }

  // ----- Runs -----

  ghost predicate ValidRun(s: State, steps: seq<Step>)
    decreases |steps|
  {
    steps == [] || (Enabled(s, steps[0]) && ValidRun(After(s, steps[0]), steps[1..]))
  }

  ghost function AfterRun(s: State, steps: seq<Step>): State
    requires ValidRun(s, steps)
    decreases |steps|
  {
    if steps == [] then s else AfterRun(After(s, steps[0]), steps[1..])
  }

  /** `s` is reached by some run of the system from its start. */
  ghost predicate Reachable(s: State) {
    exists steps :: ValidRun(START, steps) && AfterRun(START, steps) == s
  }
}
