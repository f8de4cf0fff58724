/** That scans come through: which kicks are refused, and that all work is done and applied. */
module ScanProgress {
  import opened Options
  import opened Netq
  import opened Gate
  import opened ScanSystem
  import opened ScanInvariant
  import opened ScanTheorems

  /**
   No kick is dropped but the two the source drops. Inside a callback a scan of any class and
   key can be submitted exactly when it is not a spending or wallet-stores scan with another of
   its class in flight; and a callback can begin whenever none is running.
   */
  lemma KickRefusedIff(s: State, job: Job)
    requires Reachable(s)
    ensures s.ui.Ready? ==>
              (Enabled(s, Submit(job)) <==>
               (job.cls.Spending? || job.cls.WalletStores? ==> InFlightOf(s, job.cls) == {}))
    ensures Enabled(s, UserEvent) <==> s.ui.AtRest?
    ensures s.ui.AtRest? ==>
              var next := After(s, UserEvent);
              next.ui.Ready? && InFlightOf(next, job.cls) == InFlightOf(s, job.cls)
  {
    ReachableInv(s);
    InFlightCount(s, Spending);
    InFlightCount(s, WalletStores);
    assert InFlightOf(s, job.cls) == {} <==> |InFlightOf(s, job.cls)| == 0;
    if s.ui.AtRest? {
      StepKeepsInv(s, UserEvent);
      InFlightCount(s, job.cls);
      InFlightCount(After(s, UserEvent), job.cls);
    }
  }

  /** Any other thread may post at any time, and a callback at any point between its own steps. */
  lemma PostsAreOpen(s: State, tag: nat)
    ensures Enabled(s, OtherPost(tag)) && (Enabled(s, UiPost(tag)) <==> s.ui.Ready?)
    ensures After(s, OtherPost(tag)).queue == s.queue + [Other(tag)]
    ensures s.ui.Ready? ==> After(s, UiPost(tag)).queue == s.queue + [Other(tag)]
  {
  }

  // ----- Settling -----

  /** Steps that bring no new work. */
  predicate Settling(step: Step) {
    !step.Submit? && !step.UserEvent? && !step.UiPost? && !step.OtherPost?
  }

  /** Nothing runs, waits, is posted, scheduled or held. */
  ghost predicate Settled(s: State) {
    && s.ui.AtRest? && s.batch == [] && s.queue == [] && s.callbacks == 0 && s.posters == 0
    && s.lane.running.None? && s.lane.queued == []
  }

  function UiLeft(ui: Ui): nat {
    match ui
    case AtRest => 0
    case Ready => 1
    case GateDue(_) => 2
    case SpawnDue(_, _) => 3
    case ScheduleDue => 4
  }

  /** A bound on the settling steps still to come. */
  ghost function StepsLeft(s: State): int {
    3 * WorkLeft(s) + 3 * s.posters + 2 * s.callbacks + |s.queue| + |s.batch| + UiLeft(s.ui)
  }

  lemma WorkIsLeft(s: State)
    requires LaneInv(s)
    ensures WorkLeft(s) >= 0
  {
  }

  /** Every settling step brings the end nearer. */
  lemma StepSettles(s: State, step: Step)
    requires LaneInv(s) && UiInv(s) && Enabled(s, step) && Settling(step)
    ensures StepsLeft(After(s, step)) < StepsLeft(s)
  {
    WorkPerStep(s, step);
    if WorkerStep(step) {
      WorkerMoves(s, step);
    }
  }

  lemma WorkerMoves(s: State, step: Step)
    requires Enabled(s, step) && WorkerStep(step)
    ensures var s' := After(s, step);
            && s'.posters == s.posters && s'.batch == s.batch && s'.ui == s.ui
            && 2 * s'.callbacks + |s'.queue| <= 2 * s.callbacks + |s.queue| + 2
  {
  }

  /** Some settling step is open until all is settled. */
  lemma SomeStepOpen(s: State) returns (step: Step)
    requires Inv(s) && !Settled(s)
    ensures Settling(step) && Enabled(s, step)
  {
    match s.ui {
      case SpawnDue(_, _) => step := Spawn;
      case GateDue(_) => step := RaiseGate;
      case ScheduleDue => step := UiSchedule;
      case Ready => step := if s.batch != [] then ApplyNext else Return;
      case AtRest =>
        if s.callbacks > 0 {
          step := ApplyPending;
        } else if s.posters > 0 {
          step := OtherSchedule;
        } else {
          step := OwnStep(s);
        }
    }
  }

  lemma OwnStep(s: State) returns (step: Step)
    requires Inv(s) && s.ui.AtRest? && s.callbacks == 0 && s.posters == 0 && !Settled(s)
    ensures Settling(step) && Enabled(s, step)
  {
    var w := s.lastWorker;
    assert s.lane.running.Some?;
    match Own(s).phase {
      case Working(posted) =>
        step := if posted < Own(s).job.pages || !Own(s).job.panics then WorkerPost(w) else WorkerPanic(w);
      case Scheduling(_, _) => step := WorkerSchedule(w);
      case Returned => step := WorkerTakeover(w);
    }
  }

  /**
   Nothing is stuck and nothing goes on for ever. Without new work every run is at most
   `StepsLeft` steps long, whichever steps the threads take, and a state in which none of them
   can step is settled: all jobs are over and all posts applied.
   */
  lemma {:induction false} RunsSettle(s: State, steps: seq<Step>)
    requires Inv(s) && ValidRun(s, steps) && forall i | 0 <= i < |steps| :: Settling(steps[i])
    ensures var t := AfterRun(s, steps);
            && |steps| <= StepsLeft(s) - StepsLeft(t) <= StepsLeft(s)
            && ((forall step :: Settling(step) ==> !Enabled(t, step)) <==> Settled(t))
            && (Settled(t) ==> t.applied == t.pushed)
    decreases |steps|
  {
    if steps == [] {
      WorkIsLeft(s);
      if !Settled(s) {
        var step := SomeStepOpen(s);
      } else {
        NothingOpen(s);
      }
    } else {
      StepKeepsInv(s, steps[0]);
      StepSettles(s, steps[0]);
      RunsSettle(After(s, steps[0]), steps[1..]);
    }
  }

  lemma NothingOpen(s: State)
    requires Inv(s) && Settled(s)
    ensures forall step :: Settling(step) ==> !Enabled(s, step)
    ensures s.applied == s.pushed
  {
    assert forall w :: w !in s.workers;
  }

  /** So from every reachable state all work comes to its end, in a run that adds none. */
  lemma {:induction false} SettlingRun(s: State) returns (steps: seq<Step>)
    requires Inv(s)
    ensures ValidRun(s, steps) && |steps| <= StepsLeft(s) && Settled(AfterRun(s, steps))
    ensures forall i | 0 <= i < |steps| :: Settling(steps[i])
    decreases StepsLeft(s) + 1
  {
    WorkIsLeft(s);
    if Settled(s) {
      return [];
    }
    var step := SomeStepOpen(s);
    StepKeepsInv(s, step);
    StepSettles(s, step);
    WorkIsLeft(After(s, step));
    var rest := SettlingRun(After(s, step));
    steps := [step] + rest;
    assert steps[1..] == rest;
  }

  lemma ScansComeThrough(s: State)
    requires Reachable(s)
    ensures exists steps :: ValidRun(s, steps) && (forall i | 0 <= i < |steps| :: Settling(steps[i])) &&
                            Settled(AfterRun(s, steps)) && AfterRun(s, steps).applied == AfterRun(s, steps).pushed
  {
    ReachableInv(s);
    var steps := SettlingRun(s);
    RunsSettle(s, steps);
  }
}
