/**
 The mutable statics of `src/pending.rs`, as objects: the scan lane with its map of waiting
 jobs, the worker's drain loop, and the pending queue with the batch the UI thread applies.
 Their lock regions are the ones the step relation of `ScanSystem` takes.
 */
module ScanLane {
  import opened Options
  import opened Netq
  import opened Gate
  import opened ScanSystem
  import opened ScanInvariant

  class ScanLaneState {
    const lane: Lane
    var jobs: map<JobId, Job>

    constructor ()
      ensures fresh(lane) && lane.View() == EMPTY_LANE && jobs == map[]
    {
      lane := new Lane();
      jobs := map[];
    }

    /** `scan_lane_submit` up to the end of its lock; `false` tells the caller that nothing
        was scheduled and that its gate must stay as it is. */
    method Submit(job: Job) returns (scheduled: bool, spawn: Option<JobId>)
      modifies this, lane
      ensures var (lane', jobs', answer) := SubmitRegion(old(lane.View()), old(jobs), job);
              && lane.View() == lane' && jobs == jobs'
              && scheduled == !answer.Coalesced?
              && spawn == if answer.Run? then Some(answer.id) else None
    {
      var answer := lane.Admit(job.key);
      match answer {
        case Coalesced => return false, None;
        case Queued(id) =>
          jobs := jobs[id := job];
          return true, None;
        case Run(id) => return true, Some(id);
      }
    }

    /** The worker's lock region after a job. */
    method Takeover(id: JobId) returns (next: Takeover)
      modifies this, lane
      ensures (lane.View(), jobs, next) == TakeoverRegion(old(lane.View()), old(jobs), id)
    {
      var promoted := lane.Complete(id);
      if promoted.None? {
        return Exit;
      }
      if promoted.value.id !in jobs {
        return Lost;
      }
      var job := jobs[promoted.value.id];
      jobs := jobs - {promoted.value.id};
      return Next(promoted.value, job);
    }

    /** With the map paired to the queue, completing job `id` hands over job `id + 1`, or
        leaves the lane idle when there is none. */
    method TakeNext(id: JobId, ghost admitted: seq<Job>) returns (next: Takeover)
      requires Paired(lane.View(), jobs, admitted)
      requires lane.running.Some? && lane.running.value.id == id
      modifies this, lane
      ensures Paired(lane.View(), jobs, admitted)
      ensures Promoted(lane.View(), next, admitted, id)
    {
      TakeoverKeepsPaired(lane.View(), jobs, admitted);
      next := Takeover(id);
    }

    /**
     The worker's loop when nobody submits meanwhile: it runs the job it was spawned for and
     then every queued one in order, each exactly once, and leaves the lane idle with no
     closure behind. `ran` lists the jobs in the order they ran, panicking ones included.
     */
    method Drain(ticket: Ticket, job: Job, ghost admitted: seq<Job>) returns (ran: seq<Job>)
      requires Paired(lane.View(), jobs, admitted)
      requires lane.running == Some(ticket) && job == admitted[ticket.id]
      modifies this, lane
      ensures lane.IsIdle() && jobs == map[]
      ensures ran == admitted[ticket.id..]
    {
      var id, current := ticket.id, job;
      ran := [current];
      var next := TakeNext(id, admitted);
      while next.Next?
        invariant Paired(lane.View(), jobs, admitted)
        invariant ticket.id <= id < |admitted| && ran == admitted[ticket.id..id + 1]
        invariant Promoted(lane.View(), next, admitted, id)
        decreases |admitted| - id
      {
        id, current := next.ticket.id, next.job;
        OneMore(admitted, ticket.id, id);
        ran := ran + [current];
        next := TakeNext(id, admitted);
      }
      assert id + 1 == |admitted|;
      IdleIsEmpty(lane.View(), jobs, admitted);
    }
  }

  lemma OneMore(admitted: seq<Job>, from: nat, n: nat)
    requires from <= n < |admitted|
    ensures admitted[from..n + 1] == admitted[from..n] + [admitted[n]]
  {
  }

  lemma IdleIsEmpty(lane: LaneView, jobs: map<JobId, Job>, admitted: seq<Job>)
    requires Paired(lane, jobs, admitted) && lane.running.None?
    ensures lane.queued == [] && jobs == map[]
  {
  }

  /** What a takeover after job `id` leaves running and hands to the worker. */
  ghost predicate Promoted(lane: LaneView, next: Takeover, admitted: seq<Job>, id: JobId) {
    if id + 1 >= |admitted| then next == Exit && lane.running.None?
    else next == Next(Ticket(id + 1, admitted[id + 1].key), admitted[id + 1]) && lane.running == Some(next.ticket)
  }

  /** The shared queue of posted results. */
  class PendingQueue {
    var queue: seq<Post>

    constructor ()
      ensures queue == []
    {
      queue := [];
    }

    method Push(p: Post)
      modifies this
      ensures queue == old(queue) + [p]
    {
      queue := queue + [p];
    }

    method TakeAll() returns (batch: seq<Post>)
      modifies this
      ensures batch == old(queue) && queue == []
    {
      batch := queue;
      queue := [];
    }
  }

  /** The gate after the results of `batch` have been applied in order. */
  function DrainedBy(g: GateView, batch: seq<Post>): GateView {
    if batch == [] then g
    else
      var g' := DrainedBy(g, batch[..|batch| - 1]);
      var p := batch[|batch| - 1];
      if p.Final? then Drained(g', p.cls) else g'
  }

  /** The final results of one class in a batch. */
  function Finals(batch: seq<Post>, cls: ScanClass): nat {
    if batch == [] then 0
    else Finals(batch[..|batch| - 1], cls) +
         (if batch[|batch| - 1].Final? && batch[|batch| - 1].cls == cls then 1 else 0)
  }

  /** A batch lowers each counter by its final results of that class, never below zero, and
      clears the flag iff it holds a wallet-stores result; pages and other posts do nothing. */
  lemma {:induction false} BatchDrains(g: GateView, batch: seq<Post>)
    ensures DrainedBy(g, batch) ==
            GateView(if g.notebook > Finals(batch, Notebook) then g.notebook - Finals(batch, Notebook) else 0,
                     if g.spending > Finals(batch, Spending) then g.spending - Finals(batch, Spending) else 0,
                     g.walletStores && Finals(batch, WalletStores) == 0)
  {
    if batch != [] {
      BatchDrains(g, batch[..|batch| - 1]);
    }
  }

  /** The part of `State` that applying results touches here. */
  class UiState {
    const gate: ScanGate
    var signBlocked: bool

    constructor ()
      ensures fresh(gate) && gate.View() == OPEN_GATE && !signBlocked
    {
      gate := new ScanGate();
      signBlocked := false;
    }

    method UpdateScanGate()
      modifies this
      ensures signBlocked == Busy(gate.View())
    {
      signBlocked := gate.notebook > 0 || gate.spending > 0 || gate.walletStores;
    }

    /** One posted closure: a final result releases its gate slot before anything else. */
    method ApplyPost(p: Post)
      modifies this, gate
      ensures gate.View() == if p.Final? then Drained(old(gate.View()), p.cls) else old(gate.View())
      ensures signBlocked == if p.Final? && !p.cls.Discovery? then Busy(gate.View()) else old(signBlocked)
    {
      if p.Final? {
        match p.cls {
          case Notebook => gate.DrainNotebook(); UpdateScanGate();
          case Spending => gate.DrainSpending(); UpdateScanGate();
          case WalletStores => gate.SetWalletStores(false); UpdateScanGate();
          case Discovery =>
        }
      }
    }

    /** `apply_pending` on a batch whose closures submit nothing themselves. */
    method ApplyPending(pending: PendingQueue) returns (applied: seq<Post>)
      requires signBlocked == Busy(gate.View())
      modifies this, gate, pending
      ensures applied == old(pending.queue) && pending.queue == []
      ensures gate.View() == DrainedBy(old(gate.View()), applied)
      ensures signBlocked == Busy(gate.View())
    {
      var batch := pending.TakeAll();
      applied := [];
      while |applied| < |batch|
        invariant applied <= batch && pending.queue == []
        invariant gate.View() == DrainedBy(old(gate.View()), applied)
        invariant signBlocked == Busy(gate.View())
      {
        var p := batch[|applied|];
        ApplyPost(p);
        assert (applied + [p])[..|applied|] == applied;
        applied := applied + [p];
      }
    }
  }
}
