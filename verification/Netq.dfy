/**
 The scheduling lane of `app-core/src/netq.rs`: at most one running job, a FIFO of
 queued jobs behind it, and coalescing of a key that is already queued.

 `Lane` is the mutable lane; `Admitted` and `Completed` are its two operations on the
 lane's value.
 */
module Netq {
  import opened Options

  type JobId = nat

  /** A job's identity inside the lane: its id and the key it was submitted under. */
  datatype Ticket = Ticket(id: JobId, key: string)

  datatype Admit = Run(id: JobId) | Queued(id: JobId) | Coalesced

  datatype LaneView = LaneView(nextId: JobId, running: Option<Ticket>, queued: seq<Ticket>)

  const EMPTY_LANE := LaneView(0, None, [])

  predicate KeyQueued(queued: seq<Ticket>, key: string) {
    exists i | 0 <= i < |queued| :: queued[i].key == key
  }

  function Admitted(v: LaneView, key: string): (LaneView, Admit) {
    if v.running.None? then
      (v.(nextId := v.nextId + 1, running := Some(Ticket(v.nextId, key))), Run(v.nextId))
    else if KeyQueued(v.queued, key) then
      (v, Coalesced)
    else
      (v.(nextId := v.nextId + 1, queued := v.queued + [Ticket(v.nextId, key)]), Queued(v.nextId))
  }

  function Completed(v: LaneView, id: JobId): (LaneView, Option<Ticket>) {
    if v.running.None? || v.running.value.id != id then
      (v, None)
    else if v.queued == [] then
      (v.(running := None), None)
    else
      (v.(running := Some(v.queued[0]), queued := v.queued[1..]), Some(v.queued[0]))
  }

  /** What every lane built by `new`, `admit` and `complete` satisfies: queued jobs only
      behind a running one, ids consecutive up to `nextId`, queued keys distinct. */
  ghost predicate WellFormed(v: LaneView) {
    && (v.running.None? ==> v.queued == [])
    && (v.running.Some? ==>
          && v.running.value.id + 1 + |v.queued| == v.nextId
          && (forall i | 0 <= i < |v.queued| :: v.queued[i].id == v.running.value.id + 1 + i))
    && (forall i, j | 0 <= i < j < |v.queued| :: v.queued[i].key != v.queued[j].key)
  }

  class Lane {
    var nextId: JobId
    var running: Option<Ticket>
    var queued: seq<Ticket>

    function View(): LaneView
      reads this
    {
      LaneView(nextId, running, queued)
    }

    constructor ()
      ensures View() == EMPTY_LANE
    {
      nextId, running, queued := 0, None, [];
    }

    method Admit(key: string) returns (a: Admit)
      modifies this
      ensures (View(), a) == Admitted(old(View()), key)
    {
      if running.None? {
        var id := nextId;
        nextId := nextId + 1;
        running := Some(Ticket(id, key));
        return Run(id);
      }
      if KeyQueued(queued, key) {
        return Coalesced;
      }
      var id := nextId;
      nextId := nextId + 1;
      queued := queued + [Ticket(id, key)];
      return Queued(id);
    }

    method Complete(id: JobId) returns (promoted: Option<Ticket>)
      modifies this
      ensures (View(), promoted) == Completed(old(View()), id)
    {
      if running.None? || running.value.id != id {
        return None;
      }
      if queued == [] {
        running := None;
      } else {
        running := Some(queued[0]);
        queued := queued[1..];
      }
      return running;
    }

    /** The jobs behind the running one: all that were admitted after it. */
    function Depth(): (d: nat)
      reads this
      ensures WellFormed(View()) ==> d == if running.None? then 0 else nextId - running.value.id - 1
    {
      |queued|
    }

    predicate IsIdle(): (r: bool)
      reads this
      ensures WellFormed(View()) ==> (r <==> running.None?)
    {
      running.None? && queued == []
    }
  }

  // ----- Steps -----

  /** One lock region touching the lane: a submission, or the running job completing. */
  datatype LaneEvent = Kick(key: string) | Done

  function AfterEvent(v: LaneView, e: LaneEvent): LaneView {
    match e
    case Kick(key) => Admitted(v, key).0
    case Done => if v.running.None? then v else Completed(v, v.running.value.id).0
  }

  lemma EventKeepsWellFormed(v: LaneView, e: LaneEvent)
    requires WellFormed(v)
    ensures WellFormed(AfterEvent(v, e))
  {
    if e.Kick? && v.running.Some? && !KeyQueued(v.queued, e.key) {
      var q := AfterEvent(v, e).queued;
      forall i, j | 0 <= i < j < |q| ensures q[i].key != q[j].key {
        assert q[i] == v.queued[i];
      }
    }
  }
}
