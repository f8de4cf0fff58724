/** What any sequence of submissions and completions does to a lane. */
module NetqRuns {
  import opened Options
  import opened Netq

  function AfterEvents(v: LaneView, evs: seq<LaneEvent>): LaneView
    decreases |evs|
  {
    if evs == [] then v else AfterEvents(AfterEvent(v, evs[0]), evs[1..])
  }

  /** How many jobs complete over `evs`. */
  function Completions(v: LaneView, evs: seq<LaneEvent>): nat
    decreases |evs|
  {
    if evs == [] then 0
    else (if evs[0].Done? && v.running.Some? then 1 else 0) + Completions(AfterEvent(v, evs[0]), evs[1..])
  }

  /** The answer to a submission: run when nothing runs, nothing new when the key waits already,
      otherwise the next place in the queue; the running job's key does not count. */
  lemma AnswerMeans(v: LaneView, key: string)
    ensures var (w, a) := Admitted(v, key);
            && (a.Run? <==> v.running.None?)
            && (a.Coalesced? <==> v.running.Some? && exists i :: 0 <= i < |v.queued| && v.queued[i].key == key)
            && (a.Coalesced? ==> w == v)
            && (a.Run? ==> a.id == v.nextId && w == LaneView(v.nextId + 1, Some(Ticket(v.nextId, key)), v.queued))
            && (a.Queued? ==>
                  a.id == v.nextId && w == LaneView(v.nextId + 1, v.running, v.queued + [Ticket(v.nextId, key)]))
  {
  }

  /** A completion counts only for the running job's own id; then the oldest waiting job takes over,
      or the lane is idle. */
  lemma CompletionMeans(v: LaneView, id: JobId)
    ensures var (w, next) := Completed(v, id);
            if v.running.None? || v.running.value.id != id then w == v && next == None
            else if v.queued == [] then w == v.(running := None) && next == None
            else w == v.(running := Some(v.queued[0]), queued := v.queued[1..]) && next == Some(v.queued[0])
  {
  }

  /** Every lane reached from a fresh one is well formed. */
  lemma FreshLaneWellFormed(evs: seq<LaneEvent>)
    ensures WellFormed(AfterEvents(EMPTY_LANE, evs))
  {
    ReachableWellFormed(EMPTY_LANE, evs);
  }

  lemma {:induction false} ReachableWellFormed(v: LaneView, evs: seq<LaneEvent>)
    requires WellFormed(v)
    ensures WellFormed(AfterEvents(v, evs))
    decreases |evs|
  {
    if evs != [] {
      EventKeepsWellFormed(v, evs[0]);
      ReachableWellFormed(AfterEvent(v, evs[0]), evs[1..]);
    }
  }

  /** A job that has left the lane never comes back: its id is below every id still in it. */
  lemma {:induction false} LeftForGood(v: LaneView, evs: seq<LaneEvent>, id: JobId)
    requires WellFormed(v)
    requires id < v.nextId && (v.running.Some? ==> id < v.running.value.id)
    ensures var w := AfterEvents(v, evs);
            && (w.running.Some? ==> w.running.value.id > id)
            && (forall j | 0 <= j < |w.queued| :: w.queued[j].id > id)
    decreases |evs|
  {
    if evs != [] {
      EventKeepsWellFormed(v, evs[0]);
      LeftForGood(AfterEvent(v, evs[0]), evs[1..], id);
    }
  }

  /**
   A job queued at position `p` starts on exactly the (p+1)-th completion, whatever is
   submitted in between: before that it has moved up one place per completion, right then
   it is the running job, and afterwards it is gone.
   */
  lemma {:induction false} StartsAfterExactly(v: LaneView, evs: seq<LaneEvent>, p: nat)
    requires WellFormed(v)
    requires p < |v.queued|
    ensures var w := AfterEvents(v, evs);
            var n := Completions(v, evs);
            && (n <= p ==> p - n < |w.queued| && w.queued[p - n] == v.queued[p])
            && (n == p + 1 ==> w.running == Some(v.queued[p]))
            && (n > p + 1 ==> v.queued[p] !in w.queued && w.running != Some(v.queued[p]))
    decreases |evs|
  {
    if evs != [] {
      var v' := AfterEvent(v, evs[0]);
      EventKeepsWellFormed(v, evs[0]);
      if evs[0].Done? && p == 0 {
        RunningUntilDone(v', evs[1..]);
      } else {
        StartsAfterExactly(v', evs[1..], if evs[0].Done? then p - 1 else p);
      }
    }
  }

  /** Submissions never disturb the running job. */
  lemma {:induction false} RunningUntilDone(v: LaneView, evs: seq<LaneEvent>)
    requires WellFormed(v) && v.running.Some?
    ensures var w := AfterEvents(v, evs);
            && (Completions(v, evs) == 0 ==> w.running == v.running)
            && (Completions(v, evs) > 0 ==> v.running.value !in w.queued && w.running != v.running)
    decreases |evs|
  {
    if evs != [] {
      var v' := AfterEvent(v, evs[0]);
      EventKeepsWellFormed(v, evs[0]);
      if evs[0].Done? {
        LeftForGood(v', evs[1..], v.running.value.id);
      } else {
        RunningUntilDone(v', evs[1..]);
      }
    }
  }
}
