/** The owners' groups are a stable partition of the record's inputs. */
module BumpPartition {
  import opened Options
  import opened Ledger
  import opened BumpSources

  /** The inputs as the replacement lists them: the groups of `order`, one after the other. */
  function Regrouped(inputs: seq<TxInput>, owners: seq<nat>, order: seq<nat>): seq<TxInput>
    requires |inputs| == |owners|
  {
    if order == [] then []
    else Regrouped(inputs, owners, order[..|order| - 1]) + OwnedBy(inputs, owners, order[|order| - 1])
  }

  function Value(inputs: seq<TxInput>): nat {
    if inputs == [] then 0 else Value(inputs[..|inputs| - 1]) + inputs[|inputs| - 1].value
  }

  /** Every owner's inputs stand together, as a build that goes source by source leaves them. */
  ghost predicate SourceGrouped(owners: seq<nat>) {
    forall i, j, k | 0 <= i < j < k < |owners| && owners[i] == owners[k] :: owners[j] == owners[i]
  }

  lemma {:induction false} ValueOfConcat(a: seq<TxInput>, b: seq<TxInput>)
    ensures Value(a + b) == Value(a) + Value(b)
  {
    if b == [] {
      assert a + b == a;
    } else {
      ValueOfConcat(a, b[..|b| - 1]);
      assert (a + b)[..|a + b| - 1] == a + b[..|b| - 1];
    }
  }

  lemma RegroupedSnoc(inputs: seq<TxInput>, owners: seq<nat>, order: seq<nat>, o: nat)
    requires |inputs| == |owners|
    ensures Regrouped(inputs, owners, order + [o]) == Regrouped(inputs, owners, order) + OwnedBy(inputs, owners, o)
  {
    assert (order + [o])[..|order|] == order;
  }

  lemma OwnedSnoc(inputs: seq<TxInput>, owners: seq<nat>, x: TxInput, o: nat, p: nat)
    requires |inputs| == |owners|
    ensures OwnedBy(inputs + [x], owners + [p], o) == OwnedBy(inputs, owners, o) + (if p == o then [x] else [])
  {
    assert (inputs + [x])[..|inputs|] == inputs && (owners + [p])[..|owners|] == owners;
  }

  /** An input of another owner changes nothing. */
  lemma {:induction false} RegroupedOther(inputs: seq<TxInput>, owners: seq<nat>, order: seq<nat>, x: TxInput, p: nat)
    requires |inputs| == |owners| && p !in order
    ensures Regrouped(inputs + [x], owners + [p], order) == Regrouped(inputs, owners, order)
    decreases |order|
  {
    if order != [] {
      var front, o := order[..|order| - 1], order[|order| - 1];
      assert order == front + [o];
      RegroupedOther(inputs, owners, front, x, p);
      OwnedSnoc(inputs, owners, x, o, p);
    }
  }

  /** An input of the last owner of `order` comes last. */
  lemma RegroupedOwn(inputs: seq<TxInput>, owners: seq<nat>, front: seq<nat>, x: TxInput, p: nat)
    requires |inputs| == |owners| && p !in front
    ensures Regrouped(inputs + [x], owners + [p], front + [p]) == Regrouped(inputs, owners, front + [p]) + [x]
  {
    RegroupedSnoc(inputs + [x], owners + [p], front, p);
    RegroupedSnoc(inputs, owners, front, p);
    RegroupedOther(inputs, owners, front, x, p);
    OwnedSnoc(inputs, owners, x, p, p);
    var a, b := Regrouped(inputs, owners, front), OwnedBy(inputs, owners, p);
    assert a + (b + [x]) == (a + b) + [x];
  }

  lemma RegroupedPast(inputs: seq<TxInput>, owners: seq<nat>, front: seq<nat>, o: nat, x: TxInput, p: nat)
    requires |inputs| == |owners| && p != o
    requires multiset(Regrouped(inputs + [x], owners + [p], front)) ==
             multiset(Regrouped(inputs, owners, front)) + multiset{x}
    ensures multiset(Regrouped(inputs + [x], owners + [p], front + [o])) ==
            multiset(Regrouped(inputs, owners, front + [o])) + multiset{x}
  {
    RegroupedSnoc(inputs + [x], owners + [p], front, o);
    RegroupedSnoc(inputs, owners, front, o);
    OwnedSnoc(inputs, owners, x, o, p);
  }

  /** One more input lands in its owner's group and nowhere else. */
  lemma {:induction false} RegroupedStep(inputs: seq<TxInput>, owners: seq<nat>, order: seq<nat>, x: TxInput, p: nat)
    requires |inputs| == |owners| && AllDifferent(order) && p in order
    ensures multiset(Regrouped(inputs + [x], owners + [p], order)) ==
            multiset(Regrouped(inputs, owners, order)) + multiset{x}
    decreases |order|
  {
    var front, o := order[..|order| - 1], order[|order| - 1];
    assert order == front + [o];
    if p == o {
      RegroupedOwn(inputs, owners, front, x, p);
    } else {
      RegroupedStep(inputs, owners, front, x, p);
      RegroupedPast(inputs, owners, front, o, x, p);
    }
  }

  /** An owner seen for the first time adds an empty group to what came before. */
  lemma NewOwnerEmpty(inputs: seq<TxInput>, owners: seq<nat>, o: nat)
    requires |inputs| == |owners|
    ensures FirstSeen(owners + [o]) == if o in FirstSeen(owners) then FirstSeen(owners) else FirstSeen(owners) + [o]
    ensures Regrouped(inputs, owners, FirstSeen(owners + [o])) == Regrouped(inputs, owners, FirstSeen(owners))
  {
    assert (owners + [o])[..|owners|] == owners;
    SeenOnce(owners);
    if o !in FirstSeen(owners) {
      OwnedNone(inputs, owners, o);
      RegroupedSnoc(inputs, owners, FirstSeen(owners), o);
    }
  }

  /** Regrouping loses and doubles nothing. */
  ghost predicate Whole(inputs: seq<TxInput>, owners: seq<nat>)
    requires |inputs| == |owners|
  {
    multiset(Regrouped(inputs, owners, FirstSeen(owners))) == multiset(inputs)
  }

  lemma WholeStep(inputs: seq<TxInput>, owners: seq<nat>, x: TxInput, o: nat)
    requires |inputs| == |owners| && Whole(inputs, owners)
    ensures Whole(inputs + [x], owners + [o])
  {
    NewOwnerEmpty(inputs, owners, o);
    SeenOnce(owners + [o]);
    RegroupedStep(inputs, owners, FirstSeen(owners + [o]), x, o);
  }

  lemma WholePrefix(inputs: seq<TxInput>, owners: seq<nat>, n: nat)
    requires |inputs| == |owners| && n < |inputs| && Whole(inputs[..n], owners[..n])
    ensures Whole(inputs[..n + 1], owners[..n + 1])
  {
    assert inputs[..n + 1] == inputs[..n] + [inputs[n]] && owners[..n + 1] == owners[..n] + [owners[n]];
    WholeStep(inputs[..n], owners[..n], inputs[n], owners[n]);
  }

  lemma RegroupedAll(inputs: seq<TxInput>, owners: seq<nat>)
    requires |inputs| == |owners|
    ensures Whole(inputs, owners)
  {
    for n := 0 to |inputs|
      invariant Whole(inputs[..n], owners[..n])
    {
      WholePrefix(inputs, owners, n);
    }
    assert inputs[..|inputs|] == inputs && owners[..|owners|] == owners;
  }

  lemma {:induction false} SameValue(a: seq<TxInput>, b: seq<TxInput>)
    requires multiset(a) == multiset(b)
    ensures Value(a) == Value(b)
    decreases |a|
  {
    if a == [] {
      assert |multiset(b)| == 0;
    } else {
      var n, x := |a| - 1, a[|a| - 1];
      assert a == a[..n] + [x];
      assert x in multiset(b);
      var i :| 0 <= i < |b| && b[i] == x;
      assert b == b[..i] + [x] + b[i + 1..];
      assert multiset(b) == multiset(b[..i] + b[i + 1..]) + multiset{x};
      assert multiset(a) == multiset(a[..n]) + multiset{x};
      var a', b' := multiset(a[..n]), multiset(b[..i] + b[i + 1..]);
      assert a' == (a' + multiset{x}) - multiset{x} == (b' + multiset{x}) - multiset{x} == b';
      SameValue(a[..n], b[..i] + b[i + 1..]);
      ValueOfConcat(b[..i], b[i + 1..]);
      ValueOfConcat(b[..i] + [x], b[i + 1..]);
      ValueOfConcat(b[..i], [x]);
    }
  }

  // ----- When the replacement keeps the order of the original -----

  lemma {:induction false} LastSeen(owners: seq<nat>)
    requires owners != [] && SourceGrouped(owners)
    ensures FirstSeen(owners)[|FirstSeen(owners)| - 1] == owners[|owners| - 1]
  {
    var n := |owners| - 1;
    var o := owners[n];
    var seen := FirstSeen(owners[..n]);
    SeenOnce(owners[..n]);
    if o in seen {
      var i :| 0 <= i < n && owners[..n][i] == o;
      assert owners[n - 1] == o;
      LastSeen(owners[..n]);
    }
  }

  lemma LastSeenOnce(owners: seq<nat>, o: nat) returns (front: seq<nat>)
    requires SourceGrouped(owners + [o])
    ensures FirstSeen(owners + [o]) == front + [o] && o !in front
  {
    var order := FirstSeen(owners + [o]);
    front := order[..|order| - 1];
    LastSeen(owners + [o]);
    SeenOnce(owners + [o]);
  }

  /** The same inputs at the same places. */
  ghost predicate SamePlaces(a: seq<TxInput>, b: seq<TxInput>) {
    |a| == |b| && forall i | 0 <= i < |a| :: a[i] == b[i]
  }

  /** One input behind a record that was built source by source. */
  lemma KeepsOrderStep(inputs: seq<TxInput>, owners: seq<nat>, x: TxInput, o: nat)
    requires |inputs| == |owners| && SourceGrouped(owners + [o])
    ensures Regrouped(inputs + [x], owners + [o], FirstSeen(owners + [o])) ==
            Regrouped(inputs, owners, FirstSeen(owners)) + [x]
  {
    var front := LastSeenOnce(owners, o);
    NewOwnerEmpty(inputs, owners, o);
    RegroupedOwn(inputs, owners, front, x, o);
  }

  /** A record built source by source is regrouped to itself. */
  lemma {:induction false} GroupedKeepsOrder(inputs: seq<TxInput>, owners: seq<nat>)
    requires |inputs| == |owners| && SourceGrouped(owners)
    ensures SamePlaces(Regrouped(inputs, owners, FirstSeen(owners)), inputs)
  {
    if inputs != [] {
      var n := |inputs| - 1;
      GroupedKeepsOrder(inputs[..n], owners[..n]);
      assert inputs == inputs[..n] + [inputs[n]] && owners == owners[..n] + [owners[n]];
      KeepsOrderStep(inputs[..n], owners[..n], inputs[n], owners[n]);
    }
  }

  /** The owner of each input of `Regrouped`. */
  function RegroupedOwners(inputs: seq<TxInput>, owners: seq<nat>, order: seq<nat>): (r: seq<nat>)
    requires |inputs| == |owners|
    ensures |r| == |Regrouped(inputs, owners, order)|
  {
    if order == [] then []
    else
      RegroupedOwners(inputs, owners, order[..|order| - 1]) +
      seq(|OwnedBy(inputs, owners, order[|order| - 1])|, _ => order[|order| - 1])
  }

  lemma {:induction false} OwnedAt(inputs: seq<TxInput>, owners: seq<nat>, o: nat, k: nat) returns (i: nat)
    requires |inputs| == |owners| && k < |OwnedBy(inputs, owners, o)|
    ensures i < |inputs| && inputs[i] == OwnedBy(inputs, owners, o)[k] && owners[i] == o
  {
    var n := |inputs| - 1;
    if k < |OwnedBy(inputs[..n], owners[..n], o)| {
      i := OwnedAt(inputs[..n], owners[..n], o, k);
    } else {
      i := n;
    }
  }

  lemma {:induction false} RegroupedAt(inputs: seq<TxInput>, owners: seq<nat>, order: seq<nat>, k: nat) returns (i: nat)
    requires |inputs| == |owners| && k < |Regrouped(inputs, owners, order)|
    ensures i < |inputs| && inputs[i] == Regrouped(inputs, owners, order)[k]
    ensures owners[i] == RegroupedOwners(inputs, owners, order)[k]
    decreases |order|
  {
    var m := |order| - 1;
    var front := Regrouped(inputs, owners, order[..m]);
    if k < |front| {
      i := RegroupedAt(inputs, owners, order[..m], k);
    } else {
      i := OwnedAt(inputs, owners, order[m], k - |front|);
    }
  }

  lemma BlockGrouped(front: seq<nat>, o: nat, m: nat)
    requires SourceGrouped(front) && o !in front
    ensures SourceGrouped(front + seq(m, _ => o))
  {
    var all := front + seq(m, _ => o);
    assert forall i | 0 <= i < |front| :: all[i] == front[i] && front[i] in front;
    assert forall i | |front| <= i < |all| :: all[i] == o;
  }

  lemma {:induction false} RegroupedIsGrouped(inputs: seq<TxInput>, owners: seq<nat>, order: seq<nat>)
    requires |inputs| == |owners| && AllDifferent(order)
    ensures SourceGrouped(RegroupedOwners(inputs, owners, order))
    ensures forall o | o in RegroupedOwners(inputs, owners, order) :: o in order
    decreases |order|
  {
    if order != [] {
      var m := |order| - 1;
      RegroupedIsGrouped(inputs, owners, order[..m]);
      assert order[m] !in order[..m];
      BlockGrouped(RegroupedOwners(inputs, owners, order[..m]), order[m], |OwnedBy(inputs, owners, order[m])|);
    }
  }

  lemma SameOrderIsGrouped(inputs: seq<TxInput>, owners: seq<nat>)
    requires |inputs| == |owners| && AllDifferent(inputs)
    requires SamePlaces(Regrouped(inputs, owners, FirstSeen(owners)), inputs)
    ensures SourceGrouped(owners)
  {
    var order := FirstSeen(owners);
    SeenOnce(owners);
    RegroupedIsGrouped(inputs, owners, order);
    forall k | 0 <= k < |owners|
      ensures RegroupedOwners(inputs, owners, order)[k] == owners[k]
    {
      var i := RegroupedAt(inputs, owners, order, k);
      assert inputs[i] == inputs[k];
    }
    assert RegroupedOwners(inputs, owners, order) == owners;
  }

  /**
   The stable-partition law of the multi-key bump. The groups' owners are distinct, in
   first-seen order and exactly the record's owners; the groups hold every input once and the
   whole value; and, the record's inputs being distinct coins, the replacement lists them in
   the original order if and only if the record was built source by source.
   */
  lemma GroupsPartition(groups: seq<Group>, inputs: seq<TxInput>, owners: seq<nat>)
    requires GroupsOf(groups, inputs, owners)
    ensures forall j, k | 0 <= j < k < |groups| :: groups[j].owner != groups[k].owner
    ensures forall o :: o in owners <==> exists g :: 0 <= g < |groups| && groups[g].owner == o
    ensures var all := Regrouped(inputs, owners, FirstSeen(owners));
            && multiset(all) == multiset(inputs) && Value(all) == Value(inputs)
            && (AllDifferent(inputs) ==> (all == inputs <==> SourceGrouped(owners)))
  {
    var order := FirstSeen(owners);
    SeenOnce(owners);
    assert forall g | 0 <= g < |groups| :: groups[g].owner == order[g];
    forall o | o in owners
      ensures exists g :: 0 <= g < |groups| && groups[g].owner == o
    {
      var g :| 0 <= g < |order| && order[g] == o;
      assert groups[g].owner == o;
    }
    forall g | 0 <= g < |groups|
      ensures groups[g].owner in owners
    {
      assert order[g] in order;
    }
    RegroupedAll(inputs, owners);
    SameValue(Regrouped(inputs, owners, order), inputs);
    if SourceGrouped(owners) {
      GroupedKeepsOrder(inputs, owners);
    }
    if AllDifferent(inputs) && Regrouped(inputs, owners, order) == inputs {
      SameOrderIsGrouped(inputs, owners);
    }
  }
}
