/** The merge in the numbers and comparisons of the contacts themselves. */
module ContactsMeaning {
  import opened Options
  import opened Contacts
  import opened ContactsRegister
  import opened ContactsMerge
  import opened ContactsDevice

  /** Of two contacts the later one stays as it is; of two equally late ones the local one stays,
      under its own name if it has one. */
  lemma LaterContactStays(a: ContactState, b: ContactState, k: Key)
    requires DuplicateFree(a) && DuplicateFree(b)
    requires ContactAt(a.contacts, k).Some? && ContactAt(b.contacts, k).Some?
    ensures var x, y := ContactAt(a.contacts, k).value, ContactAt(b.contacts, k).value;
            var r := ContactAt(Reconciled(a, b).contacts, k);
            r.Some? ==>
              && (x.updatedAt > y.updatedAt ==> r.value == x)
              && (x.updatedAt < y.updatedAt ==> r.value == y)
              && (x.updatedAt == y.updatedAt ==> r.value == x.(name := if x.name != "" then x.name else y.name))
  {
    ReconciledAt(a, b, k);
  }

  /** A contact that only one side has comes through as it is, or not at all. */
  lemma OnlyContactStays(a: ContactState, b: ContactState, k: Key)
    requires DuplicateFree(a) && DuplicateFree(b)
    requires ContactAt(a.contacts, k).None? || ContactAt(b.contacts, k).None?
    ensures var r := ContactAt(Reconciled(a, b).contacts, k);
            r.Some? ==> r == ContactAt(a.contacts, k) || r == ContactAt(b.contacts, k)
  {
    ReconciledAt(a, b, k);
  }

  /** A deletion that stands is kept for ninety days of milliseconds, to the millisecond. */
  lemma KeptNinetyDays(a: ContactState, b: ContactState, now: nat, k: Key)
    requires DistinctDeletions(a.tombstones)
    ensures var d := DeletionAt(Reconciled(a, b).tombstones, k);
            DeletionAt(Merged(a, b, now).tombstones, k) ==
            if d.Some? && now <= d.value + 7_776_000_000 then d else None
  {
    MergedDeletionAt(a, b, now, k);
  }

  /** The first hundred of the surviving contacts are kept, in their order. */
  lemma FirstHundred(a: ContactState, b: ContactState, now: nat)
    ensures var all, kept := Reconciled(a, b).contacts, Merged(a, b, now).contacts;
            kept <= all && |kept| == if |all| <= 100 then |all| else 100
  {
  }

  // ----- The order of tombstones -----

  /** The texts are alike up to `i`, where `a` has the lesser character. */
  ghost predicate FirstDifference(a: string, b: string, i: nat) {
    i < |a| && i < |b| && a[..i] == b[..i] && a[i] < b[i]
  }

  /** Text is less than text that it begins, and otherwise by the first character in which they
      differ. */
  lemma {:induction false} LessMeans(a: string, b: string)
    ensures Less(a, b) <==>
            || (a <= b && a != b)
            || exists i: nat :: FirstDifference(a, b, i)
    decreases |a|
  {
    if a != [] && b != [] && a[0] == b[0] {
      LessMeans(a[1..], b[1..]);
      LessBehind(a, b);
    } else if a != [] && b != [] && a[0] < b[0] {
      assert FirstDifference(a, b, 0);
    } else if a != [] && b != [] {
      DiffersAtStart(a, b);
    }
  }

  lemma LessBehind(a: string, b: string)
    requires a != [] && b != [] && a[0] == b[0]
    ensures (a <= b && a != b) <==> (a[1..] <= b[1..] && a[1..] != b[1..])
    ensures (exists i: nat :: FirstDifference(a, b, i)) <==> exists i: nat :: FirstDifference(a[1..], b[1..], i)
  {
    assert a == [a[0]] + a[1..] && b == [b[0]] + b[1..];
    if i: nat :| FirstDifference(a, b, i) {
      assert i > 0;
      assert a[1..][..i - 1] == a[..i][1..] && b[1..][..i - 1] == b[..i][1..];
      assert FirstDifference(a[1..], b[1..], i - 1);
    }
    if i: nat :| FirstDifference(a[1..], b[1..], i) {
      assert a[..i + 1] == [a[0]] + a[1..][..i] && b[..i + 1] == [b[0]] + b[1..][..i];
      assert FirstDifference(a, b, i + 1);
    }
  }

  lemma DiffersAtStart(a: string, b: string)
    requires a != [] && b != [] && a[0] > b[0]
    ensures !(a <= b) && forall i: nat :: !FirstDifference(a, b, i)
  {
    forall i: nat
      ensures !FirstDifference(a, b, i)
    {
      if i > 0 && i < |a| && i < |b| {
        assert a[..i][0] == a[0] && b[..i][0] == b[0];
      }
    }
  }

  /** A merge's tombstones go up by address, and under one address by network. */
  lemma TombstonesGoUp(a: ContactState, b: ContactState, now: nat, i: nat, j: nat)
    requires DistinctDeletions(a.tombstones) && i < j < |Merged(a, b, now).tombstones|
    ensures var s, t := Merged(a, b, now).tombstones[i], Merged(a, b, now).tombstones[j];
            if s.address != t.address then Less(s.address, t.address) else Less(s.network, t.network)
  {
    MergedWellKept(a, b, now);
    var s, t := Merged(a, b, now).tombstones[i], Merged(a, b, now).tombstones[j];
    LessTotal(s.address, t.address);
  }

  // ----- The device -----

  /** What arrives counts as synced, and is otherwise as it was. */
  lemma {:induction false} ArrivesSynced(cs: seq<Contact>)
    ensures |Synced(cs)| == |cs| && forall i | 0 <= i < |cs| :: Synced(cs)[i] == cs[i].(synced := true)
  {
    if cs != [] {
      ArrivesSynced(cs[..|cs| - 1]);
    }
  }

  /** A contact that only the cloud has is synced once it is merged in. */
  lemma FromCloudIsSynced(s: ContactState, incoming: ContactState, now: nat, k: Key)
    requires DuplicateFree(s) && DuplicateFree(incoming) && ContactAt(s.contacts, k).None?
    ensures var r := ContactAt(Merged(s, incoming.(contacts := Synced(incoming.contacts)), now).contacts, k);
            r.Some? ==> r.value.synced && ContactAt(incoming.contacts, k).Some? &&
                        r.value == ContactAt(incoming.contacts, k).value.(synced := true)
  {
    var marked := incoming.(contacts := Synced(incoming.contacts));
    ArrivesSynced(incoming.contacts);
    SameKeys(incoming.contacts, marked.contacts, k);
    ReconciledDistinct(s, marked);
    ReconciledAt(s, marked, k);
    if ContactAt(Merged(s, marked, now).contacts, k).Some? {
      CappedAt(Reconciled(s, marked).contacts, k);
    }
  }

  /** A run's operations are the device's own: each leaves what the device's method does. */
  lemma RunsAreTheDevice(s: ContactState, net: string, address: string, name: string, synced: bool,
                         incoming: ContactState, now: nat)
    ensures AfterOps(s, [Touch(net, address, now)]) == Touched(s, net, address, now)
    ensures AfterOps(s, [Name(net, address, name, synced, now)]) == Named(s, net, address, name, synced, now)
    ensures AfterOps(s, [Remove(net, address, now)]) == Removed(s, net, address, now)
    ensures AfterOps(s, [Merge(incoming, now)]) == Merged(s, incoming, now)
    ensures AfterOps(s, [Remove(net, address, now), Merge(incoming, now)]) ==
            Merged(Removed(s, net, address, now), incoming, now)
  {
    forall op: Op
      ensures AfterOps(s, [op]) == AfterOp(s, op)
    {
      assert [op][..0] == [];
    }
    var two := [Remove(net, address, now), Merge(incoming, now)];
    assert two[..1] == [Remove(net, address, now)];
  }

  /** A touch keeps the touched contact and the first ninety-nine others. */
  lemma TouchKeepsHundred(s: ContactState, net: string, address: string, now: nat)
    ensures var rest := Without(s.contacts, FirstMatch(s.contacts, address, net));
            var r := Touched(s, net, address, now).contacts;
            |r| == 1 + (if |rest| <= 99 then |rest| else 99) && r[1..] <= rest
  {
    TouchedMeans(s, net, address, now);
  }

  /** Which entries an operation takes for the contact. */
  lemma MatchMeans(c: Contact, address: string, net: string)
    ensures Matches(KeyOf(c), address, net) <==> c.address == address && (c.network == net || c.network == "")
  {
  }
}
