/**
 The whole merge, collection, cap and sort included: what it leaves under each key, and which
 contacts the cap cuts.
 */
module ContactsMerge {
  import opened Options
  import opened Contacts
  import opened ContactsRegister

  // ----- The sort -----

  lemma {:induction false} LessTransitive(a: string, b: string, c: string)
    requires Less(a, b) && Less(b, c)
    ensures Less(a, c)
  {
    if a != [] && a[0] == b[0] && b[0] == c[0] {
      LessTransitive(a[1..], b[1..], c[1..]);
    }
  }

  lemma {:induction false} LessTotal(a: string, b: string)
    ensures Less(a, b) || Less(b, a) || a == b
    ensures !(Less(a, b) && Less(b, a))
    ensures !Less(a, a)
    decreases |a|
  {
    if a != [] {
      LessTotal(a[1..], a[1..]);
      if b != [] && a[0] == b[0] {
        LessTotal(a[1..], b[1..]);
        if a[1..] == b[1..] {
          assert a == [a[0]] + a[1..] == [b[0]] + b[1..] == b;
        }
      }
    }
  }

  lemma KeyLessTransitive(k: Key, l: Key, m: Key)
    requires KeyLess(k, l) && KeyLess(l, m)
    ensures KeyLess(k, m)
  {
    if Less(k.address, l.address) && Less(l.address, m.address) {
      LessTransitive(k.address, l.address, m.address);
    } else if k.address == l.address == m.address {
      LessTransitive(k.network, l.network, m.network);
    }
  }

  lemma KeyLessTotal(k: Key, l: Key)
    ensures KeyLess(k, l) || KeyLess(l, k) || k == l
    ensures !(KeyLess(k, l) && KeyLess(l, k)) && !KeyLess(k, k)
  {
    LessTotal(k.address, l.address);
    LessTotal(k.network, l.network);
  }

  ghost predicate InOrder(ts: seq<Tombstone>) {
    forall i, j | 0 <= i < j < |ts| :: KeyLess(Deleted(ts[i]), Deleted(ts[j]))
  }

  lemma {:induction false} InsertedMembers(ts: seq<Tombstone>, t: Tombstone)
    ensures multiset(Inserted(ts, t)) == multiset(ts) + multiset{t}
    ensures forall x :: x in Inserted(ts, t) <==> x in ts || x == t
  {
    if ts != [] && KeyLess(Deleted(t), Deleted(ts[|ts| - 1])) {
      assert ts == ts[..|ts| - 1] + [ts[|ts| - 1]];
      InsertedMembers(ts[..|ts| - 1], t);
    }
  }

  lemma {:induction false} InsertedInOrder(ts: seq<Tombstone>, t: Tombstone)
    requires InOrder(ts) && forall x | x in ts :: Deleted(x) != Deleted(t)
    ensures InOrder(Inserted(ts, t))
  {
    if ts != [] {
      var n := |ts| - 1;
      KeyLessTotal(Deleted(t), Deleted(ts[n]));
      if KeyLess(Deleted(t), Deleted(ts[n])) {
        InsertedInOrder(ts[..n], t);
        InsertedMembers(ts[..n], t);
        var init := Inserted(ts[..n], t);
        forall i | 0 <= i < |init|
          ensures KeyLess(Deleted(init[i]), Deleted(ts[n]))
        {
          assert init[i] in init;
        }
      } else {
        forall i | 0 <= i < n
          ensures KeyLess(Deleted(ts[i]), Deleted(t))
        {
          KeyLessTransitive(Deleted(ts[i]), Deleted(ts[n]), Deleted(t));
        }
      }
    }
  }

  /** Tombstones without duplicates come out strictly ordered by key, none lost or added. */
  lemma {:induction false} SortedInOrder(ts: seq<Tombstone>)
    requires DistinctDeletions(ts)
    ensures InOrder(Sorted(ts)) && DistinctDeletions(Sorted(ts))
    ensures multiset(Sorted(ts)) == multiset(ts)
    ensures forall t :: t in Sorted(ts) <==> t in ts
  {
    if ts != [] {
      var n := |ts| - 1;
      assert ts == ts[..n] + [ts[n]];
      SortedInOrder(ts[..n]);
      InsertedInOrder(Sorted(ts[..n]), ts[n]);
      InsertedMembers(Sorted(ts[..n]), ts[n]);
    }
    InOrderDistinct(Sorted(ts));
  }

  lemma InOrderDistinct(ts: seq<Tombstone>)
    requires InOrder(ts)
    ensures DistinctDeletions(ts)
  {
    forall i, j | 0 <= i < j < |ts|
      ensures Deleted(ts[i]) != Deleted(ts[j])
    {
      KeyLessTotal(Deleted(ts[i]), Deleted(ts[j]));
    }
  }

  /** A strictly ordered list is determined by what it holds. */
  lemma {:induction false} InOrderUnique(a: seq<Tombstone>, b: seq<Tombstone>)
    requires InOrder(a) && InOrder(b)
    requires forall t :: t in a <==> t in b
    ensures a == b
  {
    assert b != [] ==> b[0] in b;
    if a != [] {
      assert a[0] in a;
      LastIsSame(a, b);
      InitHolds(a);
      InitHolds(b);
      var a', b' := a[..|a| - 1], b[..|b| - 1];
      forall t
        ensures t in a' <==> t in b'
      {
        assert t in a' <==> t in a && t != a[|a| - 1];
        assert t in b' <==> t in b && t != b[|b| - 1];
      }
      InOrderUnique(a', b');
    }
  }

  lemma InitHolds(a: seq<Tombstone>)
    requires InOrder(a) && a != []
    ensures a == a[..|a| - 1] + [a[|a| - 1]]
    ensures forall t :: t in a[..|a| - 1] <==> t in a && t != a[|a| - 1]
  {
    InOrderDistinct(a);
  }

  lemma LastIsSame(a: seq<Tombstone>, b: seq<Tombstone>)
    requires InOrder(a) && InOrder(b) && a != [] && b != []
    requires forall t :: t in a <==> t in b
    ensures a[|a| - 1] == b[|b| - 1]
  {
    var x, y := a[|a| - 1], b[|b| - 1];
    assert x in a && y in b;
    var i :| 0 <= i < |b| && b[i] == x;
    var j :| 0 <= j < |a| && a[j] == y;
    KeyLessTotal(Deleted(x), Deleted(y));
  }

  // ----- The merge, key by key -----

  function RecentOf(d: Option<nat>, now: nat): Option<nat> {
    if d.Some? && d.value >= Cutoff(now) then d else None
  }

  lemma MergedDeletionAt(l: ContactState, i: ContactState, now: nat, k: Key)
    requires DistinctDeletions(l.tombstones)
    ensures DeletionAt(Merged(l, i, now).tombstones, k) == RecentOf(DeletionAt(Reconciled(l, i).tombstones, k), now)
  {
    var ts := Reconciled(l, i).tombstones;
    ReconciledDistinctDeletions(l, i);
    var kept := Recent(ts, Cutoff(now));
    RecentMembers(ts, Cutoff(now));
    RecentDistinct(ts, Cutoff(now));
    SortedInOrder(kept);
    var out := Sorted(kept);
    if FindDeletion(out, k) < |out| {
      DeletionAtOfMember(ts, out[FindDeletion(out, k)]);
    } else if FindDeletion(ts, k) < |ts| && ts[FindDeletion(ts, k)].deletedAt >= Cutoff(now) {
      DeletionAtOfMember(out, ts[FindDeletion(ts, k)]);
    }
  }

  /** The merge keeps the tombstones free of duplicates and sorted, keeps live and deleted keys
      apart and respects the cap, whatever arrives, and a duplicate-free contact list stays so. */
  lemma MergedWellKept(l: ContactState, i: ContactState, now: nat)
    requires DistinctDeletions(l.tombstones)
    ensures var m := Merged(l, i, now);
            && DistinctDeletions(m.tombstones) && InOrder(m.tombstones) && |m.contacts| <= MERGE_CAP && Apart(m)
            && (Distinct(l.contacts) ==> DuplicateFree(m))
  {
    if Distinct(l.contacts) {
      ReconciledDistinct(l, i);
    }
    ReconciledDistinctDeletions(l, i);
    ReconciledApart(l, i);
    var r := Reconciled(l, i);
    RecentDistinct(r.tombstones, Cutoff(now));
    SortedInOrder(Recent(r.tombstones, Cutoff(now)));
    RecentMembers(r.tombstones, Cutoff(now));
  }

  lemma ReconciledApart(l: ContactState, i: ContactState)
    requires DistinctDeletions(l.tombstones)
    ensures Apart(Reconciled(l, i))
  {
    var cs := UnionContacts(l.contacts, i.contacts);
    var ts := UnionTombstones(l.tombstones, i.tombstones);
    SurvivorsMembers(cs, ts);
    UnbeatenMembers(ts, Beaten(cs, ts));
    UnionDistinctDeletions(l.tombstones, i.tombstones);
    forall c, t | c in Survivors(cs, ts) && t in ts && KeyOf(c) == Deleted(t)
      ensures Deleted(t) in Beaten(cs, ts)
    {
      DeletionAtOfMember(ts, t);
    }
  }

  /** No key is both live and deleted. */
  ghost predicate Apart(s: ContactState) {
    forall c, t | c in s.contacts && t in s.tombstones :: KeyOf(c) != Deleted(t)
  }

  // ----- Which contacts are cut -----

  /** Positionally: the local contacts stay where they are, picked against the incoming ones;
      after them come incoming contacts of other keys. */
  lemma UnionShape(local: seq<Contact>, incoming: seq<Contact>)
    requires Distinct(local) && Distinct(incoming)
    ensures var u := UnionContacts(local, incoming);
            && |u| >= |local|
            && (forall j | 0 <= j < |local| ::
                  Some(u[j]) == PickAt(Some(local[j]), ContactAt(incoming, KeyOf(local[j]))))
            && (forall j | |local| <= j < |u| :: u[j] in incoming && KeyOf(u[j]) !in KeysOf(local))
  {
    UnionOrder(local, incoming);
    var u := UnionContacts(local, incoming);
    assert |KeysOf(u)| == |u|;
    forall j | 0 <= j < |local|
      ensures Some(u[j]) == PickAt(Some(local[j]), ContactAt(incoming, KeyOf(local[j])))
    {
      UnionLocalPart(local, incoming, j);
    }
    forall j | |local| <= j < |u|
      ensures u[j] in incoming && KeyOf(u[j]) !in KeysOf(local)
    {
      UnionNewPart(local, incoming, j);
    }
  }

  lemma UnionLocalPart(local: seq<Contact>, incoming: seq<Contact>, j: nat)
    requires Distinct(local) && Distinct(incoming) && j < |local| <= |UnionContacts(local, incoming)|
    ensures Some(UnionContacts(local, incoming)[j]) == PickAt(Some(local[j]), ContactAt(incoming, KeyOf(local[j])))
  {
    var u := UnionContacts(local, incoming);
    UnionDistinct(local, incoming);
    UnionOrder(local, incoming);
    assert KeysOf(u)[j] == KeysOf(local)[j];
    UnionContactsAt(local, incoming, KeyOf(local[j]));
    AtOfMember(u, u[j]);
    AtOfMember(local, local[j]);
  }

  lemma UnionNewPart(local: seq<Contact>, incoming: seq<Contact>, j: nat)
    requires Distinct(local) && Distinct(incoming) && |local| <= j < |UnionContacts(local, incoming)|
    ensures var c := UnionContacts(local, incoming)[j];
            c in incoming && KeyOf(c) !in KeysOf(local)
  {
    var u := UnionContacts(local, incoming);
    UnionDistinct(local, incoming);
    UnionOrder(local, incoming);
    assert KeysOf(u)[j] == NewKeys(local, incoming)[j - |local|];
    NewKeysAreNew(local, incoming);
    AbsentKey(local, KeyOf(u[j]));
    UnionContactsAt(local, incoming, KeyOf(u[j]));
    AtOfMember(u, u[j]);
  }

  lemma AbsentKey(cs: seq<Contact>, k: Key)
    requires k !in KeysOf(cs)
    ensures ContactAt(cs, k).None?
  {
    forall i | 0 <= i < |cs|
      ensures KeyOf(cs[i]) != k
    {
      assert KeysOf(cs)[i] == KeyOf(cs[i]);
    }
  }

  lemma {:induction false} NewKeysAreNew(local: seq<Contact>, incoming: seq<Contact>)
    ensures forall k | k in NewKeys(local, incoming) :: k !in KeysOf(local)
  {
    if incoming != [] {
      NewKeysAreNew(local, incoming[..|incoming| - 1]);
    }
  }

  lemma {:induction false} SurvivorsConcat(a: seq<Contact>, b: seq<Contact>, ts: seq<Tombstone>)
    ensures Survivors(a + b, ts) == Survivors(a, ts) + Survivors(b, ts)
  {
    if b == [] {
      assert a + b == a;
    } else {
      var n := |b| - 1;
      assert (a + b)[..|a + b| - 1] == a + b[..n];
      SurvivorsConcat(a, b[..n], ts);
    }
  }

  lemma {:induction false} SurvivorsAll(cs: seq<Contact>, ts: seq<Tombstone>)
    requires forall c | c in cs :: Survives(c, ts)
    ensures Survivors(cs, ts) == cs
  {
    if cs != [] {
      var front, c := cs[..|cs| - 1], cs[|cs| - 1];
      assert cs == front + [c];
      SurvivorsAll(front, ts);
    }
  }

  lemma {:induction false} SurvivorsNone(cs: seq<Contact>, ts: seq<Tombstone>)
    requires forall c | c in cs :: !Survives(c, ts)
    ensures Survivors(cs, ts) == []
  {
    if cs != [] {
      SurvivorsNone(cs[..|cs| - 1], ts);
    }
  }

  /** Contacts beyond the cap are incoming-only when the local list fits the cap. */
  lemma CutIsIncoming(a: ContactState, b: ContactState, j: nat)
    requires DuplicateFree(a) && DuplicateFree(b) && |a.contacts| <= MERGE_CAP
    requires MERGE_CAP <= j < |Reconciled(a, b).contacts|
    ensures var c := Reconciled(a, b).contacts[j];
            c in b.contacts && ContactAt(a.contacts, KeyOf(c)).None?
  {
    var u, ts := UnionContacts(a.contacts, b.contacts), UnionTombstones(a.tombstones, b.tombstones);
    UnionShape(a.contacts, b.contacts);
    var head, rest := u[..|a.contacts|], u[|a.contacts|..];
    assert u == head + rest;
    CutFromRest(head, rest, ts, j);
    var c := Survivors(u, ts)[j];
    var i :| 0 <= i < |rest| && rest[i] == c;
    assert u[|a.contacts| + i] == c;
    AbsentKey(a.contacts, KeyOf(c));
  }

  lemma CutFromRest(head: seq<Contact>, rest: seq<Contact>, ts: seq<Tombstone>, j: nat)
    requires |head| <= j < |Survivors(head + rest, ts)|
    ensures Survivors(head + rest, ts)[j] in rest
  {
    SurvivorsConcat(head, rest, ts);
    SurvivorsMembers(head, ts);
    SurvivorsMembers(rest, ts);
    assert Survivors(head + rest, ts)[j] in Survivors(rest, ts);
  }

  lemma CappedAt(cs: seq<Contact>, k: Key)
    requires Distinct(cs) && ContactAt(Capped(cs), k).Some?
    ensures ContactAt(Capped(cs), k) == ContactAt(cs, k)
  {
    var c := Capped(cs)[Find(Capped(cs), k)];
    AtOfMember(cs, c);
  }

  lemma PastCap(cs: seq<Contact>, k: Key)
    requires ContactAt(cs, k).Some? && ContactAt(Capped(cs), k).None?
    ensures MERGE_CAP <= Find(cs, k)
  {
    if Find(cs, k) < |Capped(cs)| {
      assert KeyOf(Capped(cs)[Find(cs, k)]) == k;
    }
  }

  lemma SameDeletions(a: seq<Tombstone>, b: seq<Tombstone>)
    requires InOrder(a) && InOrder(b)
    requires forall k :: DeletionAt(a, k) == DeletionAt(b, k)
    ensures a == b
  {
    InOrderDistinct(a);
    InOrderDistinct(b);
    forall t
      ensures t in a <==> t in b
    {
      if t in a {
        DeletionAtOfMember(a, t);
        assert b[FindDeletion(b, Deleted(t))] == t;
      }
      if t in b {
        DeletionAtOfMember(b, t);
        assert a[FindDeletion(a, Deleted(t))] == t;
      }
    }
    InOrderUnique(a, b);
  }
}
