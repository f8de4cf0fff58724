/**
 The merge as a per-key register: what `Reconciled` and `Merged` leave under each key, and in
 which order.
 */
module ContactsRegister {
  import opened Options
  import opened Contacts

  ghost predicate Distinct(cs: seq<Contact>) {
    forall i, j | 0 <= i < j < |cs| :: KeyOf(cs[i]) != KeyOf(cs[j])
  }

  ghost predicate DistinctDeletions(ts: seq<Tombstone>) {
    forall i, j | 0 <= i < j < |ts| :: Deleted(ts[i]) != Deleted(ts[j])
  }

  ghost predicate DuplicateFree(s: ContactState) {
    Distinct(s.contacts) && DistinctDeletions(s.tombstones)
  }

  function KeysOf(cs: seq<Contact>): (ks: seq<Key>)
    ensures |ks| == |cs| && forall i | 0 <= i < |cs| :: ks[i] == KeyOf(cs[i])
  {
    if cs == [] then [] else KeysOf(cs[..|cs| - 1]) + [KeyOf(cs[|cs| - 1])]
  }

  lemma AtOfMember(cs: seq<Contact>, c: Contact)
    requires Distinct(cs) && c in cs
    ensures ContactAt(cs, KeyOf(c)) == Some(c)
  {
  }

  lemma DeletionAtOfMember(ts: seq<Tombstone>, t: Tombstone)
    requires DistinctDeletions(ts) && t in ts
    ensures DeletionAt(ts, Deleted(t)) == Some(t.deletedAt)
  {
  }

  // ----- The unions, key by key -----

  function PickAt(a: Option<Contact>, b: Option<Contact>): Option<Contact> {
    if a.None? then b else if b.None? then a else Some(Pick(a.value, b.value))
  }

  function LaterAt(a: Option<nat>, b: Option<nat>): Option<nat> {
    if a.None? then b else if b.None? then a else Some(if b.value > a.value then b.value else a.value)
  }

  lemma UnionContactAt(cs: seq<Contact>, inc: Contact, k: Key)
    ensures ContactAt(UnionContact(cs, inc), k) ==
            if k == KeyOf(inc) then PickAt(ContactAt(cs, k), Some(inc)) else ContactAt(cs, k)
  {
    var u := UnionContact(cs, inc);
    var i := Find(cs, KeyOf(inc));
    assert forall j | 0 <= j < |cs| :: KeyOf(u[j]) == KeyOf(cs[j]);
    if Find(cs, k) < |cs| {
      assert KeyOf(u[Find(cs, k)]) == k;
    } else if i == |cs| && k == KeyOf(inc) {
      assert KeyOf(u[|cs|]) == k;
    }
  }

  lemma {:induction false} UnionContactsAt(local: seq<Contact>, incoming: seq<Contact>, k: Key)
    requires Distinct(incoming)
    ensures ContactAt(UnionContacts(local, incoming), k) == PickAt(ContactAt(local, k), ContactAt(incoming, k))
  {
    if incoming != [] {
      var n := |incoming| - 1;
      UnionContactsAt(local, incoming[..n], k);
      UnionContactAt(UnionContacts(local, incoming[..n]), incoming[n], k);
      PrefixFind(incoming, k);
    }
  }

  lemma PrefixFind(cs: seq<Contact>, k: Key)
    requires cs != []
    ensures var n := |cs| - 1;
            ContactAt(cs, k) == if ContactAt(cs[..n], k).Some? then ContactAt(cs[..n], k)
                                else if KeyOf(cs[n]) == k then Some(cs[n]) else None
  {
    var n := |cs| - 1;
    if Find(cs[..n], k) < n {
      assert KeyOf(cs[Find(cs[..n], k)]) == k;
    }
    if Find(cs, k) < n {
      assert KeyOf(cs[..n][Find(cs, k)]) == k;
    }
  }

  lemma UnionTombstoneAt(ts: seq<Tombstone>, inc: Tombstone, k: Key)
    ensures DeletionAt(UnionTombstone(ts, inc), k) ==
            if k == Deleted(inc) then LaterAt(DeletionAt(ts, k), Some(inc.deletedAt)) else DeletionAt(ts, k)
  {
    var u := UnionTombstone(ts, inc);
    assert forall j | 0 <= j < |ts| :: Deleted(u[j]) == Deleted(ts[j]);
    if FindDeletion(ts, k) < |ts| {
      assert Deleted(u[FindDeletion(ts, k)]) == k;
    } else if FindDeletion(ts, Deleted(inc)) == |ts| && k == Deleted(inc) {
      assert Deleted(u[|ts|]) == k;
    }
  }

  lemma {:induction false} UnionTombstonesAt(local: seq<Tombstone>, incoming: seq<Tombstone>, k: Key)
    requires DistinctDeletions(incoming)
    ensures DeletionAt(UnionTombstones(local, incoming), k) == LaterAt(DeletionAt(local, k), DeletionAt(incoming, k))
  {
    if incoming != [] {
      var n := |incoming| - 1;
      UnionTombstonesAt(local, incoming[..n], k);
      UnionTombstoneAt(UnionTombstones(local, incoming[..n]), incoming[n], k);
      PrefixFindDeletion(incoming, k);
    }
  }

  lemma PrefixFindDeletion(ts: seq<Tombstone>, k: Key)
    requires ts != []
    ensures var n := |ts| - 1;
            DeletionAt(ts, k) == if DeletionAt(ts[..n], k).Some? then DeletionAt(ts[..n], k)
                                 else if Deleted(ts[n]) == k then Some(ts[n].deletedAt) else None
  {
    var n := |ts| - 1;
    if FindDeletion(ts[..n], k) < n {
      assert Deleted(ts[FindDeletion(ts[..n], k)]) == k;
    }
    if FindDeletion(ts, k) < n {
      assert Deleted(ts[..n][FindDeletion(ts, k)]) == k;
    }
  }

  // ----- Order and distinctness of the unions -----

  /** The keys of `incoming` that `local` does not have, in order of first appearance. */
  function NewKeys(local: seq<Contact>, incoming: seq<Contact>): seq<Key> {
    if incoming == [] then []
    else
      var init := NewKeys(local, incoming[..|incoming| - 1]);
      var k := KeyOf(incoming[|incoming| - 1]);
      if k in KeysOf(local) || k in init then init else init + [k]
  }

  lemma KeysSnoc(cs: seq<Contact>, c: Contact)
    ensures KeysOf(cs + [c]) == KeysOf(cs) + [KeyOf(c)]
  {
  }

  lemma UnionKeys(cs: seq<Contact>, inc: Contact)
    ensures var ks := KeysOf(cs);
            KeysOf(UnionContact(cs, inc)) == if KeyOf(inc) in ks then ks else ks + [KeyOf(inc)]
  {
    var i := Find(cs, KeyOf(inc));
    if i < |cs| {
      assert KeysOf(cs)[i] == KeyOf(inc);
      assert KeysOf(UnionContact(cs, inc)) == KeysOf(cs);
    } else {
      assert KeyOf(inc) !in KeysOf(cs);
      KeysSnoc(cs, inc);
    }
  }

  lemma {:induction false} UnionOrder(local: seq<Contact>, incoming: seq<Contact>)
    ensures KeysOf(UnionContacts(local, incoming)) == KeysOf(local) + NewKeys(local, incoming)
  {
    if incoming != [] {
      var n := |incoming| - 1;
      UnionOrder(local, incoming[..n]);
      UnionKeys(UnionContacts(local, incoming[..n]), incoming[n]);
    }
  }

  lemma {:induction false} UnionDistinct(local: seq<Contact>, incoming: seq<Contact>)
    requires Distinct(local)
    ensures Distinct(UnionContacts(local, incoming))
  {
    if incoming != [] {
      UnionDistinct(local, incoming[..|incoming| - 1]);
    }
  }

  lemma {:induction false} UnionDistinctDeletions(local: seq<Tombstone>, incoming: seq<Tombstone>)
    requires DistinctDeletions(local)
    ensures DistinctDeletions(UnionTombstones(local, incoming))
  {
    if incoming != [] {
      UnionDistinctDeletions(local, incoming[..|incoming| - 1]);
    }
  }

  // ----- The filters -----

  lemma {:induction false} SurvivorsMembers(cs: seq<Contact>, ts: seq<Tombstone>)
    ensures forall c :: c in Survivors(cs, ts) <==> c in cs && Survives(c, ts)
    ensures |Survivors(cs, ts)| <= |cs|
  {
    if cs != [] {
      SurvivorsMembers(cs[..|cs| - 1], ts);
      assert cs == cs[..|cs| - 1] + [cs[|cs| - 1]];
    }
  }

  lemma {:induction false} SurvivorsDistinct(cs: seq<Contact>, ts: seq<Tombstone>)
    requires Distinct(cs)
    ensures Distinct(Survivors(cs, ts))
  {
    if cs != [] {
      var n := |cs| - 1;
      SurvivorsDistinct(cs[..n], ts);
      SurvivorsMembers(cs[..n], ts);
      var init := Survivors(cs[..n], ts);
      forall i | 0 <= i < |init|
        ensures KeyOf(init[i]) != KeyOf(cs[n])
      {
        assert init[i] in cs[..n];
      }
    }
  }

  lemma SurvivorsAt(cs: seq<Contact>, ts: seq<Tombstone>, k: Key)
    requires Distinct(cs)
    ensures var c := ContactAt(cs, k);
            ContactAt(Survivors(cs, ts), k) == if c.Some? && Survives(c.value, ts) then c else None
  {
    SurvivorsMembers(cs, ts);
    SurvivorsDistinct(cs, ts);
    var s := Survivors(cs, ts);
    if Find(s, k) < |s| {
      AtOfMember(cs, s[Find(s, k)]);
    } else if Find(cs, k) < |cs| && Survives(cs[Find(cs, k)], ts) {
      AtOfMember(s, cs[Find(cs, k)]);
    }
  }

  lemma {:induction false} UnbeatenMembers(ts: seq<Tombstone>, beaten: set<Key>)
    ensures forall t :: t in Unbeaten(ts, beaten) <==> t in ts && Deleted(t) !in beaten
  {
    if ts != [] {
      UnbeatenMembers(ts[..|ts| - 1], beaten);
      assert ts == ts[..|ts| - 1] + [ts[|ts| - 1]];
    }
  }

  lemma {:induction false} UnbeatenDistinct(ts: seq<Tombstone>, beaten: set<Key>)
    requires DistinctDeletions(ts)
    ensures DistinctDeletions(Unbeaten(ts, beaten))
  {
    if ts != [] {
      var n := |ts| - 1;
      UnbeatenDistinct(ts[..n], beaten);
      UnbeatenMembers(ts[..n], beaten);
      var init := Unbeaten(ts[..n], beaten);
      forall i | 0 <= i < |init|
        ensures Deleted(init[i]) != Deleted(ts[n])
      {
        assert init[i] in ts[..n];
      }
    }
  }

  lemma UnbeatenAt(ts: seq<Tombstone>, beaten: set<Key>, k: Key)
    requires DistinctDeletions(ts)
    ensures DeletionAt(Unbeaten(ts, beaten), k) == if k in beaten then None else DeletionAt(ts, k)
  {
    UnbeatenMembers(ts, beaten);
    UnbeatenDistinct(ts, beaten);
    var u := Unbeaten(ts, beaten);
    if FindDeletion(u, k) < |u| {
      DeletionAtOfMember(ts, u[FindDeletion(u, k)]);
    } else if FindDeletion(ts, k) < |ts| && k !in beaten {
      DeletionAtOfMember(u, ts[FindDeletion(ts, k)]);
    }
  }

  lemma {:induction false} RecentMembers(ts: seq<Tombstone>, cutoff: nat)
    ensures forall t :: t in Recent(ts, cutoff) <==> t in ts && t.deletedAt >= cutoff
  {
    if ts != [] {
      RecentMembers(ts[..|ts| - 1], cutoff);
      assert ts == ts[..|ts| - 1] + [ts[|ts| - 1]];
    }
  }

  lemma {:induction false} RecentDistinct(ts: seq<Tombstone>, cutoff: nat)
    requires DistinctDeletions(ts)
    ensures DistinctDeletions(Recent(ts, cutoff))
  {
    if ts != [] {
      var n := |ts| - 1;
      RecentDistinct(ts[..n], cutoff);
      RecentMembers(ts[..n], cutoff);
      var init := Recent(ts[..n], cutoff);
      forall i | 0 <= i < |init|
        ensures Deleted(init[i]) != Deleted(ts[n])
      {
        assert init[i] in ts[..n];
      }
    }
  }

  // ----- Reconciled, key by key -----

  /** What is left of a key with contact `c` and deletion `d`. */
  function LiveOf(c: Option<Contact>, d: Option<nat>): Option<Contact> {
    if c.Some? && (d.None? || c.value.updatedAt > d.value) then c else None
  }

  function DeadOf(c: Option<Contact>, d: Option<nat>): Option<nat> {
    if d.Some? && c.Some? && c.value.updatedAt > d.value then None else d
  }

  lemma BeatenKeys(cs: seq<Contact>, ts: seq<Tombstone>, k: Key)
    requires Distinct(cs)
    ensures k in Beaten(cs, ts) <==>
            var (c, d) := (ContactAt(cs, k), DeletionAt(ts, k));
            c.Some? && d.Some? && c.value.updatedAt > d.value
  {
    if k in Beaten(cs, ts) {
      var c :| c in cs && DeletionAt(ts, KeyOf(c)).Some? && Survives(c, ts) && KeyOf(c) == k;
      AtOfMember(cs, c);
    }
  }

  /** Under each key the reconciled state holds the picked contact or the later deletion. */
  lemma ReconciledAt(l: ContactState, i: ContactState, k: Key)
    requires DuplicateFree(l) && DuplicateFree(i)
    ensures var r := Reconciled(l, i);
            var c := PickAt(ContactAt(l.contacts, k), ContactAt(i.contacts, k));
            var d := LaterAt(DeletionAt(l.tombstones, k), DeletionAt(i.tombstones, k));
            && ContactAt(r.contacts, k) == LiveOf(c, d)
            && DeletionAt(r.tombstones, k) == DeadOf(c, d)
  {
    var cs := UnionContacts(l.contacts, i.contacts);
    var ts := UnionTombstones(l.tombstones, i.tombstones);
    UnionContactsAt(l.contacts, i.contacts, k);
    UnionTombstonesAt(l.tombstones, i.tombstones, k);
    UnionDistinct(l.contacts, i.contacts);
    UnionDistinctDeletions(l.tombstones, i.tombstones);
    SurvivorsAt(cs, ts, k);
    BeatenKeys(cs, ts, k);
    UnbeatenAt(ts, Beaten(cs, ts), k);
  }

  lemma ReconciledDistinct(l: ContactState, i: ContactState)
    requires DuplicateFree(l)
    ensures DuplicateFree(Reconciled(l, i))
  {
    var cs := UnionContacts(l.contacts, i.contacts);
    var ts := UnionTombstones(l.tombstones, i.tombstones);
    UnionDistinct(l.contacts, i.contacts);
    UnionDistinctDeletions(l.tombstones, i.tombstones);
    SurvivorsDistinct(cs, ts);
    UnbeatenDistinct(ts, Beaten(cs, ts));
  }

  lemma ReconciledDistinctDeletions(l: ContactState, i: ContactState)
    requires DistinctDeletions(l.tombstones)
    ensures DistinctDeletions(Reconciled(l, i).tombstones)
  {
    var ts := UnionTombstones(l.tombstones, i.tombstones);
    UnionDistinctDeletions(l.tombstones, i.tombstones);
    UnbeatenDistinct(ts, Beaten(UnionContacts(l.contacts, i.contacts), ts));
  }

  // ----- Refinement of "greatest timestamp, deletion wins ties" -----

  /** The contacts and the deletions of key `k` that either state holds. */
  ghost predicate HeldContact(l: ContactState, i: ContactState, k: Key, c: Contact) {
    KeyOf(c) == k && (c in l.contacts || c in i.contacts)
  }

  ghost predicate HeldDeletion(l: ContactState, i: ContactState, k: Key, t: Tombstone) {
    Deleted(t) == k && (t in l.tombstones || t in i.tombstones)
  }

  /** Some contact of `k` is later than every deletion of `k`. */
  ghost predicate ContactWins(l: ContactState, i: ContactState, k: Key) {
    exists c :: HeldContact(l, i, k, c) && forall t :: HeldDeletion(l, i, k, t) ==> c.updatedAt > t.deletedAt
  }

  /** Some deletion of `k` is at least as late as every contact of `k`. */
  ghost predicate DeletionWins(l: ContactState, i: ContactState, k: Key) {
    exists t :: HeldDeletion(l, i, k, t) && forall c :: HeldContact(l, i, k, c) ==> c.updatedAt <= t.deletedAt
  }

  /**
   Before collection and cap, a key is live exactly when its latest contact is later than its
   latest deletion, tombstoned exactly when a deletion is not beaten by any contact, and never
   both. The contact left is as late as any, and so is the deletion left.
   */
  lemma MergeIsRegister(l: ContactState, i: ContactState, k: Key)
    requires DuplicateFree(l) && DuplicateFree(i)
    ensures var r := Reconciled(l, i);
            var c := ContactAt(r.contacts, k);
            var d := DeletionAt(r.tombstones, k);
            && (c.Some? <==> ContactWins(l, i, k))
            && (d.Some? <==> DeletionWins(l, i, k))
            && (c.Some? ==> d.None?)
            && (c.Some? ==> forall x :: HeldContact(l, i, k, x) ==> x.updatedAt <= c.value.updatedAt)
            && (d.Some? ==> forall t :: HeldDeletion(l, i, k, t) ==> t.deletedAt <= d.value)
  {
    ReconciledAt(l, i, k);
    LatestContact(l, i, k);
    LatestDeletion(l, i, k);
  }

  lemma LatestContact(l: ContactState, i: ContactState, k: Key)
    requires DuplicateFree(l) && DuplicateFree(i)
    ensures var c := PickAt(ContactAt(l.contacts, k), ContactAt(i.contacts, k));
            && (c.None? ==> forall x :: !HeldContact(l, i, k, x))
            && (c.Some? ==>
                  && (forall x :: HeldContact(l, i, k, x) ==> x.updatedAt <= c.value.updatedAt)
                  && (exists x :: HeldContact(l, i, k, x) && x.updatedAt == c.value.updatedAt))
  {
    HeldContacts(l, i, k);
    var a, b := ContactAt(l.contacts, k), ContactAt(i.contacts, k);
    if a.Some? {
      assert HeldContact(l, i, k, a.value);
    }
    if b.Some? {
      assert HeldContact(l, i, k, b.value);
    }
  }

  lemma LatestDeletion(l: ContactState, i: ContactState, k: Key)
    requires DuplicateFree(l) && DuplicateFree(i)
    ensures var d := LaterAt(DeletionAt(l.tombstones, k), DeletionAt(i.tombstones, k));
            && (d.None? ==> forall t :: !HeldDeletion(l, i, k, t))
            && (d.Some? ==>
                  && (forall t :: HeldDeletion(l, i, k, t) ==> t.deletedAt <= d.value)
                  && (exists t :: HeldDeletion(l, i, k, t) && t.deletedAt == d.value))
  {
    HeldDeletions(l, i, k);
  }

  lemma HeldContacts(l: ContactState, i: ContactState, k: Key)
    requires DuplicateFree(l) && DuplicateFree(i)
    ensures var a, b := ContactAt(l.contacts, k), ContactAt(i.contacts, k);
            && (forall c :: HeldContact(l, i, k, c) <==> a == Some(c) || b == Some(c))
  {
    forall c | HeldContact(l, i, k, c)
      ensures ContactAt(l.contacts, k) == Some(c) || ContactAt(i.contacts, k) == Some(c)
    {
      if c in l.contacts {
        AtOfMember(l.contacts, c);
      } else {
        AtOfMember(i.contacts, c);
      }
    }
  }

  lemma HeldDeletions(l: ContactState, i: ContactState, k: Key)
    requires DuplicateFree(l) && DuplicateFree(i)
    ensures var a, b := DeletionAt(l.tombstones, k), DeletionAt(i.tombstones, k);
            && (forall t :: HeldDeletion(l, i, k, t) ==> a == Some(t.deletedAt) || b == Some(t.deletedAt))
            && (a.Some? ==> HeldDeletion(l, i, k, Tombstone(k.address, k.network, a.value)))
            && (b.Some? ==> HeldDeletion(l, i, k, Tombstone(k.address, k.network, b.value)))
  {
    forall t | HeldDeletion(l, i, k, t)
      ensures DeletionAt(l.tombstones, k) == Some(t.deletedAt) || DeletionAt(i.tombstones, k) == Some(t.deletedAt)
    {
      if t in l.tombstones {
        DeletionAtOfMember(l.tombstones, t);
      } else {
        DeletionAtOfMember(i.tombstones, t);
      }
    }
  }

  /** The keys of `ks` that are in `live`, in order. */
  function Kept(ks: seq<Key>, live: set<Key>): seq<Key> {
    if ks == [] then []
    else Kept(ks[..|ks| - 1], live) + (if ks[|ks| - 1] in live then [ks[|ks| - 1]] else [])
  }

  lemma KeptSnoc(ks: seq<Key>, k: Key, live: set<Key>)
    ensures Kept(ks + [k], live) == Kept(ks, live) + (if k in live then [k] else [])
  {
    assert (ks + [k])[..|ks|] == ks;
  }

  lemma {:induction false} SurvivorsOrder(cs: seq<Contact>, ts: seq<Tombstone>, live: set<Key>)
    requires forall c | c in cs :: KeyOf(c) in live <==> Survives(c, ts)
    ensures KeysOf(Survivors(cs, ts)) == Kept(KeysOf(cs), live)
  {
    if cs != [] {
      var front, c := cs[..|cs| - 1], cs[|cs| - 1];
      assert cs == front + [c];
      SurvivorsOrder(front, ts, live);
      KeysSnoc(front, c);
      KeptSnoc(KeysOf(front), KeyOf(c), live);
      KeysSnoc(Survivors(front, ts), c);
    }
  }

  /** The survivors keep the local order, followed by the incoming-only ones in theirs. */
  lemma MergeKeepsOrder(l: ContactState, i: ContactState, live: set<Key>)
    requires DuplicateFree(l) && DuplicateFree(i)
    requires forall k :: k in live <==> ContactWins(l, i, k)
    ensures KeysOf(Reconciled(l, i).contacts) == Kept(KeysOf(l.contacts) + NewKeys(l.contacts, i.contacts), live)
  {
    var cs := UnionContacts(l.contacts, i.contacts);
    var ts := UnionTombstones(l.tombstones, i.tombstones);
    UnionDistinct(l.contacts, i.contacts);
    UnionOrder(l.contacts, i.contacts);
    forall c | c in cs
      ensures KeyOf(c) in live <==> Survives(c, ts)
    {
      AtOfMember(cs, c);
      SurvivorsAt(cs, ts, KeyOf(c));
      MergeIsRegister(l, i, KeyOf(c));
    }
    SurvivorsOrder(cs, ts, live);
  }
}
