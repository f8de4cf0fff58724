/** Merging the same incoming state a second time: exactly when that changes nothing. */
module ContactsAbsorption {
  import opened Options
  import opened Contacts
  import opened ContactsRegister
  import opened ContactsMerge

  /** A key whose deletion is forgotten by the first merge and whose incoming contact the second
      one brings back: the local deletion is past retention and beats both sides' contacts, and
      the incoming state has a contact of its own and no deletion that beats it. */
  predicate ReturnsOf(ca: Option<Contact>, cb: Option<Contact>, da: Option<nat>, db: Option<nat>, cutoff: nat) {
    && da.Some? && da.value < cutoff
    && cb.Some? && cb.value.updatedAt <= da.value
    && (ca.None? || ca.value.updatedAt <= da.value)
    && (db.None? || db.value < cb.value.updatedAt)
  }

  predicate Returns(a: ContactState, b: ContactState, now: nat, k: Key) {
    ReturnsOf(ContactAt(a.contacts, k), ContactAt(b.contacts, k), DeletionAt(a.tombstones, k),
              DeletionAt(b.tombstones, k), Cutoff(now))
  }

  // ----- One key -----

  lemma PickedAgain(a: Option<Contact>, b: Option<Contact>)
    ensures PickAt(PickAt(a, b), b) == PickAt(a, b)
  {
  }

  /** The second merge sees every contact of the first one unchanged. */
  lemma AgainContactAt(a: ContactState, b: ContactState, now: nat, k: Key)
    requires DuplicateFree(a) && DuplicateFree(b)
    requires ContactAt(Merged(a, b, now).contacts, k).Some?
    ensures ContactAt(Merged(a, b, now).contacts, k) == ContactAt(Reconciled(a, b).contacts, k)
    ensures PickAt(ContactAt(Merged(a, b, now).contacts, k), ContactAt(b.contacts, k)) ==
            ContactAt(Merged(a, b, now).contacts, k)
  {
    ReconciledDistinct(a, b);
    CappedAt(Reconciled(a, b).contacts, k);
    ReconciledAt(a, b, k);
    PickedAgain(ContactAt(a.contacts, k), ContactAt(b.contacts, k));
  }

  /** One key seen twice: `m` is what the first merge left live, or nothing if the cap cut it. */
  lemma AgainCase(a: Option<Contact>, b: Option<Contact>, da: Option<nat>, db: Option<nat>,
                  m: Option<Contact>, now: nat)
    requires var live := LiveOf(PickAt(a, b), LaterAt(da, db)); m == live || (m.None? && a.None?)
    ensures var live := LiveOf(PickAt(a, b), LaterAt(da, db));
            var dead := RecentOf(DeadOf(PickAt(a, b), LaterAt(da, db)), now);
            var c, d := PickAt(m, b), LaterAt(dead, db);
            && RecentOf(DeadOf(c, d), now) == dead
            && (m.Some? ==> LiveOf(c, d) == c)
            && (live.None? ==> (LiveOf(c, d).Some? <==> ReturnsOf(a, b, da, db, Cutoff(now))))
            && (ReturnsOf(a, b, da, db, Cutoff(now)) ==> live.None?)
  {
    PickedAgain(a, b);
  }

  /** What the first merge left of `k`: the contact, unless the cap cut an incoming-only one. */
  lemma FirstAt(a: ContactState, b: ContactState, now: nat, k: Key)
    requires DuplicateFree(a) && DuplicateFree(b) && |a.contacts| <= MERGE_CAP
    ensures var m := ContactAt(Merged(a, b, now).contacts, k);
            var c, d := PickAt(ContactAt(a.contacts, k), ContactAt(b.contacts, k)),
                        LaterAt(DeletionAt(a.tombstones, k), DeletionAt(b.tombstones, k));
            && (m == LiveOf(c, d) || (m.None? && ContactAt(a.contacts, k).None?))
            && (|Merged(a, b, now).contacts| < MERGE_CAP ==> m == LiveOf(c, d))
            && DeletionAt(Merged(a, b, now).tombstones, k) == RecentOf(DeadOf(c, d), now)
  {
    var m, r := Merged(a, b, now).contacts, Reconciled(a, b).contacts;
    ReconciledAt(a, b, k);
    MergedDeletionAt(a, b, now, k);
    if ContactAt(m, k).Some? {
      AgainContactAt(a, b, now, k);
    } else if ContactAt(r, k).Some? {
      PastCap(r, k);
      CutIsIncoming(a, b, Find(r, k));
    }
  }

  /** What the second merge leaves of `k` before the cap. */
  lemma AgainAt(a: ContactState, b: ContactState, now: nat, k: Key)
    requires DuplicateFree(a) && DuplicateFree(b) && |a.contacts| <= MERGE_CAP
    ensures var m := Merged(a, b, now);
            var c, d := PickAt(ContactAt(m.contacts, k), ContactAt(b.contacts, k)),
                        LaterAt(DeletionAt(m.tombstones, k), DeletionAt(b.tombstones, k));
            && RecentOf(DeadOf(c, d), now) == DeletionAt(m.tombstones, k)
            && (ContactAt(m.contacts, k).Some? ==> LiveOf(c, d) == c)
            && (|m.contacts| < MERGE_CAP && ContactAt(m.contacts, k).None? ==>
                  (LiveOf(c, d).Some? <==> Returns(a, b, now, k)))
            && (Returns(a, b, now, k) ==> ContactAt(m.contacts, k).None?)
  {
    FirstAt(a, b, now, k);
    AgainCase(ContactAt(a.contacts, k), ContactAt(b.contacts, k), DeletionAt(a.tombstones, k),
              DeletionAt(b.tombstones, k), ContactAt(Merged(a, b, now).contacts, k), now);
  }

  // ----- The lists -----

  lemma AgainKept(a: ContactState, b: ContactState, now: nat, j: nat)
    requires DuplicateFree(a) && DuplicateFree(b)
    requires |a.contacts| <= MERGE_CAP && j < |Merged(a, b, now).contacts|
    ensures var m := Merged(a, b, now);
            && PickAt(Some(m.contacts[j]), ContactAt(b.contacts, KeyOf(m.contacts[j]))) == Some(m.contacts[j])
            && Survives(m.contacts[j], UnionTombstones(m.tombstones, b.tombstones))
  {
    var m := Merged(a, b, now);
    MergedWellKept(a, b, now);
    var k := KeyOf(m.contacts[j]);
    AtOfMember(m.contacts, m.contacts[j]);
    AgainContactAt(a, b, now, k);
    AgainAt(a, b, now, k);
    UnionTombstonesAt(m.tombstones, b.tombstones, k);
  }

  lemma AgainDropped(a: ContactState, b: ContactState, now: nat, c: Contact)
    requires DuplicateFree(a) && DuplicateFree(b)
    requires |a.contacts| <= MERGE_CAP && |Merged(a, b, now).contacts| < MERGE_CAP
    requires c in b.contacts && KeyOf(c) !in KeysOf(Merged(a, b, now).contacts) && !Returns(a, b, now, KeyOf(c))
    ensures !Survives(c, UnionTombstones(Merged(a, b, now).tombstones, b.tombstones))
  {
    var m := Merged(a, b, now);
    AtOfMember(b.contacts, c);
    AbsentKey(m.contacts, KeyOf(c));
    AgainAt(a, b, now, KeyOf(c));
    UnionTombstonesAt(m.tombstones, b.tombstones, KeyOf(c));
  }

  /** The cap is reached, or nothing comes back. */
  ghost predicate Absorbs(a: ContactState, b: ContactState, now: nat) {
    |Merged(a, b, now).contacts| == MERGE_CAP || forall k :: !Returns(a, b, now, k)
  }

  /** Of the second union's contacts, the first merge's survive and, below the cap, no other. */
  lemma AgainUnion(a: ContactState, b: ContactState, now: nat, j: nat)
    requires DuplicateFree(a) && DuplicateFree(b) && |a.contacts| <= MERGE_CAP && Absorbs(a, b, now)
    requires j < |UnionContacts(Merged(a, b, now).contacts, b.contacts)|
    ensures var m := Merged(a, b, now);
            var u, ts := UnionContacts(m.contacts, b.contacts), UnionTombstones(m.tombstones, b.tombstones);
            && |u| >= |m.contacts|
            && (j < |m.contacts| ==> u[j] == m.contacts[j] && Survives(u[j], ts))
            && (|m.contacts| <= j && |m.contacts| < MERGE_CAP ==> !Survives(u[j], ts))
  {
    var m := Merged(a, b, now);
    MergedWellKept(a, b, now);
    UnionShape(m.contacts, b.contacts);
    if j < |m.contacts| {
      AgainKept(a, b, now, j);
    } else if |m.contacts| < MERGE_CAP {
      AgainDropped(a, b, now, UnionContacts(m.contacts, b.contacts)[j]);
    }
  }

  lemma AgainContacts(a: ContactState, b: ContactState, now: nat)
    requires DuplicateFree(a) && DuplicateFree(b) && |a.contacts| <= MERGE_CAP && Absorbs(a, b, now)
    ensures var m := Merged(a, b, now);
            Merged(m, b, now).contacts == m.contacts
  {
    var m := Merged(a, b, now);
    var u := UnionContacts(m.contacts, b.contacts);
    var ts := UnionTombstones(m.tombstones, b.tombstones);
    MergedWellKept(a, b, now);
    UnionShape(m.contacts, b.contacts);
    forall j | 0 <= j < |u|
      ensures j < |m.contacts| ==> u[j] == m.contacts[j] && Survives(u[j], ts)
      ensures |m.contacts| <= j && |m.contacts| < MERGE_CAP ==> !Survives(u[j], ts)
    {
      AgainUnion(a, b, now, j);
    }
    CappedAgain(u, m.contacts, ts);
  }

  lemma CappedAgain(u: seq<Contact>, head: seq<Contact>, ts: seq<Tombstone>)
    requires |head| <= MERGE_CAP && |head| <= |u|
    requires forall j | 0 <= j < |head| :: u[j] == head[j] && Survives(u[j], ts)
    requires |head| < MERGE_CAP ==> forall j | |head| <= j < |u| :: !Survives(u[j], ts)
    ensures Capped(Survivors(u, ts)) == head
  {
    var rest := u[|head|..];
    assert u == head + rest;
    assert forall j | 0 <= j < |head| :: Survives(head[j], ts);
    assert |head| < MERGE_CAP ==> forall j | 0 <= j < |rest| :: !Survives(rest[j], ts);
    CappedParts(head, rest, ts);
  }

  lemma CappedParts(head: seq<Contact>, rest: seq<Contact>, ts: seq<Tombstone>)
    requires |head| <= MERGE_CAP
    requires forall j | 0 <= j < |head| :: Survives(head[j], ts)
    requires |head| < MERGE_CAP ==> forall j | 0 <= j < |rest| :: !Survives(rest[j], ts)
    ensures Capped(Survivors(head + rest, ts)) == head
  {
    SurvivorsConcat(head, rest, ts);
    SurvivorsAll(head, ts);
    if |head| < MERGE_CAP {
      SurvivorsNone(rest, ts);
    }
  }

  /** Below the cap, a key that returns changes the list: it is in it, or the list is full. */
  lemma ReturnChanges(a: ContactState, b: ContactState, now: nat, k: Key)
    requires DuplicateFree(a) && DuplicateFree(b) && |a.contacts| <= MERGE_CAP
    requires |Merged(a, b, now).contacts| < MERGE_CAP && Returns(a, b, now, k)
    ensures Merged(Merged(a, b, now), b, now).contacts != Merged(a, b, now).contacts
  {
    var m := Merged(a, b, now);
    MergedWellKept(a, b, now);
    AgainAt(a, b, now, k);
    ReconciledAt(m, b, k);
    var r := Reconciled(m, b).contacts;
    assert |r| <= MERGE_CAP ==> Capped(r) == r && ContactAt(Capped(r), k) != ContactAt(m.contacts, k);
  }

  /** The tombstones are always absorbed. */
  lemma TombstonesAbsorb(a: ContactState, b: ContactState, now: nat)
    requires DuplicateFree(a) && DuplicateFree(b) && |a.contacts| <= MERGE_CAP
    ensures Merged(Merged(a, b, now), b, now).tombstones == Merged(a, b, now).tombstones
  {
    var m := Merged(a, b, now);
    var m' := Merged(m, b, now);
    MergedWellKept(a, b, now);
    MergedWellKept(m, b, now);
    forall k
      ensures DeletionAt(m'.tombstones, k) == DeletionAt(m.tombstones, k)
    {
      AgainAt(a, b, now, k);
      ReconciledAt(m, b, k);
      MergedDeletionAt(m, b, now, k);
    }
    SameDeletions(m'.tombstones, m.tombstones);
  }

  /**
   Absorption, exactly. Merging the same incoming state a second time changes nothing, element
   for element and tombstone order included, if and only if the first merge filled the list or
   no key returns. The incoming list may be of any length.
   */
  lemma MergeAbsorbsIff(a: ContactState, b: ContactState, now: nat)
    requires DuplicateFree(a) && DuplicateFree(b) && |a.contacts| <= MERGE_CAP
    ensures Merged(Merged(a, b, now), b, now) == Merged(a, b, now) <==>
            |Merged(a, b, now).contacts| == MERGE_CAP || forall k :: !Returns(a, b, now, k)
  {
    TombstonesAbsorb(a, b, now);
    MergedWellKept(a, b, now);
    if Absorbs(a, b, now) {
      AgainContacts(a, b, now);
    } else {
      var k :| Returns(a, b, now, k);
      ReturnChanges(a, b, now, k);
    }
  }

  ghost predicate AllRecent(s: ContactState, now: nat) {
    forall t | t in s.tombstones :: t.deletedAt >= Cutoff(now)
  }

  /** Nothing returns while every local deletion is within retention. */
  lemma MergeAbsorbs(a: ContactState, b: ContactState, now: nat)
    requires DuplicateFree(a) && DuplicateFree(b) && AllRecent(a, now) && |a.contacts| <= MERGE_CAP
    ensures Merged(Merged(a, b, now), b, now) == Merged(a, b, now)
  {
    MergeAbsorbsIff(a, b, now);
    forall k
      ensures !Returns(a, b, now, k)
    {
      var ts := a.tombstones;
      assert FindDeletion(ts, k) < |ts| ==> ts[FindDeletion(ts, k)] in ts;
    }
  }
}
