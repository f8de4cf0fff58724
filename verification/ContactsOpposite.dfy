/**
 Two devices merge each other's state: when the two opposite merges agree, cap and collection
 included.
 */
module ContactsOpposite {
  import opened Options
  import opened Contacts
  import opened ContactsRegister
  import opened ContactsMerge
  import opened ContactsConvergence

  // ----- Ties -----

  /** Two contacts of one key come out the same in both orders: only one side has one, or one
      is later, or they differ in nothing but a name that one of them lacks. */
  predicate OrderFree(c: Option<Contact>, d: Option<Contact>) {
    || c.None? || d.None? || c.value.updatedAt != d.value.updatedAt
    || (c.value.(name := d.value.name) == d.value
        && (c.value.name == d.value.name || c.value.name == "" || d.value.name == ""))
  }

  lemma PickCommutesIff(c: Option<Contact>, d: Option<Contact>, k: Key)
    requires (c.Some? ==> KeyOf(c.value) == k) && (d.Some? ==> KeyOf(d.value) == k)
    ensures PickAt(c, d) == PickAt(d, c) <==> OrderFree(c, d)
  {
  }

  lemma LiveCommutesIff(c: Option<Contact>, d: Option<Contact>, x: Option<nat>, y: Option<nat>)
    ensures LiveOf(PickAt(c, d), LaterAt(x, y)) == LiveOf(PickAt(d, c), LaterAt(y, x)) <==>
            PickAt(c, d) == PickAt(d, c) || DeadOf(PickAt(c, d), LaterAt(x, y)).Some?
    ensures DeadOf(PickAt(c, d), LaterAt(x, y)) == DeadOf(PickAt(d, c), LaterAt(y, x))
  {
  }

  /** Under `k` the opposite merges leave the same contact, before collection and cap. */
  ghost predicate OrderFreeAt(a: ContactState, b: ContactState, k: Key) {
    OrderFree(ContactAt(a.contacts, k), ContactAt(b.contacts, k)) || DeletionWins(a, b, k)
  }

  /** Before collection and cap, two merges in opposite orders give the same contact under `k`
      exactly when the key dies, only one side holds it, or the sides' contacts do not tie or
      tie in a way that does not depend on the order. They always give the same deletion. */
  lemma MergeCommutesIff(a: ContactState, b: ContactState, k: Key)
    requires DuplicateFree(a) && DuplicateFree(b)
    ensures ContactAt(Reconciled(a, b).contacts, k) == ContactAt(Reconciled(b, a).contacts, k) <==> OrderFreeAt(a, b, k)
    ensures DeletionAt(Reconciled(a, b).tombstones, k) == DeletionAt(Reconciled(b, a).tombstones, k)
  {
    ReconciledAt(a, b, k);
    ReconciledAt(b, a, k);
    MergeIsRegister(a, b, k);
    PickCommutesIff(ContactAt(a.contacts, k), ContactAt(b.contacts, k), k);
    LiveCommutesIff(ContactAt(a.contacts, k), ContactAt(b.contacts, k),
                    DeletionAt(a.tombstones, k), DeletionAt(b.tombstones, k));
  }

  // ----- The cap -----

  /** The keys that some contact holds and no deletion beats. */
  ghost function LiveKeys(a: ContactState, b: ContactState): set<Key> {
    set c | c in a.contacts + b.contacts && ContactWins(a, b, KeyOf(c)) :: KeyOf(c)
  }

  ghost function KeySet(cs: seq<Contact>): set<Key> {
    set c | c in cs :: KeyOf(c)
  }

  lemma {:induction false} KeySetSize(cs: seq<Contact>)
    requires Distinct(cs)
    ensures |KeySet(cs)| == |cs|
  {
    if cs != [] {
      var n := |cs| - 1;
      KeySetSize(cs[..n]);
      assert cs == cs[..n] + [cs[n]];
      assert KeySet(cs) == KeySet(cs[..n]) + {KeyOf(cs[n])};
    }
  }

  /** Before the cap a merge holds exactly the live keys, whichever way round. */
  lemma LiveKeysMerged(a: ContactState, b: ContactState)
    requires DuplicateFree(a) && DuplicateFree(b)
    ensures KeySet(Reconciled(a, b).contacts) == LiveKeys(a, b) == LiveKeys(b, a)
    ensures |Reconciled(a, b).contacts| == |LiveKeys(a, b)|
  {
    var cs := Reconciled(a, b).contacts;
    ReconciledDistinct(a, b);
    KeySetSize(cs);
    forall k
      ensures k in KeySet(cs) <==> k in LiveKeys(a, b)
      ensures k in LiveKeys(a, b) <==> k in LiveKeys(b, a)
    {
      LiveKeyAt(a, b, k);
      LiveKeyAt(b, a, k);
      SameWinner(a, b, k);
      InKeySet(cs, k);
    }
  }

  lemma InKeySet(cs: seq<Contact>, k: Key)
    ensures k in KeySet(cs) <==> ContactAt(cs, k).Some?
  {
    if ContactAt(cs, k).Some? {
      assert cs[Find(cs, k)] in cs;
    }
  }

  lemma LiveKeyAt(a: ContactState, b: ContactState, k: Key)
    requires DuplicateFree(a) && DuplicateFree(b)
    ensures k in LiveKeys(a, b) <==> ContactWins(a, b, k)
    ensures k in LiveKeys(a, b) <==> ContactAt(Reconciled(a, b).contacts, k).Some?
  {
    MergeIsRegister(a, b, k);
    if ContactWins(a, b, k) {
      var c :| HeldContact(a, b, k, c);
      assert c in a.contacts + b.contacts;
    }
  }

  lemma SameWinner(a: ContactState, b: ContactState, k: Key)
    ensures ContactWins(a, b, k) <==> ContactWins(b, a, k)
  {
    assert forall c :: HeldContact(a, b, k, c) <==> HeldContact(b, a, k, c);
    assert forall t :: HeldDeletion(a, b, k, t) <==> HeldDeletion(b, a, k, t);
  }

  /** Whenever two states that fit the cap have more live keys than the cap together, each
      merge drops a contact that the opposite one keeps. */
  lemma CapSplits(a: ContactState, b: ContactState, now: nat, later: nat)
    requires DuplicateFree(a) && DuplicateFree(b) && |a.contacts| <= MERGE_CAP && |b.contacts| <= MERGE_CAP
    requires |LiveKeys(a, b)| > MERGE_CAP
    ensures exists k ::
              ContactAt(Merged(a, b, now).contacts, k).None? && ContactAt(Merged(b, a, later).contacts, k).Some?
  {
    var k := CutKey(a, b);
    OwnKept(b, a, k);
    assert ContactAt(Merged(a, b, now).contacts, k).None?;
    assert ContactAt(Merged(b, a, later).contacts, k).Some?;
  }

  /** A live key of `b` that merging `b` into `a` drops. */
  lemma CutKey(a: ContactState, b: ContactState) returns (k: Key)
    requires DuplicateFree(a) && DuplicateFree(b) && |a.contacts| <= MERGE_CAP
    requires |LiveKeys(a, b)| > MERGE_CAP
    ensures ContactAt(Capped(Reconciled(a, b).contacts), k).None?
    ensures ContactAt(b.contacts, k).Some? && k in LiveKeys(b, a)
  {
    LiveKeysMerged(a, b);
    ReconciledDistinct(a, b);
    CutIsIncoming(a, b, MERGE_CAP);
    var cs := Reconciled(a, b).contacts;
    k := KeyOf(cs[MERGE_CAP]);
    CutAt(cs, MERGE_CAP);
    InKeySet(b.contacts, k);
    assert k in KeySet(cs);
  }

  /** A merge drops no live key of its local side, if that side fits the cap. */
  lemma OwnKept(a: ContactState, b: ContactState, k: Key)
    requires DuplicateFree(a) && DuplicateFree(b) && |a.contacts| <= MERGE_CAP
    requires ContactAt(a.contacts, k).Some? && k in LiveKeys(a, b)
    ensures ContactAt(Capped(Reconciled(a, b).contacts), k).Some?
  {
    var cs := Reconciled(a, b).contacts;
    LiveKeysMerged(a, b);
    InKeySet(cs, k);
    if ContactAt(Capped(cs), k).None? {
      PastCap(cs, k);
      CutIsIncoming(a, b, Find(cs, k));
    }
  }

  lemma CutAt(cs: seq<Contact>, j: nat)
    requires Distinct(cs) && MERGE_CAP <= j < |cs|
    ensures ContactAt(Capped(cs), KeyOf(cs[j])).None?
  {
    assert Capped(cs) == cs[..MERGE_CAP];
  }

  /**
   The opposite merges, whenever each of them runs. From two states that fit the cap they keep
   the same contact under every key exactly when the live keys of both fit the cap together
   and no key that stays live ties in a way that depends on the order.
   */
  lemma OppositeMergesIff(a: ContactState, b: ContactState, now: nat, later: nat)
    requires DuplicateFree(a) && DuplicateFree(b) && |a.contacts| <= MERGE_CAP && |b.contacts| <= MERGE_CAP
    ensures (forall k :: ContactAt(Merged(a, b, now).contacts, k) == ContactAt(Merged(b, a, later).contacts, k)) <==>
            |LiveKeys(a, b)| <= MERGE_CAP && forall k :: OrderFreeAt(a, b, k)
  {
    LiveKeysMerged(a, b);
    LiveKeysMerged(b, a);
    if |LiveKeys(a, b)| > MERGE_CAP {
      CapSplits(a, b, now, later);
    } else {
      forall k
        ensures ContactAt(Merged(a, b, now).contacts, k) == ContactAt(Merged(b, a, later).contacts, k) <==>
                OrderFreeAt(a, b, k)
      {
        MergeCommutesIff(a, b, k);
      }
    }
  }

  /** Within the cap the sides may be of any length. */
  lemma OppositeMergesAgree(a: ContactState, b: ContactState, now: nat, later: nat, k: Key)
    requires DuplicateFree(a) && DuplicateFree(b) && |LiveKeys(a, b)| <= MERGE_CAP
    ensures ContactAt(Merged(a, b, now).contacts, k) == ContactAt(Merged(b, a, later).contacts, k) <==>
            OrderFreeAt(a, b, k)
  {
    LiveKeysMerged(a, b);
    LiveKeysMerged(b, a);
    MergeCommutesIff(a, b, k);
  }

  /** Opposite merges at one time always leave the same list of tombstones. */
  lemma OppositeTombstones(a: ContactState, b: ContactState, now: nat)
    requires DuplicateFree(a) && DuplicateFree(b)
    ensures Merged(a, b, now).tombstones == Merged(b, a, now).tombstones
  {
    MergedWellKept(a, b, now);
    MergedWellKept(b, a, now);
    forall k
      ensures DeletionAt(Merged(a, b, now).tombstones, k) == DeletionAt(Merged(b, a, now).tombstones, k)
    {
      MergeCommutesIff(a, b, k);
      MergedDeletionAt(a, b, now, k);
      MergedDeletionAt(b, a, now, k);
    }
    SameDeletions(Merged(a, b, now).tombstones, Merged(b, a, now).tombstones);
  }

  /** A full list and one contact more, nothing tied and nothing deleted: the full side never
      takes the contact in, and the other side takes it in and drops one of the full list. */
  lemma FullListNeverLearns(full: seq<Contact>, c: Contact, now: nat, later: nat)
    requires Distinct(full) && |full| == MERGE_CAP && ContactAt(full, KeyOf(c)) == None
    ensures var a, b := ContactState(full, []), ContactState([c], []);
            && ContactAt(Merged(a, b, now).contacts, KeyOf(c)) == None
            && ContactAt(Merged(b, a, later).contacts, KeyOf(c)) == Some(c)
            && exists d :: d in full && ContactAt(Merged(b, a, later).contacts, KeyOf(d)) == None
  {
    var a, b := ContactState(full, []), ContactState([c], []);
    FullLocal(full, c);
    FullIncoming(full, c);
    LiveKeysMerged(a, b);
    LiveKeysMerged(b, a);
    var ds := Reconciled(b, a).contacts;
    ReconciledDistinct(b, a);
    CutIsIncoming(b, a, MERGE_CAP);
    CutAt(ds, MERGE_CAP);
    assert ds[MERGE_CAP] in full;
  }

  lemma FullLocal(full: seq<Contact>, c: Contact)
    requires Distinct(full) && |full| == MERGE_CAP && ContactAt(full, KeyOf(c)) == None
    ensures var cs := Reconciled(ContactState(full, []), ContactState([c], [])).contacts;
            |cs| == MERGE_CAP + 1 && ContactAt(Capped(cs), KeyOf(c)) == None
  {
    assert UnionContacts(full, []) == full && [c][..0] == [];
    assert UnionContacts(full, [c]) == full + [c];
    NothingDeleted(full, [c]);
    assert Distinct(full + [c]);
    CutAt(full + [c], MERGE_CAP);
  }

  lemma FullIncoming(full: seq<Contact>, c: Contact)
    requires Distinct(full) && |full| == MERGE_CAP && ContactAt(full, KeyOf(c)) == None
    ensures var cs := Reconciled(ContactState([c], []), ContactState(full, [])).contacts;
            ContactAt(Capped(cs), KeyOf(c)) == Some(c)
  {
    NothingDeleted([c], full);
    UnionFront(full, c);
    CappedFront(UnionContacts([c], full));
  }

  lemma UnionFront(full: seq<Contact>, c: Contact)
    requires Distinct(full) && ContactAt(full, KeyOf(c)) == None
    ensures UnionContacts([c], full) != [] && UnionContacts([c], full)[0] == c
  {
    UnionShape([c], full);
  }

  lemma CappedFront(cs: seq<Contact>)
    requires cs != []
    ensures ContactAt(Capped(cs), KeyOf(cs[0])) == Some(cs[0])
  {
  }

  /** Without deletions the merge is the union of the contacts. */
  lemma NothingDeleted(local: seq<Contact>, incoming: seq<Contact>)
    ensures Reconciled(ContactState(local, []), ContactState(incoming, [])).contacts == UnionContacts(local, incoming)
  {
    SurvivorsAll(UnionContacts(local, incoming), []);
  }
}
