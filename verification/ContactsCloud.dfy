/** What leaves the device, and what a removal means to a merge. */
module ContactsCloud {
  import opened Options
  import opened Contacts
  import opened ContactsRegister
  import opened ContactsMerge
  import opened ContactsDevice

  // ----- What leaves the device -----

  /** The cloud copy holds every deletion, and exactly the synced contacts in their order. */
  lemma SyncedOnlyHolds(s: ContactState)
    ensures var out := SyncedOnly(s);
            && out.tombstones == s.tombstones
            && (forall c :: c in out.contacts <==> c in s.contacts && c.synced)
            && (forall n | 0 <= n <= |s.contacts| ::
                  out.contacts == SyncedContacts(s.contacts[..n]) + SyncedContacts(s.contacts[n..]))
  {
    SyncedMembers(s.contacts);
    forall n | 0 <= n <= |s.contacts|
      ensures SyncedContacts(s.contacts) == SyncedContacts(s.contacts[..n]) + SyncedContacts(s.contacts[n..])
    {
      SyncedConcat(s.contacts[..n], s.contacts[n..]);
      assert s.contacts[..n] + s.contacts[n..] == s.contacts;
    }
  }

  lemma {:induction false} SyncedMembers(cs: seq<Contact>)
    ensures forall c :: c in SyncedContacts(cs) <==> c in cs && c.synced
  {
    if cs != [] {
      SyncedMembers(cs[..|cs| - 1]);
      assert cs == cs[..|cs| - 1] + [cs[|cs| - 1]];
    }
  }

  lemma {:induction false} SyncedConcat(a: seq<Contact>, b: seq<Contact>)
    ensures SyncedContacts(a + b) == SyncedContacts(a) + SyncedContacts(b)
  {
    if b == [] {
      assert a + b == a;
    } else {
      var front, c := b[..|b| - 1], b[|b| - 1];
      SyncedConcat(a, front);
      SyncedSnoc(a + front, c);
      assert a + b == (a + front) + [c];
    }
  }

  lemma SyncedSnoc(cs: seq<Contact>, c: Contact)
    ensures SyncedContacts(cs + [c]) == SyncedContacts(cs) + (if c.synced then [c] else [])
  {
    assert (cs + [c])[..|cs|] == cs;
  }

  /** What another device learns from the cloud copy: no contact of a key that neither it nor a
      synced contact here has. */
  lemma CloudCopyReveals(other: ContactState, s: ContactState, now: nat, k: Key)
    requires forall c | c in other.contacts :: KeyOf(c) != k
    requires forall c | c in s.contacts && c.synced :: KeyOf(c) != k
    ensures var copy := SyncedOnly(s);
            ContactAt(Merged(other, copy.(contacts := Synced(copy.contacts)), now).contacts, k) == None
  {
    var incoming := SyncedOnly(s).(contacts := Synced(SyncedContacts(s.contacts)));
    var cs := UnionContacts(other.contacts, incoming.contacts);
    var ts := UnionTombstones(other.tombstones, incoming.tombstones);
    SyncedMembers(s.contacts);
    SyncedNotUnder(SyncedContacts(s.contacts), k);
    UnionNotUnder(other.contacts, incoming.contacts, k);
    SurvivorsMembers(cs, ts);
    var kept := Merged(other, incoming, now).contacts;
    forall j | 0 <= j < |kept|
      ensures KeyOf(kept[j]) != k
    {
      assert kept[j] in Survivors(cs, ts);
    }
  }

  lemma {:induction false} SyncedNotUnder(cs: seq<Contact>, k: Key)
    requires forall c | c in cs :: KeyOf(c) != k
    ensures forall c | c in Synced(cs) :: KeyOf(c) != k
  {
    if cs != [] {
      assert cs[|cs| - 1] in cs;
      SyncedNotUnder(cs[..|cs| - 1], k);
    }
  }

  lemma {:induction false} UnionNotUnder(local: seq<Contact>, incoming: seq<Contact>, k: Key)
    requires forall c | c in local || c in incoming :: KeyOf(c) != k
    ensures forall c | c in UnionContacts(local, incoming) :: KeyOf(c) != k
  {
    if incoming != [] {
      UnionNotUnder(local, incoming[..|incoming| - 1], k);
      assert incoming[|incoming| - 1] in incoming;
    }
  }

  // ----- Removal -----

  /** A removal leaves in the tombstone of the key tagged with the active network, whether a
      contact was synced or not, and in no other: an untagged entry's own key gets none. */
  lemma RemovedKeyLeaves(s: ContactState, net: string, address: string, now: nat, k: Key)
    ensures DeletionAt(SyncedOnly(Removed(s, net, address, now)).tombstones, k) ==
            if k == Key(address, net) then Some(now) else DeletionAt(s.tombstones, k)
  {
    StampedAt(s.tombstones, Key(address, net), now, k);
  }

  lemma RemovedDistinct(s: ContactState, net: string, address: string, now: nat)
    requires DuplicateFree(s)
    ensures DuplicateFree(Removed(s, net, address, now))
  {
    ContactsButDistinct(s.contacts, address, net);
    var i, ts := FindDeletion(s.tombstones, Key(address, net)), Removed(s, net, address, now).tombstones;
    assert forall j | 0 <= j < |s.tombstones| :: Deleted(ts[j]) == Deleted(s.tombstones[j]);
  }

  /** What a removed key meets a merge with: its own deletion, as of now or an older one. */
  function DeletionLeft(s: ContactState, net: string, address: string, now: nat, k: Key): Option<nat> {
    if k == Key(address, net) then Some(now) else DeletionAt(s.tombstones, k)
  }

  /** A deletion is at least as late as the contact. */
  predicate Beats(d: Option<nat>, c: Contact) {
    d.Some? && c.updatedAt <= d.value
  }

  lemma RemovedThenReconciled(s: ContactState, i: ContactState, net: string, address: string, now: nat, k: Key)
    requires DuplicateFree(s) && DuplicateFree(i) && Matches(k, address, net)
    ensures ContactAt(Reconciled(Removed(s, net, address, now), i).contacts, k) ==
            LiveOf(ContactAt(i.contacts, k),
                   LaterAt(DeletionLeft(s, net, address, now, k), DeletionAt(i.tombstones, k)))
  {
    RemovedDistinct(s, net, address, now);
    RemovedAt(s, net, address, now, k);
    ReconciledAt(Removed(s, net, address, now), i, k);
  }

  /** A removed contact stays away under a key it stood under exactly when the other state has
      no contact there, or deletes it itself, or the device has a deletion of that very key that
      is late enough: the one just made for the tagged key, only an older one for the blank. The
      whole merge may also cut the contact at the cap. */
  lemma RemovedStaysDeadIff(s: ContactState, i: ContactState, net: string, address: string, now: nat,
                            later: nat, k: Key)
    requires DuplicateFree(s) && DuplicateFree(i) && Matches(k, address, net)
    ensures var removed, c := Removed(s, net, address, now), ContactAt(i.contacts, k);
            var dead := || c.None? || Beats(DeletionAt(i.tombstones, k), c.value)
                        || (if k == Key(address, net) then c.value.updatedAt <= now
                            else Beats(DeletionAt(s.tombstones, k), c.value));
            && (ContactAt(Reconciled(removed, i).contacts, k) == None <==> dead)
            && (|Reconciled(removed, i).contacts| <= MERGE_CAP ==>
                  (ContactAt(Merged(removed, i, later).contacts, k) == None <==> dead))
  {
    RemovedThenReconciled(s, i, net, address, now, k);
  }

  /** An untagged entry comes back with its removal from any device that still has it, whatever
      the stamps: the tombstone is written under another key. */
  lemma UntaggedReturns(c: Contact, net: string, now: nat, later: nat)
    requires c.network == "" && net != ""
    ensures var s := ContactState([c], []);
            var removed := Removed(s, net, c.address, now);
            ContactAt(removed.contacts, KeyOf(c)) == None &&
            ContactAt(Merged(removed, s, later).contacts, KeyOf(c)) == Some(c)
  {
    var s := ContactState([c], []);
    var removed := Removed(s, net, c.address, now);
    var r := Reconciled(removed, s).contacts;
    RemovedAt(s, net, c.address, now, KeyOf(c));
    RemovedThenReconciled(s, s, net, c.address, now, KeyOf(c));
    ContactsButMembers([c], c.address, net);
    UnionSmall(removed.contacts, c);
    SurvivorsMembers(UnionContacts(removed.contacts, [c]), UnionTombstones(removed.tombstones, []));
    assert Capped(r) == r;
  }

  lemma UnionSmall(local: seq<Contact>, c: Contact)
    ensures |UnionContacts(local, [c])| <= |local| + 1
  {
    assert [c][..0] == [];
  }
}
