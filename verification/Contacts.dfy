/**
 The tombstoned contact merge of `app-core/src/contacts.rs`. `Merged` is the merge as a function
 of its inputs; `MergeState` is the loop form of the source, proved to compute it.
 */
module Contacts {
  import opened Options

  const MERGE_CAP: nat := 100
  const TOMBSTONE_RETENTION_MS: nat := 90 * 24 * 60 * 60 * 1000

  /** What identifies a contact, and its deletion. */
  datatype Key = Key(address: string, network: string)

  datatype Contact = Contact(address: string, name: string, network: string, updatedAt: nat, synced: bool,
                             mlkemEk: Option<string>)

  datatype Tombstone = Tombstone(address: string, network: string, deletedAt: nat)

  datatype ContactState = ContactState(contacts: seq<Contact>, tombstones: seq<Tombstone>)

  function KeyOf(c: Contact): Key {
    Key(c.address, c.network)
  }

  function Deleted(t: Tombstone): Key {
    Key(t.address, t.network)
  }

  // ----- Lookup by key -----

  /** The position of the first contact under `k`, or the length of the list. */
  function Find(cs: seq<Contact>, k: Key): (i: nat)
    ensures i <= |cs|
    ensures i < |cs| ==> KeyOf(cs[i]) == k
    ensures forall j | 0 <= j < i :: KeyOf(cs[j]) != k
  {
    if cs == [] then 0 else if KeyOf(cs[0]) == k then 0 else 1 + Find(cs[1..], k)
  }

  function ContactAt(cs: seq<Contact>, k: Key): Option<Contact> {
    var i := Find(cs, k);
    if i < |cs| then Some(cs[i]) else None
  }

  /** The position of the first deletion of `k`, or the length of the list. */
  function FindDeletion(ts: seq<Tombstone>, k: Key): (i: nat)
    ensures i <= |ts|
    ensures i < |ts| ==> Deleted(ts[i]) == k
    ensures forall j | 0 <= j < i :: Deleted(ts[j]) != k
  {
    if ts == [] then 0 else if Deleted(ts[0]) == k then 0 else 1 + FindDeletion(ts[1..], k)
  }

  function DeletionAt(ts: seq<Tombstone>, k: Key): Option<nat> {
    var i := FindDeletion(ts, k);
    if i < |ts| then Some(ts[i].deletedAt) else None
  }

  // ----- The union of contacts -----

  /** Which of two contacts under one key stays: the later one; on a tie the existing one,
      taking over a name if it has none. */
  function Pick(existing: Contact, inc: Contact): Contact {
    if inc.updatedAt > existing.updatedAt then inc
    else if inc.updatedAt == existing.updatedAt && existing.name == "" && inc.name != ""
    then existing.(name := inc.name)
    else existing
  }

  function UnionContact(cs: seq<Contact>, inc: Contact): seq<Contact> {
    var i := Find(cs, KeyOf(inc));
    if i < |cs| then cs[i := Pick(cs[i], inc)] else cs + [inc]
  }

  function UnionContacts(local: seq<Contact>, incoming: seq<Contact>): seq<Contact> {
    if incoming == [] then local
    else UnionContact(UnionContacts(local, incoming[..|incoming| - 1]), incoming[|incoming| - 1])
  }

  // ----- The union of tombstones -----

  function UnionTombstone(ts: seq<Tombstone>, inc: Tombstone): seq<Tombstone> {
    var i := FindDeletion(ts, Deleted(inc));
    if i == |ts| then ts + [inc]
    else if inc.deletedAt > ts[i].deletedAt then ts[i := ts[i].(deletedAt := inc.deletedAt)]
    else ts
  }

  function UnionTombstones(local: seq<Tombstone>, incoming: seq<Tombstone>): seq<Tombstone> {
    if incoming == [] then local
    else UnionTombstone(UnionTombstones(local, incoming[..|incoming| - 1]), incoming[|incoming| - 1])
  }

  // ----- Contacts against tombstones -----

  /** A contact survives unless a deletion of its key is at least as late. */
  predicate Survives(c: Contact, ts: seq<Tombstone>) {
    var d := DeletionAt(ts, KeyOf(c));
    d.None? || c.updatedAt > d.value
  }

  function Survivors(cs: seq<Contact>, ts: seq<Tombstone>): seq<Contact> {
    if cs == [] then []
    else Survivors(cs[..|cs| - 1], ts) + (if Survives(cs[|cs| - 1], ts) then [cs[|cs| - 1]] else [])
  }

  /** The keys whose contact was touched after the deletion. */
  function Beaten(cs: seq<Contact>, ts: seq<Tombstone>): set<Key> {
    set c | c in cs && DeletionAt(ts, KeyOf(c)).Some? && Survives(c, ts) :: KeyOf(c)
  }

  function Unbeaten(ts: seq<Tombstone>, beaten: set<Key>): seq<Tombstone> {
    if ts == [] then []
    else Unbeaten(ts[..|ts| - 1], beaten) + (if Deleted(ts[|ts| - 1]) !in beaten then [ts[|ts| - 1]] else [])
  }

  /** Steps 1 to 3 of the merge. */
  function Reconciled(local: ContactState, incoming: ContactState): ContactState {
    var cs := UnionContacts(local.contacts, incoming.contacts);
    var ts := UnionTombstones(local.tombstones, incoming.tombstones);
    ContactState(Survivors(cs, ts), Unbeaten(ts, Beaten(cs, ts)))
  }

  // ----- Collection, cap and order -----

  function Cutoff(now: nat): nat {
    if now > TOMBSTONE_RETENTION_MS then now - TOMBSTONE_RETENTION_MS else 0
  }

  function Recent(ts: seq<Tombstone>, cutoff: nat): seq<Tombstone> {
    if ts == [] then []
    else Recent(ts[..|ts| - 1], cutoff) + (if ts[|ts| - 1].deletedAt >= cutoff then [ts[|ts| - 1]] else [])
  }

  function Capped(cs: seq<Contact>): seq<Contact> {
    if |cs| > MERGE_CAP then cs[..MERGE_CAP] else cs
  }

  /** Order of strings by their characters, a proper prefix first. */
  predicate Less(a: string, b: string) {
    b != [] && (a == [] || a[0] < b[0] || (a[0] == b[0] && Less(a[1..], b[1..])))
  }

  predicate KeyLess(k: Key, l: Key) {
    Less(k.address, l.address) || (k.address == l.address && Less(k.network, l.network))
  }

  function Inserted(ts: seq<Tombstone>, t: Tombstone): seq<Tombstone> {
    if ts == [] || !KeyLess(Deleted(t), Deleted(ts[|ts| - 1])) then ts + [t]
    else Inserted(ts[..|ts| - 1], t) + [ts[|ts| - 1]]
  }

  /** The stable sort by key. */
  function Sorted(ts: seq<Tombstone>): seq<Tombstone> {
    if ts == [] then [] else Inserted(Sorted(ts[..|ts| - 1]), ts[|ts| - 1])
  }

  function Merged(local: ContactState, incoming: ContactState, now: nat): ContactState {
    var r := Reconciled(local, incoming);
    ContactState(Capped(r.contacts), Sorted(Recent(r.tombstones, Cutoff(now))))
  }

  /** The part of a state that may leave the device. */
  function SyncedOnly(s: ContactState): ContactState {
    ContactState(SyncedContacts(s.contacts), s.tombstones)
  }

  function SyncedContacts(cs: seq<Contact>): seq<Contact> {
    if cs == [] then []
    else SyncedContacts(cs[..|cs| - 1]) + (if cs[|cs| - 1].synced then [cs[|cs| - 1]] else [])
  }

  // ----- The loops of `merge_state` -----

  lemma PrefixPlusOne<T>(s: seq<T>, n: nat)
    requires n < |s|
    ensures s[..n + 1] == s[..n] + [s[n]]
    ensures s[..n + 1][..n] == s[..n]
  {
  }

  method MergeContacts(local: seq<Contact>, incoming: seq<Contact>) returns (contacts: seq<Contact>)
    ensures contacts == UnionContacts(local, incoming)
  {
    contacts := local;
    for n := 0 to |incoming|
      invariant contacts == UnionContacts(local, incoming[..n])
    {
      PrefixPlusOne(incoming, n);
      var inc := incoming[n];
      var i := Find(contacts, KeyOf(inc));
      if i < |contacts| {
        var existing := contacts[i];
        if inc.updatedAt > existing.updatedAt {
          contacts := contacts[i := inc];
        } else if inc.updatedAt == existing.updatedAt && existing.name == "" && inc.name != "" {
          contacts := contacts[i := existing.(name := inc.name)];
        } else {
          assert contacts[i := existing] == contacts;
        }
      } else {
        contacts := contacts + [inc];
      }
    }
    assert incoming[..|incoming|] == incoming;
  }

  method MergeTombstones(local: seq<Tombstone>, incoming: seq<Tombstone>) returns (tombstones: seq<Tombstone>)
    ensures tombstones == UnionTombstones(local, incoming)
  {
    tombstones := local;
    for n := 0 to |incoming|
      invariant tombstones == UnionTombstones(local, incoming[..n])
    {
      PrefixPlusOne(incoming, n);
      var inc := incoming[n];
      var i := FindDeletion(tombstones, Deleted(inc));
      if i < |tombstones| {
        if inc.deletedAt > tombstones[i].deletedAt {
          tombstones := tombstones[i := tombstones[i].(deletedAt := inc.deletedAt)];
        }
      } else {
        tombstones := tombstones + [inc];
      }
    }
    assert incoming[..|incoming|] == incoming;
  }

  /** Step 3: the surviving contacts, and the keys whose tombstone is stale. */
  method Resolve(contacts: seq<Contact>, tombstones: seq<Tombstone>) returns (resolved: seq<Contact>, stale: seq<Key>)
    ensures resolved == Survivors(contacts, tombstones)
    ensures (set k | k in stale) == Beaten(contacts, tombstones)
  {
    resolved, stale := [], [];
    for n := 0 to |contacts|
      invariant resolved == Survivors(contacts[..n], tombstones)
      invariant (set k | k in stale) == Beaten(contacts[..n], tombstones)
    {
      PrefixPlusOne(contacts, n);
      var c := contacts[n];
      var i := FindDeletion(tombstones, KeyOf(c));
      assert forall x :: x in contacts[..n + 1] <==> x in contacts[..n] || x == c;
      if i < |tombstones| && c.updatedAt > tombstones[i].deletedAt {
        assert Beaten(contacts[..n + 1], tombstones) == Beaten(contacts[..n], tombstones) + {KeyOf(c)};
        stale := stale + [KeyOf(c)];
        resolved := resolved + [c];
      } else if i == |tombstones| {
        assert Beaten(contacts[..n + 1], tombstones) == Beaten(contacts[..n], tombstones);
        resolved := resolved + [c];
      } else {
        assert Beaten(contacts[..n + 1], tombstones) == Beaten(contacts[..n], tombstones);
      }
    }
    assert contacts[..|contacts|] == contacts;
  }

  lemma UnbeatenStep(ts: seq<Tombstone>, n: nat, beaten: set<Key>)
    requires n < |ts|
    ensures Unbeaten(ts[..n + 1], beaten) ==
            Unbeaten(ts[..n], beaten) + (if Deleted(ts[n]) !in beaten then [ts[n]] else [])
  {
    PrefixPlusOne(ts, n);
  }

  method RetainUnbeaten(tombstones: seq<Tombstone>, stale: seq<Key>) returns (kept: seq<Tombstone>)
    ensures kept == Unbeaten(tombstones, set k | k in stale)
  {
    kept := [];
    for n := 0 to |tombstones|
      invariant kept == Unbeaten(tombstones[..n], set k | k in stale)
    {
      UnbeatenStep(tombstones, n, set k | k in stale);
      if Deleted(tombstones[n]) !in stale {
        kept := kept + [tombstones[n]];
      }
    }
    assert tombstones[..|tombstones|] == tombstones;
  }

  lemma RecentStep(ts: seq<Tombstone>, n: nat, cutoff: nat)
    requires n < |ts|
    ensures Recent(ts[..n + 1], cutoff) == Recent(ts[..n], cutoff) + (if ts[n].deletedAt >= cutoff then [ts[n]] else [])
  {
    PrefixPlusOne(ts, n);
  }

  method RetainRecent(tombstones: seq<Tombstone>, cutoff: nat) returns (kept: seq<Tombstone>)
    ensures kept == Recent(tombstones, cutoff)
  {
    kept := [];
    for n := 0 to |tombstones|
      invariant kept == Recent(tombstones[..n], cutoff)
    {
      RecentStep(tombstones, n, cutoff);
      if tombstones[n].deletedAt >= cutoff {
        kept := kept + [tombstones[n]];
      }
    }
    assert tombstones[..|tombstones|] == tombstones;
  }

  method MergeState(local: ContactState, incoming: ContactState, now: nat) returns (merged: ContactState)
    ensures merged == Merged(local, incoming, now)
  {
    var contacts := MergeContacts(local.contacts, incoming.contacts);
    var tombstones := MergeTombstones(local.tombstones, incoming.tombstones);
    var resolved, stale := Resolve(contacts, tombstones);
    tombstones := RetainUnbeaten(tombstones, stale);
    var cutoff := if now > TOMBSTONE_RETENTION_MS then now - TOMBSTONE_RETENTION_MS else 0;
    tombstones := RetainRecent(tombstones, cutoff);
    if |resolved| > MERGE_CAP {
      resolved := resolved[..MERGE_CAP];
    }
    return ContactState(resolved, Sorted(tombstones));
  }
}
