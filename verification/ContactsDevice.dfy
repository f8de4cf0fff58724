/**
 The device's own contact operations of `src/lib.rs` (touch, name, remove) beside the merge,
 and what any run of the four keeps.

 The operations match an entry by address and by the active network or a blank legacy tag.
 */
module ContactsDevice {
  import opened Options
  import opened Contacts
  import opened ContactsRegister
  import opened ContactsMerge

  const CONTACTS_CAP: nat := 100

  predicate Matches(k: Key, address: string, net: string) {
    k.address == address && (k.network == net || k.network == "")
  }

  /** The position of the first matching contact, or the length of the list. */
  function FirstMatch(cs: seq<Contact>, address: string, net: string): (i: nat)
    ensures i <= |cs|
    ensures i < |cs| ==> Matches(KeyOf(cs[i]), address, net)
    ensures forall j | 0 <= j < i :: !Matches(KeyOf(cs[j]), address, net)
  {
    if cs == [] || Matches(KeyOf(cs[0]), address, net) then 0 else 1 + FirstMatch(cs[1..], address, net)
  }

  function ContactsBut(cs: seq<Contact>, address: string, net: string): seq<Contact> {
    if cs == [] then []
    else if Matches(KeyOf(cs[|cs| - 1]), address, net) then ContactsBut(cs[..|cs| - 1], address, net)
    else ContactsBut(cs[..|cs| - 1], address, net) + [cs[|cs| - 1]]
  }

  function DeletionsBut(ts: seq<Tombstone>, address: string, net: string): seq<Tombstone> {
    if ts == [] then []
    else if Matches(Deleted(ts[|ts| - 1]), address, net) then DeletionsBut(ts[..|ts| - 1], address, net)
    else DeletionsBut(ts[..|ts| - 1], address, net) + [ts[|ts| - 1]]
  }

  // ----- The operations on values -----

  function Touched(s: ContactState, net: string, address: string, now: nat): ContactState {
    var i := FirstMatch(s.contacts, address, net);
    var known := i < |s.contacts|;
    var touched := Contact(address, if known then s.contacts[i].name else "", net, now,
                         known && s.contacts[i].synced, if known then s.contacts[i].mlkemEk else None);
    var rest := if known then s.contacts[..i] + s.contacts[i + 1..] else s.contacts;
    var all := [touched] + rest;
    ContactState(if |all| > CONTACTS_CAP then all[..CONTACTS_CAP] else all, DeletionsBut(s.tombstones, address, net))
  }

  function Named(s: ContactState, net: string, address: string, name: string, synced: bool, now: nat): ContactState {
    var i := FirstMatch(s.contacts, address, net);
    ContactState(if i < |s.contacts|
                 then s.contacts[i := s.contacts[i].(name := name, updatedAt := now, synced := synced)]
                 else s.contacts,
                 DeletionsBut(s.tombstones, address, net))
  }

  function Removed(s: ContactState, net: string, address: string, now: nat): ContactState {
    var i := FindDeletion(s.tombstones, Key(address, net));
    ContactState(ContactsBut(s.contacts, address, net),
                 if i < |s.tombstones| then s.tombstones[i := s.tombstones[i].(deletedAt := now)]
                 else s.tombstones + [Tombstone(address, net, now)])
  }

  function Synced(cs: seq<Contact>): seq<Contact> {
    if cs == [] then [] else Synced(cs[..|cs| - 1]) + [cs[|cs| - 1].(synced := true)]
  }

  // ----- The device -----

  class Device {
    var network: string
    var contacts: seq<Contact>
    var tombstones: seq<Tombstone>

    function State(): ContactState
      reads this
    {
      ContactState(contacts, tombstones)
    }

    constructor (network: string)
      ensures State() == ContactState([], []) && this.network == network
    {
      this.network := network;
      contacts, tombstones := [], [];
    }

    /** Takes the first matching contact out of the list. */
    method TakeContact(address: string) returns (existing: Option<Contact>)
      modifies this`contacts
      ensures var before := old(contacts);
              var i := FirstMatch(before, address, network);
              if i < |before| then existing == Some(before[i]) && contacts == before[..i] + before[i + 1..]
              else existing == None && contacts == before
    {
      var i := FirstMatch(contacts, address, network);
      if i == |contacts| {
        return None;
      }
      existing := Some(contacts[i]);
      contacts := contacts[..i] + contacts[i + 1..];
    }

    method TouchContact(address: string, now: nat)
      modifies this
      ensures State() == Touched(old(State()), network, address, now) && network == old(network)
    {
      var existing := TakeContact(address);
      var name, synced, mlkemEk := "", false, None;
      if existing.Some? {
        name, synced, mlkemEk := existing.value.name, existing.value.synced, existing.value.mlkemEk;
      }
      contacts := [Contact(address, name, network, now, synced, mlkemEk)] + contacts;
      if |contacts| > CONTACTS_CAP {
        contacts := contacts[..CONTACTS_CAP];
      }
      tombstones := DeletionsBut(tombstones, address, network);
    }

    method NameContact(address: string, name: string, synced: bool, now: nat)
      modifies this
      ensures State() == Named(old(State()), network, address, name, synced, now) && network == old(network)
    {
      var i := FirstMatch(contacts, address, network);
      if i < |contacts| {
        contacts := contacts[i := contacts[i].(name := name, updatedAt := now, synced := synced)];
      }
      tombstones := DeletionsBut(tombstones, address, network);
    }

    method RemoveContact(address: string, now: nat)
      modifies this
      ensures State() == Removed(old(State()), network, address, now) && network == old(network)
    {
      contacts := ContactsBut(contacts, address, network);
      var i := FindDeletion(tombstones, Key(address, network));
      if i < |tombstones| {
        tombstones := tombstones[i := tombstones[i].(deletedAt := now)];
      } else {
        tombstones := tombstones + [Tombstone(address, network, now)];
      }
    }

    /** A pull from the cloud slot: everything there counts as synced. */
    method MergeIncoming(incoming: ContactState, now: nat)
      modifies this
      ensures State() == Merged(old(State()), incoming.(contacts := Synced(incoming.contacts)), now)
      ensures network == old(network)
    {
      var marked: seq<Contact> := [];
      for n := 0 to |incoming.contacts|
        invariant marked == Synced(incoming.contacts[..n])
        invariant State() == old(State()) && network == old(network)
      {
        PrefixPlusOne(incoming.contacts, n);
        marked := marked + [incoming.contacts[n].(synced := true)];
      }
      assert incoming.contacts[..|incoming.contacts|] == incoming.contacts;
      var merged := MergeState(State(), incoming.(contacts := marked), now);
      if merged != State() {
        contacts, tombstones := merged.contacts, merged.tombstones;
      }
    }
  }

  // ----- What the filters keep -----

  lemma {:induction false} ContactsButMembers(cs: seq<Contact>, address: string, net: string)
    ensures forall c :: c in ContactsBut(cs, address, net) <==> c in cs && !Matches(KeyOf(c), address, net)
    ensures |ContactsBut(cs, address, net)| <= |cs|
  {
    if cs != [] {
      ContactsButMembers(cs[..|cs| - 1], address, net);
      assert cs == cs[..|cs| - 1] + [cs[|cs| - 1]];
    }
  }

  lemma {:induction false} ContactsButDistinct(cs: seq<Contact>, address: string, net: string)
    requires Distinct(cs)
    ensures Distinct(ContactsBut(cs, address, net))
  {
    if cs != [] {
      var n := |cs| - 1;
      ContactsButDistinct(cs[..n], address, net);
      ContactsButMembers(cs[..n], address, net);
      var init := ContactsBut(cs[..n], address, net);
      forall i | 0 <= i < |init|
        ensures KeyOf(init[i]) != KeyOf(cs[n])
      {
        assert init[i] in cs[..n];
      }
    }
  }

  lemma {:induction false} DeletionsButMembers(ts: seq<Tombstone>, address: string, net: string)
    ensures forall t :: t in DeletionsBut(ts, address, net) <==> t in ts && !Matches(Deleted(t), address, net)
  {
    if ts != [] {
      DeletionsButMembers(ts[..|ts| - 1], address, net);
      assert ts == ts[..|ts| - 1] + [ts[|ts| - 1]];
    }
  }

  lemma {:induction false} DeletionsButDistinct(ts: seq<Tombstone>, address: string, net: string)
    requires DistinctDeletions(ts)
    ensures DistinctDeletions(DeletionsBut(ts, address, net))
  {
    if ts != [] {
      var n := |ts| - 1;
      DeletionsButDistinct(ts[..n], address, net);
      DeletionsButMembers(ts[..n], address, net);
      var init := DeletionsBut(ts[..n], address, net);
      forall i | 0 <= i < |init|
        ensures Deleted(init[i]) != Deleted(ts[n])
      {
        assert init[i] in ts[..n];
      }
    }
  }

  lemma {:induction false} DeletionsButAt(ts: seq<Tombstone>, address: string, net: string, k: Key)
    ensures DeletionAt(DeletionsBut(ts, address, net), k) ==
            if Matches(k, address, net) then None else DeletionAt(ts, k)
  {
    if ts != [] {
      var front := DeletionsBut(ts[..|ts| - 1], address, net);
      DeletionsButAt(ts[..|ts| - 1], address, net, k);
      PrefixFindDeletion(ts, k);
      PrefixFindDeletion(front + [ts[|ts| - 1]], k);
      assert (front + [ts[|ts| - 1]])[..|front|] == front;
    }
  }

  lemma {:induction false} ContactsButAt(cs: seq<Contact>, address: string, net: string, k: Key)
    ensures ContactAt(ContactsBut(cs, address, net), k) == if Matches(k, address, net) then None else ContactAt(cs, k)
  {
    if cs != [] {
      var front := ContactsBut(cs[..|cs| - 1], address, net);
      ContactsButAt(cs[..|cs| - 1], address, net, k);
      PrefixFind(cs, k);
      PrefixFind(front + [cs[|cs| - 1]], k);
      assert (front + [cs[|cs| - 1]])[..|front|] == front;
    }
  }

  // ----- What each operation does to each key -----

  /** No blank legacy tag. */
  ghost predicate Tagged(s: ContactState) {
    && (forall c | c in s.contacts :: c.network != "")
    && (forall t | t in s.tombstones :: t.network != "")
  }

  /** Removing a contact takes away every entry it may stand under, tagged or not, and deletes
      the key tagged with the active network as of now. The key of an untagged entry is not
      deleted, and nothing else changes under any key. */
  lemma RemovedAt(s: ContactState, net: string, address: string, now: nat, k: Key)
    ensures var r := Removed(s, net, address, now);
            && ContactAt(r.contacts, k) == (if Matches(k, address, net) then None else ContactAt(s.contacts, k))
            && DeletionAt(r.tombstones, k) ==
               (if k == Key(address, net) then Some(now) else DeletionAt(s.tombstones, k))
  {
    ContactsButAt(s.contacts, address, net, k);
    StampedAt(s.tombstones, Key(address, net), now, k);
  }

  lemma StampedAt(ts: seq<Tombstone>, key: Key, now: nat, k: Key)
    ensures var i := FindDeletion(ts, key);
            var stamped := if i < |ts| then ts[i := ts[i].(deletedAt := now)]
                           else ts + [Tombstone(key.address, key.network, now)];
            DeletionAt(stamped, k) == if k == key then Some(now) else DeletionAt(ts, k)
  {
    var i := FindDeletion(ts, key);
    var stamped := if i < |ts| then ts[i := ts[i].(deletedAt := now)]
                   else ts + [Tombstone(key.address, key.network, now)];
    assert forall j | 0 <= j < |ts| :: Deleted(stamped[j]) == Deleted(ts[j]);
    if FindDeletion(ts, k) < |ts| {
      assert Deleted(stamped[FindDeletion(ts, k)]) == k;
    } else if k == key {
      assert Deleted(stamped[|ts|]) == k;
    }
  }

  /** Touching makes the contact the front one, under the active network and stamped now, with
      the name, sync choice and shared key of the first entry it stood under, if any; that entry
      is gone, the others keep their order, and only past the cap is one lost. */
  lemma TouchedMeans(s: ContactState, net: string, address: string, now: nat)
    ensures var r, i := Touched(s, net, address, now), FirstMatch(s.contacts, address, net);
            var rest := Without(s.contacts, i);
            && r.contacts[0] == (if i < |s.contacts| then s.contacts[i].(network := net, updatedAt := now)
                                 else Contact(address, "", net, now, false, None))
            && r.contacts[1..] <= rest && (|rest| < CONTACTS_CAP ==> r.contacts[1..] == rest)
            && (forall x :: DeletionAt(r.tombstones, x) ==
                            if Matches(x, address, net) then None else DeletionAt(s.tombstones, x))
  {
    forall x
      ensures DeletionAt(DeletionsBut(s.tombstones, address, net), x) ==
              if Matches(x, address, net) then None else DeletionAt(s.tombstones, x)
    {
      DeletionsButAt(s.tombstones, address, net, x);
    }
  }

  /** Without blank tags the loose match is the exact one. */
  lemma TaggedMatch(s: ContactState, net: string, address: string)
    requires Tagged(s)
    ensures FirstMatch(s.contacts, address, net) == Find(s.contacts, Key(address, net))
  {
    var i, j := FirstMatch(s.contacts, address, net), Find(s.contacts, Key(address, net));
    assert i < |s.contacts| ==> s.contacts[i] in s.contacts;
  }

  /** Naming restamps in place the first entry the contact stands under and no other, and
      forgets its deletions even when there is no such entry. */
  lemma NamedAt(s: ContactState, net: string, address: string, name: string, synced: bool, now: nat, k: Key)
    ensures var r, i := Named(s, net, address, name, synced, now), FirstMatch(s.contacts, address, net);
            && ContactAt(r.contacts, k) ==
               (if i < |s.contacts| && k == KeyOf(s.contacts[i])
                then Some(s.contacts[i].(name := name, updatedAt := now, synced := synced))
                else ContactAt(s.contacts, k))
            && DeletionAt(r.tombstones, k) == (if Matches(k, address, net) then None else DeletionAt(s.tombstones, k))
            && KeysOf(r.contacts) == KeysOf(s.contacts)
  {
    var i := FirstMatch(s.contacts, address, net);
    DeletionsButAt(s.tombstones, address, net, k);
    if i < |s.contacts| {
      RestampedAt(s.contacts, i, name, synced, now, k);
    }
  }

  lemma RestampedAt(cs: seq<Contact>, i: nat, name: string, synced: bool, now: nat, k: Key)
    requires i < |cs| && Find(cs, KeyOf(cs[i])) == i
    ensures var r := cs[i := cs[i].(name := name, updatedAt := now, synced := synced)];
            && ContactAt(r, k) == (if k == KeyOf(cs[i]) then Some(r[i]) else ContactAt(cs, k))
            && KeysOf(r) == KeysOf(cs)
  {
    SameKeys(cs, cs[i := cs[i].(name := name, updatedAt := now, synced := synced)], k);
  }

  lemma SameKeys(a: seq<Contact>, b: seq<Contact>, k: Key)
    requires |a| == |b| && forall j | 0 <= j < |a| :: KeyOf(a[j]) == KeyOf(b[j])
    ensures KeysOf(a) == KeysOf(b) && Find(a, k) == Find(b, k)
  {
    var i, j := Find(a, k), Find(b, k);
    assert i < |a| ==> KeyOf(b[i]) == k;
    assert j < |b| ==> KeyOf(a[j]) == k;
  }

  // ----- Runs -----

  /** One operation, on the network active at the time. */
  datatype Op =
    | Touch(net: string, address: string, now: nat)
    | Name(net: string, address: string, name: string, synced: bool, now: nat)
    | Remove(net: string, address: string, now: nat)
    | Merge(incoming: ContactState, now: nat)

  function AfterOp(s: ContactState, op: Op): ContactState {
    match op
    case Touch(net, address, now) => Touched(s, net, address, now)
    case Name(net, address, name, synced, now) => Named(s, net, address, name, synced, now)
    case Remove(net, address, now) => Removed(s, net, address, now)
    case Merge(incoming, now) => Merged(s, incoming, now)
  }

  function AfterOps(s: ContactState, ops: seq<Op>): ContactState {
    if ops == [] then s else AfterOp(AfterOps(s, ops[..|ops| - 1]), ops[|ops| - 1])
  }

  /** The list without its entry at `i`. */
  function Without(cs: seq<Contact>, i: nat): seq<Contact> {
    if i < |cs| then cs[..i] + cs[i + 1..] else cs
  }

  /** Deletions are of different keys, no key is both live and deleted, and the list is capped. */
  ghost predicate Orderly(s: ContactState) {
    DistinctDeletions(s.tombstones) && Apart(s) && |s.contacts| <= CONTACTS_CAP
  }

  /** The contact's entry under the active network, if it has one, comes before any blank one. */
  predicate TouchFits(s: ContactState, net: string, address: string) {
    var i := Find(s.contacts, Key(address, net));
    i == |s.contacts| || i == FirstMatch(s.contacts, address, net)
  }

  ghost predicate Fits(s: ContactState, op: Op) {
    op.Touch? ==> TouchFits(s, op.net, op.address)
  }

  ghost predicate AllFit(s: ContactState, ops: seq<Op>) {
    ops == [] || (AllFit(s, ops[..|ops| - 1]) && Fits(AfterOps(s, ops[..|ops| - 1]), ops[|ops| - 1]))
  }

  lemma WithoutMembers(cs: seq<Contact>, i: nat)
    ensures forall c | c in Without(cs, i) :: c in cs
    ensures Distinct(cs) ==> Distinct(Without(cs, i))
    ensures Distinct(cs) && i < |cs| ==> forall c | c in Without(cs, i) :: KeyOf(c) != KeyOf(cs[i])
    ensures Distinct(cs) && i < |cs| ==> forall c | c in cs :: c == cs[i] || c in Without(cs, i)
  {
    var rest := Without(cs, i);
    forall j | 0 <= j < |rest|
      ensures rest[j] == cs[if j < i then j else j + 1]
    {
    }
    forall j | 0 <= j < |cs| && j != i
      ensures cs[j] in rest
    {
      assert cs[j] == rest[if j < i then j else j - 1];
    }
  }

  /** Whatever the tags, an operation leaves deletions distinct, live and deleted keys apart and
      the list within its cap. */
  lemma OpKeepsOrderly(s: ContactState, op: Op)
    requires Orderly(s)
    ensures Orderly(AfterOp(s, op))
  {
    match op {
      case Touch(net, address, now) => TouchKeeps(s, net, address, now);
      case Name(net, address, name, synced, now) => NameKeeps(s, net, address, name, synced, now);
      case Remove(net, address, now) => RemoveKeeps(s, net, address, now);
      case Merge(incoming, now) => MergedWellKept(s, incoming, now);
    }
  }

  lemma TouchKeeps(s: ContactState, net: string, address: string, now: nat)
    requires Orderly(s)
    ensures Orderly(Touched(s, net, address, now))
  {
    DeletionsButMembers(s.tombstones, address, net);
    DeletionsButDistinct(s.tombstones, address, net);
    WithoutMembers(s.contacts, FirstMatch(s.contacts, address, net));
    var cs := Touched(s, net, address, now).contacts;
    assert forall c | c in cs :: KeyOf(c) == Key(address, net) || c in s.contacts;
  }

  lemma NameKeeps(s: ContactState, net: string, address: string, name: string, synced: bool, now: nat)
    requires Orderly(s)
    ensures Orderly(Named(s, net, address, name, synced, now))
  {
    DeletionsButMembers(s.tombstones, address, net);
    DeletionsButDistinct(s.tombstones, address, net);
    var cs := Named(s, net, address, name, synced, now).contacts;
    forall j | 0 <= j < |cs|
      ensures KeyOf(cs[j]) == KeyOf(s.contacts[j]) && s.contacts[j] in s.contacts
    {
    }
  }

  lemma RemoveKeeps(s: ContactState, net: string, address: string, now: nat)
    requires Orderly(s)
    ensures Orderly(Removed(s, net, address, now))
  {
    ContactsButMembers(s.contacts, address, net);
    var ts := Removed(s, net, address, now).tombstones;
    forall j | 0 <= j < |ts|
      ensures Deleted(ts[j]) == Key(address, net)
              || (j < |s.tombstones| && ts[j] == s.tombstones[j] && ts[j] in s.tombstones)
    {
    }
  }

  /** An operation keeps the contacts free of duplicates exactly when it fits: naming, removing
      and merging always do; touching a contact with a blank entry before its tagged one makes
      the blank one a second tagged one. */
  lemma OpKeepsDistinctIff(s: ContactState, op: Op)
    requires Orderly(s) && Distinct(s.contacts)
    ensures Distinct(AfterOp(s, op).contacts) <==> Fits(s, op)
  {
    match op {
      case Touch(net, address, now) => TouchKeepsDistinctIff(s, net, address, now);
      case Name(net, address, name, synced, now) =>
        NamedAt(s, net, address, name, synced, now, Key("", ""));
        SameKeysDistinct(s.contacts, Named(s, net, address, name, synced, now).contacts);
      case Remove(net, address, _) => ContactsButDistinct(s.contacts, address, net);
      case Merge(incoming, now) => MergedWellKept(s, incoming, now);
    }
  }

  lemma SameKeysDistinct(a: seq<Contact>, b: seq<Contact>)
    requires Distinct(a) && KeysOf(a) == KeysOf(b)
    ensures Distinct(b)
  {
    assert |a| == |b|;
    assert forall j | 0 <= j < |a| :: KeysOf(a)[j] == KeyOf(a[j]) && KeysOf(b)[j] == KeyOf(b[j]);
  }

  lemma TouchKeepsDistinctIff(s: ContactState, net: string, address: string, now: nat)
    requires Distinct(s.contacts) && |s.contacts| <= CONTACTS_CAP
    ensures Distinct(Touched(s, net, address, now).contacts) <==> TouchFits(s, net, address)
  {
    var cs, i := s.contacts, FirstMatch(s.contacts, address, net);
    var all := Touched(s, net, address, now).contacts;
    WithoutMembers(cs, i);
    if TouchFits(s, net, address) {
      NotUnder(Without(cs, i), cs, Key(address, net), i);
      FrontDistinct(all[0], Without(cs, i), all);
    } else {
      var c := cs[Find(cs, Key(address, net))];
      assert c in Without(cs, i);
      Doubled(all[0], Without(cs, i), c);
      assert all == [all[0]] + Without(cs, i);
    }
  }

  /** An old untagged entry ahead of the tagged one: touching the contact leaves two of its key. */
  lemma TouchDoubles(c: Contact, net: string, now: nat)
    requires c.network == "" && net != ""
    ensures var s := ContactState([c, c.(network := net)], []);
            && Orderly(s) && Distinct(s.contacts)
            && !Distinct(Touched(s, net, c.address, now).contacts)
  {
    var s := ContactState([c, c.(network := net)], []);
    var k := Key(c.address, net);
    assert KeyOf(s.contacts[0]) != k && KeyOf(s.contacts[1]) == k;
    TouchKeepsDistinctIff(s, net, c.address, now);
  }

  lemma Doubled(front: Contact, rest: seq<Contact>, c: Contact)
    requires c in rest && KeyOf(c) == KeyOf(front)
    ensures !Distinct([front] + rest)
  {
    var m :| 0 <= m < |rest| && rest[m] == c;
    var all := [front] + rest;
    assert all[0] == front && all[m + 1] == c;
    assert KeyOf(all[0]) == KeyOf(all[m + 1]);
  }

  lemma NotUnder(rest: seq<Contact>, cs: seq<Contact>, k: Key, i: nat)
    requires Distinct(cs) && rest == Without(cs, i) && (Find(cs, k) == |cs| || Find(cs, k) == i)
    ensures forall j | 0 <= j < |rest| :: KeyOf(rest[j]) != k
  {
    WithoutMembers(cs, i);
    forall j | 0 <= j < |rest|
      ensures KeyOf(rest[j]) != k
    {
      assert rest[j] in rest && rest[j] in cs;
    }
  }

  lemma FrontDistinct(front: Contact, rest: seq<Contact>, cs: seq<Contact>)
    requires Distinct(rest) && forall j | 0 <= j < |rest| :: KeyOf(rest[j]) != KeyOf(front)
    requires cs <= [front] + rest
    ensures Distinct(cs)
  {
    forall i, j | 0 <= i < j < |cs|
      ensures KeyOf(cs[i]) != KeyOf(cs[j])
    {
      assert cs[j] == rest[j - 1] && (i > 0 ==> cs[i] == rest[i - 1]);
    }
  }

  /** The contacts are free of duplicates before and after every operation of the run. */
  ghost predicate DistinctThroughout(s: ContactState, ops: seq<Op>) {
    Distinct(AfterOps(s, ops).contacts) && (ops == [] || DistinctThroughout(s, ops[..|ops| - 1]))
  }

  /**
   Any run of touch, name, remove and merge, whatever arrives, keeps deletions distinct, live
   and deleted keys apart and the list within its cap. The contacts stay free of duplicates
   throughout exactly when every touch in the run fits.
   */
  lemma {:induction false} RunsKeepWellKept(s: ContactState, ops: seq<Op>)
    requires Orderly(s) && Distinct(s.contacts)
    ensures Orderly(AfterOps(s, ops))
    ensures DistinctThroughout(s, ops) <==> AllFit(s, ops)
  {
    if ops != [] {
      var front, op := ops[..|ops| - 1], ops[|ops| - 1];
      RunsKeepWellKept(s, front);
      OpKeepsOrderly(AfterOps(s, front), op);
      if AllFit(s, front) {
        OpKeepsDistinctIff(AfterOps(s, front), op);
      }
    }
  }

  /** The operations bring no blank tag. */
  ghost predicate TaggedOp(op: Op) {
    if op.Merge? then Tagged(op.incoming) else op.net != ""
  }

  /** Without blank tags every touch fits. */
  lemma {:induction false} TaggedRunsFit(s: ContactState, ops: seq<Op>)
    requires Orderly(s) && Tagged(s) && forall i | 0 <= i < |ops| :: TaggedOp(ops[i])
    ensures Tagged(AfterOps(s, ops)) && AllFit(s, ops)
  {
    if ops != [] {
      var n := |ops| - 1;
      var before := AfterOps(s, ops[..n]);
      TaggedRunsFit(s, ops[..n]);
      RunsKeepOrderly(s, ops[..n]);
      assert TaggedOp(ops[n]);
      OpKeepsTagged(before, ops[n]);
      if ops[n].Touch? {
        TaggedMatch(before, ops[n].net, ops[n].address);
      }
    }
  }

  lemma {:induction false} RunsKeepOrderly(s: ContactState, ops: seq<Op>)
    requires Orderly(s)
    ensures Orderly(AfterOps(s, ops))
  {
    if ops != [] {
      RunsKeepOrderly(s, ops[..|ops| - 1]);
      OpKeepsOrderly(AfterOps(s, ops[..|ops| - 1]), ops[|ops| - 1]);
    }
  }

  lemma OpKeepsTagged(s: ContactState, op: Op)
    requires DistinctDeletions(s.tombstones) && Tagged(s) && TaggedOp(op)
    ensures Tagged(AfterOp(s, op))
  {
    match op {
      case Touch(net, address, now) => TouchKeepsTagged(s, net, address, now);
      case Name(net, address, name, synced, now) => NameKeepsTagged(s, net, address, name, synced, now);
      case Remove(net, address, now) => RemoveKeepsTagged(s, net, address, now);
      case Merge(incoming, now) => MergedTagged(s, incoming, now);
    }
  }

  lemma TouchKeepsTagged(s: ContactState, net: string, address: string, now: nat)
    requires Tagged(s) && net != ""
    ensures Tagged(Touched(s, net, address, now))
  {
    DeletionsButMembers(s.tombstones, address, net);
    WithoutMembers(s.contacts, FirstMatch(s.contacts, address, net));
  }

  lemma NameKeepsTagged(s: ContactState, net: string, address: string, name: string, synced: bool, now: nat)
    requires Tagged(s)
    ensures Tagged(Named(s, net, address, name, synced, now))
  {
    DeletionsButMembers(s.tombstones, address, net);
  }

  lemma RemoveKeepsTagged(s: ContactState, net: string, address: string, now: nat)
    requires Tagged(s) && net != ""
    ensures Tagged(Removed(s, net, address, now))
  {
    ContactsButMembers(s.contacts, address, net);
  }

  lemma MergedTagged(s: ContactState, incoming: ContactState, now: nat)
    requires DistinctDeletions(s.tombstones) && Tagged(s) && Tagged(incoming)
    ensures Tagged(Merged(s, incoming, now))
  {
    var cs := UnionContacts(s.contacts, incoming.contacts);
    var ts := UnionTombstones(s.tombstones, incoming.tombstones);
    var r := Reconciled(s, incoming);
    UnionContactsTagged(s.contacts, incoming.contacts);
    UnionTombstonesTagged(s.tombstones, incoming.tombstones);
    SurvivorsMembers(cs, ts);
    UnbeatenMembers(ts, Beaten(cs, ts));
    ReconciledDistinctDeletions(s, incoming);
    RecentMembers(r.tombstones, Cutoff(now));
    RecentDistinct(r.tombstones, Cutoff(now));
    SortedInOrder(Recent(r.tombstones, Cutoff(now)));
  }

  lemma {:induction false} UnionContactsTagged(local: seq<Contact>, incoming: seq<Contact>)
    requires forall c | c in local || c in incoming :: c.network != ""
    ensures forall c | c in UnionContacts(local, incoming) :: c.network != ""
  {
    if incoming != [] {
      UnionContactsTagged(local, incoming[..|incoming| - 1]);
      assert incoming[|incoming| - 1] in incoming;
    }
  }

  lemma {:induction false} UnionTombstonesTagged(local: seq<Tombstone>, incoming: seq<Tombstone>)
    requires forall t | t in local || t in incoming :: t.network != ""
    ensures forall t | t in UnionTombstones(local, incoming) :: t.network != ""
  {
    if incoming != [] {
      UnionTombstonesTagged(local, incoming[..|incoming| - 1]);
      assert incoming[|incoming| - 1] in incoming;
    }
  }

  // ----- No resurrection -----

  /** `k` is dead in `s`, by a deletion at or after `d`. */
  ghost predicate DeadSince(s: ContactState, k: Key, d: nat) {
    && ContactAt(s.contacts, k) == None
    && DeletionAt(s.tombstones, k).Some? && DeletionAt(s.tombstones, k).value >= d
  }

  /** What an operation must not do for `k` to stay dead: bring a contact of `k` stamped after
      the deletion, merge at a time when the deletion is past retention, touch or name `k`, or
      delete it with an earlier stamp. */
  ghost predicate LeavesDead(op: Op, k: Key, d: nat) {
    match op
    case Touch(net, address, _) => !Matches(k, address, net)
    case Name(net, address, _, _, _) => !Matches(k, address, net)
    case Remove(net, address, now) => Key(address, net) == k ==> now >= d
    case Merge(incoming, now) =>
      && d >= Cutoff(now)
      && (forall c | c in incoming.contacts && KeyOf(c) == k :: c.updatedAt <= d)
  }

  lemma {:induction false} UnionStampedAtMost(local: seq<Contact>, incoming: seq<Contact>, k: Key, d: nat)
    requires forall c | (c in local || c in incoming) && KeyOf(c) == k :: c.updatedAt <= d
    ensures forall c | c in UnionContacts(local, incoming) && KeyOf(c) == k :: c.updatedAt <= d
  {
    if incoming != [] {
      UnionStampedAtMost(local, incoming[..|incoming| - 1], k, d);
      assert incoming[|incoming| - 1] in incoming;
    }
  }

  lemma {:induction false} UnionDeletedSince(local: seq<Tombstone>, incoming: seq<Tombstone>, k: Key, d: nat)
    requires DeletionAt(local, k).Some? && DeletionAt(local, k).value >= d
    ensures var u := DeletionAt(UnionTombstones(local, incoming), k);
            u.Some? && u.value >= d
  {
    if incoming != [] {
      var n := |incoming| - 1;
      UnionDeletedSince(local, incoming[..n], k, d);
      UnionTombstoneAt(UnionTombstones(local, incoming[..n]), incoming[n], k);
    }
  }

  /** One merge, whatever else arrives, duplicates included. */
  lemma MergeLeavesDead(s: ContactState, incoming: ContactState, now: nat, k: Key, d: nat)
    requires DistinctDeletions(s.tombstones) && DeadSince(s, k, d) && LeavesDead(Merge(incoming, now), k, d)
    ensures DeadSince(Merged(s, incoming, now), k, d)
  {
    UnionLeavesDead(s, incoming, k, d);
    var r := Reconciled(s, incoming);
    MergedDeletionAt(s, incoming, now, k);
    var kept := Merged(s, incoming, now).contacts;
    forall j | 0 <= j < |kept|
      ensures KeyOf(kept[j]) != k
    {
      assert kept[j] == r.contacts[j];
    }
  }

  lemma UnionLeavesDead(s: ContactState, incoming: ContactState, k: Key, d: nat)
    requires DistinctDeletions(s.tombstones) && DeadSince(s, k, d)
    requires forall c | c in incoming.contacts && KeyOf(c) == k :: c.updatedAt <= d
    ensures DeadSince(Reconciled(s, incoming), k, d)
  {
    var cs := UnionContacts(s.contacts, incoming.contacts);
    var ts := UnionTombstones(s.tombstones, incoming.tombstones);
    assert forall c | c in s.contacts :: KeyOf(c) != k;
    UnionStampedAtMost(s.contacts, incoming.contacts, k, d);
    UnionDeletedSince(s.tombstones, incoming.tombstones, k, d);
    SurvivorsMembers(cs, ts);
    UnionDistinctDeletions(s.tombstones, incoming.tombstones);
    UnbeatenAt(ts, Beaten(cs, ts), k);
    assert forall j | 0 <= j < |Survivors(cs, ts)| :: Survivors(cs, ts)[j] in Survivors(cs, ts);
  }

  lemma TouchLeavesDead(s: ContactState, net: string, address: string, now: nat, k: Key, d: nat)
    requires DeadSince(s, k, d) && !Matches(k, address, net)
    ensures DeadSince(Touched(s, net, address, now), k, d)
  {
    TouchedMeans(s, net, address, now);
    WithoutMembers(s.contacts, FirstMatch(s.contacts, address, net));
    var cs := Touched(s, net, address, now).contacts;
    forall j | 0 <= j < |cs|
      ensures KeyOf(cs[j]) != k
    {
      if j > 0 {
        assert cs[j] == cs[1..][j - 1];
        assert cs[j] in Without(s.contacts, FirstMatch(s.contacts, address, net));
      }
    }
  }

  /**
   No resurrection: once a device holds a deletion of `k` at `d`, no run of operations brings
   `k` back or weakens the deletion, as long as the contacts of `k` that arrive are stamped at
   most `d`, merges happen while `d` is within retention, and the user does not touch or name
   `k` again.
   */
  lemma {:induction false} NoResurrection(s: ContactState, ops: seq<Op>, k: Key, d: nat)
    requires DistinctDeletions(s.tombstones) && DeadSince(s, k, d)
    requires forall i | 0 <= i < |ops| :: LeavesDead(ops[i], k, d)
    ensures DistinctDeletions(AfterOps(s, ops).tombstones) && DeadSince(AfterOps(s, ops), k, d)
  {
    if ops != [] {
      var n := |ops| - 1;
      NoResurrection(s, ops[..n], k, d);
      assert LeavesDead(ops[n], k, d);
      OpKeepsDead(AfterOps(s, ops[..n]), ops[n], k, d);
    }
  }

  lemma OpKeepsDead(s: ContactState, op: Op, k: Key, d: nat)
    requires DistinctDeletions(s.tombstones) && DeadSince(s, k, d) && LeavesDead(op, k, d)
    ensures DistinctDeletions(AfterOp(s, op).tombstones) && DeadSince(AfterOp(s, op), k, d)
  {
    match op {
      case Touch(net, address, now) =>
        TouchLeavesDead(s, net, address, now, k, d);
        DeletionsButDistinct(s.tombstones, address, net);
      case Name(net, address, name, synced, now) =>
        NamedAt(s, net, address, name, synced, now, k);
        DeletionsButDistinct(s.tombstones, address, net);
      case Remove(net, address, now) => RemovedAt(s, net, address, now, k);
      case Merge(incoming, now) =>
        MergeLeavesDead(s, incoming, now, k, d);
        MergedWellKept(s, incoming, now);
    }
  }
}
