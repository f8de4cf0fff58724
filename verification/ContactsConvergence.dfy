/**
 Strong convergence: however a pool of states is merged (order, grouping, repetition, times),
 the outcome is the same, under three conditions.
 */
module ContactsConvergence {
  import opened Options
  import opened Contacts
  import opened ContactsRegister
  import opened ContactsMerge

  /** What a state says about one key. */
  datatype Register = Absent | Live(contact: Contact) | Dead(at: nat)

  function RegisterOf(s: ContactState, k: Key): Register {
    RegisterFrom(ContactAt(s.contacts, k), DeletionAt(s.tombstones, k))
  }

  function RegisterFrom(c: Option<Contact>, d: Option<nat>): Register {
    if LiveOf(c, d).Some? then Live(c.value) else if d.Some? then Dead(d.value) else Absent
  }

  /** Later wins; at equal times the deletion wins. */
  function Rank(r: Register): nat {
    match r
    case Absent => 0
    case Live(c) => 2 * c.updatedAt + 1
    case Dead(at) => 2 * at + 2
  }

  function Join(a: Register, b: Register): Register {
    if Rank(b) > Rank(a) then b else a
  }

  // ----- Pools and merge trees -----

  /** Every way of merging: leaves are states, inner nodes merge their two results at a time. */
  datatype Tree = Leaf(state: ContactState) | Node(left: Tree, right: Tree, now: nat)

  function Eval(t: Tree): ContactState {
    match t
    case Leaf(s) => s
    case Node(l, r, now) => Merged(Eval(l), Eval(r), now)
  }

  function Leaves(t: Tree): set<ContactState> {
    match t
    case Leaf(s) => {s}
    case Node(l, r, _) => Leaves(l) + Leaves(r)
  }

  function Times(t: Tree): set<nat> {
    match t
    case Leaf(_) => {}
    case Node(l, r, now) => Times(l) + Times(r) + {now}
  }

  /** Everything a set of states holds. */
  datatype Pool = Pool(contacts: set<Contact>, tombstones: set<Tombstone>)

  function PoolOf(states: set<ContactState>): Pool {
    Pool(set s, c | s in states && c in s.contacts :: c, set s, t | s in states && t in s.tombstones :: t)
  }

  function PoolKeys(pool: Pool): set<Key> {
    set c | c in pool.contacts :: KeyOf(c)
  }

  /** Contacts of one key with equal stamps are equal. */
  ghost predicate TieFree(contacts: set<Contact>) {
    forall c, d | c in contacts && d in contacts && KeyOf(c) == KeyOf(d) && c.updatedAt == d.updatedAt :: c == d
  }

  /** The side conditions under which a pool converges when merged at the given times. */
  ghost predicate Convergent(pool: Pool, times: set<nat>) {
    && TieFree(pool.contacts)
    && |PoolKeys(pool)| <= MERGE_CAP
    && (forall t, now | t in pool.tombstones && now in times :: t.deletedAt >= Cutoff(now))
  }

  ghost predicate FromPool(s: ContactState, pool: Pool) {
    && (forall c | c in s.contacts :: c in pool.contacts)
    && (forall t | t in s.tombstones :: t in pool.tombstones)
  }

  lemma PickFromPool(l: ContactState, i: ContactState, pool: Pool, k: Key)
    requires TieFree(pool.contacts) && FromPool(l, pool) && FromPool(i, pool)
    ensures var (a, b) := (ContactAt(l.contacts, k), ContactAt(i.contacts, k));
            && (PickAt(a, b) == a || PickAt(a, b) == b)
            && (a.Some? && b.Some? && a.value.updatedAt == b.value.updatedAt ==> a == b)
  {
    var (a, b) := (ContactAt(l.contacts, k), ContactAt(i.contacts, k));
    if a.Some? && b.Some? {
      assert a.value in l.contacts && b.value in i.contacts;
    }
  }

  /** No new contact arises: without ties the merge only chooses. */
  lemma LiveFromSides(l: ContactState, i: ContactState, pool: Pool, c: Contact)
    requires TieFree(pool.contacts) && FromPool(l, pool) && FromPool(i, pool)
    requires DuplicateFree(l) && DuplicateFree(i) && c in Reconciled(l, i).contacts
    ensures c in l.contacts || c in i.contacts
  {
    var k := KeyOf(c);
    ReconciledDistinct(l, i);
    AtOfMember(Reconciled(l, i).contacts, c);
    ReconciledAt(l, i, k);
    PickFromPool(l, i, pool, k);
    AtIsMember(l.contacts, k);
    AtIsMember(i.contacts, k);
  }

  lemma AtIsMember(cs: seq<Contact>, k: Key)
    ensures ContactAt(cs, k).Some? ==> ContactAt(cs, k).value in cs
  {
  }

  lemma DeadFromSides(l: ContactState, i: ContactState, t: Tombstone)
    requires DuplicateFree(l) && DuplicateFree(i) && t in Reconciled(l, i).tombstones
    ensures t in l.tombstones || t in i.tombstones
  {
    ReconciledDistinct(l, i);
    DeletionAtOfMember(Reconciled(l, i).tombstones, t);
    ReconciledAt(l, i, Deleted(t));
    HeldDeletions(l, i, Deleted(t));
  }

  lemma ReconciledFromPool(l: ContactState, i: ContactState, pool: Pool)
    requires TieFree(pool.contacts) && FromPool(l, pool) && FromPool(i, pool)
    requires DuplicateFree(l) && DuplicateFree(i)
    ensures FromPool(Reconciled(l, i), pool)
  {
    forall c | c in Reconciled(l, i).contacts
      ensures c in pool.contacts
    {
      LiveFromSides(l, i, pool, c);
    }
    forall t | t in Reconciled(l, i).tombstones
      ensures t in pool.tombstones
    {
      DeadFromSides(l, i, t);
    }
  }

  lemma MergedFromPool(l: ContactState, i: ContactState, now: nat, pool: Pool)
    requires TieFree(pool.contacts) && FromPool(l, pool) && FromPool(i, pool)
    requires DuplicateFree(l) && DuplicateFree(i)
    ensures FromPool(Merged(l, i, now), pool)
  {
    var r := Reconciled(l, i);
    ReconciledFromPool(l, i, pool);
    ReconciledDistinct(l, i);
    RecentMembers(r.tombstones, Cutoff(now));
    RecentDistinct(r.tombstones, Cutoff(now));
    SortedInOrder(Recent(r.tombstones, Cutoff(now)));
  }

  // ----- The cap is not reached -----

  lemma {:induction false} DistinctFits(cs: seq<Contact>, keys: set<Key>)
    requires Distinct(cs) && forall c | c in cs :: KeyOf(c) in keys
    ensures |cs| <= |keys|
  {
    if cs != [] {
      var n := |cs| - 1;
      assert cs[n] in cs;
      forall c | c in cs[..n]
        ensures KeyOf(c) in keys - {KeyOf(cs[n])}
      {
        assert c in cs;
      }
      DistinctFits(cs[..n], keys - {KeyOf(cs[n])});
    }
  }

  lemma NothingCut(s: ContactState, pool: Pool)
    requires |PoolKeys(pool)| <= MERGE_CAP && FromPool(s, pool) && Distinct(s.contacts)
    ensures Capped(s.contacts) == s.contacts
  {
    DistinctFits(s.contacts, PoolKeys(pool));
  }

  // ----- A merge joins registers -----

  lemma MergeJoins(l: ContactState, i: ContactState, now: nat, pool: Pool, times: set<nat>, k: Key)
    requires Convergent(pool, times) && now in times
    requires FromPool(l, pool) && FromPool(i, pool) && DuplicateFree(l) && DuplicateFree(i)
    ensures RegisterOf(Merged(l, i, now), k) == Join(RegisterOf(l, k), RegisterOf(i, k))
  {
    var r := Reconciled(l, i);
    ReconciledAt(l, i, k);
    ReconciledDistinct(l, i);
    ReconciledFromPool(l, i, pool);
    NothingCut(r, pool);
    MergedDeletionAt(l, i, now, k);
    if DeletionAt(r.tombstones, k).Some? {
      assert r.tombstones[FindDeletion(r.tombstones, k)] in r.tombstones;
    }
    PickFromPool(l, i, pool, k);
    JoinOfPicks(ContactAt(l.contacts, k), DeletionAt(l.tombstones, k),
                ContactAt(i.contacts, k), DeletionAt(i.tombstones, k));
  }

  lemma JoinOfPicks(a: Option<Contact>, d: Option<nat>, b: Option<Contact>, e: Option<nat>)
    requires a.Some? && b.Some? && a.value.updatedAt == b.value.updatedAt ==> a == b
    ensures var (c, f) := (PickAt(a, b), LaterAt(d, e));
            RegisterFrom(LiveOf(c, f), DeadOf(c, f)) == Join(RegisterFrom(a, d), RegisterFrom(b, e))
  {
  }

  /** The outcome of a tree is duplicate free, holds nothing the pool does not, and says about
      each key what some leaf says, namely the latest of all. */
  lemma {:induction false} TreeIsLatest(t: Tree, pool: Pool, times: set<nat>, k: Key)
    requires Convergent(pool, times) && Times(t) <= times
    requires forall s | s in Leaves(t) :: DuplicateFree(s) && FromPool(s, pool)
    ensures DuplicateFree(Eval(t)) && FromPool(Eval(t), pool)
    ensures forall s | s in Leaves(t) :: Rank(RegisterOf(s, k)) <= Rank(RegisterOf(Eval(t), k))
    ensures exists s :: s in Leaves(t) && RegisterOf(s, k) == RegisterOf(Eval(t), k)
  {
    match t {
      case Leaf(s) => assert s in Leaves(t);
      case Node(l, r, now) =>
        TreeIsLatest(l, pool, times, k);
        TreeIsLatest(r, pool, times, k);
        MergedFromPool(Eval(l), Eval(r), now, pool);
        MergedWellKept(Eval(l), Eval(r), now);
        MergeJoins(Eval(l), Eval(r), now, pool, times, k);
        JoinIsLatest(Leaves(l), Leaves(r), RegisterOf(Eval(l), k), RegisterOf(Eval(r), k), k);
    }
  }

  lemma JoinIsLatest(ls: set<ContactState>, rs: set<ContactState>, x: Register, y: Register, k: Key)
    requires forall s | s in ls :: Rank(RegisterOf(s, k)) <= Rank(x)
    requires forall s | s in rs :: Rank(RegisterOf(s, k)) <= Rank(y)
    requires exists s :: s in ls && RegisterOf(s, k) == x
    requires exists s :: s in rs && RegisterOf(s, k) == y
    ensures forall s | s in ls + rs :: Rank(RegisterOf(s, k)) <= Rank(Join(x, y))
    ensures exists s :: s in ls + rs && RegisterOf(s, k) == Join(x, y)
  {
    var a :| a in ls && RegisterOf(a, k) == x;
    var b :| b in rs && RegisterOf(b, k) == y;
    assert a in ls + rs && b in ls + rs;
    assert Rank(x) <= Rank(Join(x, y)) && Rank(y) <= Rank(Join(x, y)) && (Join(x, y) == x || Join(x, y) == y);
  }

  lemma SameRankSame(s: ContactState, t: ContactState, pool: Pool, k: Key)
    requires TieFree(pool.contacts) && FromPool(s, pool) && FromPool(t, pool)
    requires Rank(RegisterOf(s, k)) == Rank(RegisterOf(t, k))
    ensures RegisterOf(s, k) == RegisterOf(t, k)
  {
    PickFromPool(s, t, pool, k);
  }

  lemma TreesAgreeAt(t: Tree, u: Tree, pool: Pool, times: set<nat>, k: Key)
    requires Convergent(pool, times) && Leaves(t) == Leaves(u) && Times(t) + Times(u) <= times
    requires forall s | s in Leaves(t) :: DuplicateFree(s) && FromPool(s, pool)
    ensures RegisterOf(Eval(t), k) == RegisterOf(Eval(u), k)
  {
    TreeIsLatest(t, pool, times, k);
    TreeIsLatest(u, pool, times, k);
    SameRankSame(Eval(t), Eval(u), pool, k);
  }

  lemma ApartSplits(s: ContactState, k: Key)
    requires Apart(s)
    ensures var r := RegisterOf(s, k);
            && ContactAt(s.contacts, k) == (if r.Live? then Some(r.contact) else None)
            && DeletionAt(s.tombstones, k) == (if r.Dead? then Some(r.at) else None)
  {
    var (i, j) := (Find(s.contacts, k), FindDeletion(s.tombstones, k));
    assert i < |s.contacts| ==> s.contacts[i] in s.contacts;
    assert j < |s.tombstones| ==> s.tombstones[j] in s.tombstones;
  }

  /**
   Strong convergence. Any two ways of merging the same states, at least one merge each, give
   the same contact under every key, the same contacts up to order, and the same tombstone list,
   as long as nothing is past retention, the keys fit the cap and contacts with equal stamps are
   equal. None of the three can be dropped: `RetentionResurrects` is the first one's failing
   family, `ContactsOpposite` has the other two.
   */
  lemma MergesConverge(t: Tree, u: Tree)
    requires t.Node? && u.Node? && Leaves(t) == Leaves(u)
    requires forall s | s in Leaves(t) :: DuplicateFree(s)
    requires Convergent(PoolOf(Leaves(t)), Times(t) + Times(u))
    ensures forall k :: ContactAt(Eval(t).contacts, k) == ContactAt(Eval(u).contacts, k)
    ensures forall c :: c in Eval(t).contacts <==> c in Eval(u).contacts
    ensures Distinct(Eval(t).contacts) && Distinct(Eval(u).contacts)
    ensures Eval(t).tombstones == Eval(u).tombstones
  {
    var (pool, times) := (PoolOf(Leaves(t)), Times(t) + Times(u));
    NodeWellKept(t, pool, times);
    NodeWellKept(u, pool, times);
    forall k
      ensures ContactAt(Eval(t).contacts, k) == ContactAt(Eval(u).contacts, k)
      ensures DeletionAt(Eval(t).tombstones, k) == DeletionAt(Eval(u).tombstones, k)
    {
      TreesAgreeAt(t, u, pool, times, k);
      ApartSplits(Eval(t), k);
      ApartSplits(Eval(u), k);
    }
    SameDeletions(Eval(t).tombstones, Eval(u).tombstones);
    SameContacts(Eval(t).contacts, Eval(u).contacts);
  }

  lemma NodeWellKept(t: Tree, pool: Pool, times: set<nat>)
    requires t.Node? && Convergent(pool, times) && Times(t) <= times
    requires forall s | s in Leaves(t) :: DuplicateFree(s) && FromPool(s, pool)
    ensures DuplicateFree(Eval(t)) && Apart(Eval(t)) && InOrder(Eval(t).tombstones)
  {
    TreeIsLatest(t.left, pool, times, Key("", ""));
    MergedWellKept(Eval(t.left), Eval(t.right), t.now);
  }

  lemma SameContacts(a: seq<Contact>, b: seq<Contact>)
    requires Distinct(a) && Distinct(b)
    requires forall k :: ContactAt(a, k) == ContactAt(b, k)
    ensures forall c :: c in a <==> c in b
  {
    forall c
      ensures c in a <==> c in b
    {
      if c in a {
        AtOfMember(a, c);
        assert b[Find(b, KeyOf(c))] == c;
      }
      if c in b {
        AtOfMember(b, c);
        assert a[Find(a, KeyOf(c))] == c;
      }
    }
  }

  // ----- Past retention -----

  /** An instance, for every contact: past retention a deletion is forgotten, and the next merge
      with a device that still has the contact brings it back. Grouping matters, and merging the
      same state twice is not absorbed; `MergeAbsorbsIff` says when it is. */
  lemma RetentionResurrects(c: Contact, d: nat, now: nat)
    requires c.updatedAt <= d < Cutoff(now)
    ensures var holder := ContactState([c], []);
            var deleter := ContactState([], [Tombstone(c.address, c.network, d)]);
            var once := Merged(deleter, holder, now);
            && ContactAt(once.contacts, KeyOf(c)) == None
            && ContactAt(Merged(once, holder, now).contacts, KeyOf(c)) == Some(c)
            && Merged(once, holder, now) != once
  {
    var holder := ContactState([c], []);
    var deleter := ContactState([], [Tombstone(c.address, c.network, d)]);
    var k, once := KeyOf(c), Merged(deleter, holder, now);
    assert ContactAt([c], k) == Some(c) && ContactAt([], k) == None;
    assert DeletionAt(deleter.tombstones, k) == Some(d) && DeletionAt([], k) == None;
    ReconciledAt(deleter, holder, k);
    MergedDeletionAt(deleter, holder, now, k);
    MergedWellKept(deleter, holder, now);
    CappedNone(Reconciled(deleter, holder).contacts, k);
    ReconciledAt(once, holder, k);
    AtMost(deleter, holder);
    AtMost(once, holder);
  }

  /** A merge holds no more contacts than its two sides together. */
  lemma AtMost(l: ContactState, i: ContactState)
    ensures |Reconciled(l, i).contacts| <= |l.contacts| + |i.contacts|
  {
    UnionContactsSmall(l.contacts, i.contacts);
    SurvivorsMembers(UnionContacts(l.contacts, i.contacts), UnionTombstones(l.tombstones, i.tombstones));
  }

  lemma CappedNone(cs: seq<Contact>, k: Key)
    requires ContactAt(cs, k).None?
    ensures ContactAt(Capped(cs), k).None?
  {
    forall j | 0 <= j < |Capped(cs)|
      ensures KeyOf(Capped(cs)[j]) != k
    {
      assert Capped(cs)[j] == cs[j];
    }
  }

  lemma {:induction false} UnionContactsSmall(local: seq<Contact>, incoming: seq<Contact>)
    ensures |UnionContacts(local, incoming)| <= |local| + |incoming|
  {
    if incoming != [] {
      UnionContactsSmall(local, incoming[..|incoming| - 1]);
    }
  }
}
