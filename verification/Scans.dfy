/** What a scan does to a notebook's coins and notes (`app-core/src/store.rs`), coin by coin. */
module Scans {
  import opened Options
  import opened Ledger

  datatype BundleCoin = BundleCoin(txid: Txid, vout: nat, value: nat, height: Option<nat>)

  /** A transaction of the history, with its block if it is in one. */
  datatype Onchain = Onchain(txid: Txid, height: Option<nat>)

  datatype Bundle = Bundle(full: bool, utxos: seq<BundleCoin>, onchain: seq<Onchain>)

  function OutOf(u: BundleCoin): OutPoint {
    OutPoint(u.txid, u.vout)
  }

  // ----- Confirming -----

  function ConfirmedTxids(b: Bundle): set<Txid> {
    set t | t in b.onchain && t.height.Some? :: t.txid
  }

  predicate Hit(txids: seq<Txid>, known: set<Txid>) {
    exists t :: t in txids && t in known
  }

  function ConfirmedNote(n: NoteRecord, confirmed: set<Txid>): NoteRecord {
    if n.status.Pending? && Hit(n.txids, confirmed) then n.(status := Confirmed, rawHex := None) else n
  }

  function ConfirmedNotes(notes: seq<NoteRecord>, confirmed: set<Txid>): (r: seq<NoteRecord>)
    ensures |r| == |notes| && forall i | 0 <= i < |notes| :: r[i] == ConfirmedNote(notes[i], confirmed)
  {
    if notes == [] then []
    else ConfirmedNotes(notes[..|notes| - 1], confirmed) + [ConfirmedNote(notes[|notes| - 1], confirmed)]
  }

  // ----- A full scan -----

  function KnownTxids(b: Bundle): set<Txid> {
    (set t | t in b.onchain :: t.txid) + (set u | u in b.utxos :: u.txid)
  }

  function PendingTxids(notes: seq<NoteRecord>): set<Txid> {
    set n, t | n in notes && n.status.Pending? && t in n.txids :: t
  }

  predicate LockedSomewhere(coins: seq<Coin>, x: OutPoint) {
    exists l :: l in coins && l.pendingSpend && At(l) == x
  }

  function ListedCoin(coins: seq<Coin>, u: BundleCoin): Coin {
    Coin(u.txid, u.vout, u.value, u.height, LockedSomewhere(coins, OutOf(u)))
  }

  /** The chain's coins, each as locked as it was. */
  function Listed(coins: seq<Coin>, utxos: seq<BundleCoin>): (r: seq<Coin>)
    ensures |r| == |utxos| && forall i | 0 <= i < |utxos| :: r[i] == ListedCoin(coins, utxos[i])
  {
    if utxos == [] then []
    else Listed(coins, utxos[..|utxos| - 1]) + [ListedCoin(coins, utxos[|utxos| - 1])]
  }

  /** A coin of a pending transaction the chain has never seen is carried over. */
  function Carried(next: seq<Coin>, coins: seq<Coin>, pending: set<Txid>, known: set<Txid>): seq<Coin> {
    if coins == [] then next
    else
      var before, l := Carried(next, coins[..|coins| - 1], pending, known), coins[|coins| - 1];
      if l.txid in pending && l.txid !in known && CoinAt(before, At(l)).None? then before + [l] else before
  }

  /** A pending note the chain has never seen, whose inputs are all gone and are no other pending
      note's outputs. */
  predicate IsOrphan(n: NoteRecord, notes: seq<NoteRecord>, next: seq<Coin>, known: set<Txid>) {
    && n.status.Pending? && n.spent != [] && !Hit(n.txids, known)
    && (forall x | x in n.spent :: CoinAt(next, x).None?)
    && !exists o, x :: o in notes && x in n.spent && o.status.Pending? && o.noteId != n.noteId && x.txid in o.txids
  }

  function OrphanIds(notes: seq<NoteRecord>, next: seq<Coin>, known: set<Txid>): set<Txid> {
    set n | n in notes && IsOrphan(n, notes, next, known) :: n.noteId
  }

  function OrphanedNote(n: NoteRecord, ids: set<Txid>): NoteRecord {
    if n.noteId in ids then n.(status := Orphaned) else n
  }

  function OrphanedNotes(notes: seq<NoteRecord>, ids: set<Txid>): (r: seq<NoteRecord>)
    ensures |r| == |notes| && forall i | 0 <= i < |notes| :: r[i] == OrphanedNote(notes[i], ids)
  {
    if notes == [] then [] else OrphanedNotes(notes[..|notes| - 1], ids) + [OrphanedNote(notes[|notes| - 1], ids)]
  }

  function OrphanTxids(notes: seq<NoteRecord>): seq<Txid> {
    if notes == [] then []
    else
      OrphanTxids(notes[..|notes| - 1]) +
      (if notes[|notes| - 1].status.Orphaned? then notes[|notes| - 1].txids else [])
  }

  /** The coins before the orphans' outputs are dropped. */
  function NextCoins(v: StoreView, b: Bundle): seq<Coin> {
    Carried(Listed(v.coins, b.utxos), v.coins, PendingTxids(v.notes), KnownTxids(b))
  }

  function FullyReconciled(v: StoreView, b: Bundle): StoreView {
    var next := NextCoins(v, b);
    var ids := OrphanIds(v.notes, next, KnownTxids(b));
    var notes := OrphanedNotes(v.notes, ids);
    v.(notes := notes, coins := if ids == {} then next else CoinsWithout(next, OrphanTxids(notes)))
  }

  // ----- An incremental scan -----

  function MergedCoin(coins: seq<Coin>, u: BundleCoin): seq<Coin> {
    var i := FindCoin(coins, OutOf(u));
    if i < |coins| then coins[i := coins[i].(height := u.height)]
    else coins + [Coin(u.txid, u.vout, u.value, u.height, false)]
  }

  function MergedCoins(coins: seq<Coin>, utxos: seq<BundleCoin>): seq<Coin> {
    if utxos == [] then coins else MergedCoin(MergedCoins(coins, utxos[..|utxos| - 1]), utxos[|utxos| - 1])
  }

  /** The money half of applying a bundle; `notes` is what decoding it left of the notes. */
  function Scanned(v: StoreView, notes: seq<NoteRecord>, b: Bundle): StoreView {
    var w := v.(notes := ConfirmedNotes(notes, ConfirmedTxids(b)));
    if b.full then FullyReconciled(w, b) else w.(coins := MergedCoins(w.coins, b.utxos))
  }

  // ----- The store's methods -----

  method ConfirmNotes(store: Store, b: Bundle)
    modifies store`notes
    ensures store.View() == old(store.View()).(notes := ConfirmedNotes(old(store.notes), ConfirmedTxids(b)))
  {
    for i := 0 to |store.notes|
      invariant |store.notes| == |old(store.notes)|
      invariant forall j | 0 <= j < i :: store.notes[j] == ConfirmedNote(old(store.notes)[j], ConfirmedTxids(b))
      invariant forall j | i <= j < |store.notes| :: store.notes[j] == old(store.notes)[j]
    {
      var n := store.notes[i];
      if n.status.Pending? && Hit(n.txids, ConfirmedTxids(b)) {
        store.notes := store.notes[i := n.(status := Confirmed, rawHex := None)];
      }
    }
    assert store.notes == ConfirmedNotes(old(store.notes), ConfirmedTxids(b));
  }

  method CarryOver(listed: seq<Coin>, coins: seq<Coin>, pending: set<Txid>, known: set<Txid>) returns (next: seq<Coin>)
    ensures next == Carried(listed, coins, pending, known)
  {
    next := listed;
    for i := 0 to |coins|
      invariant next == Carried(listed, coins[..i], pending, known)
    {
      assert coins[..i + 1][..i] == coins[..i];
      var l := coins[i];
      if l.txid in pending && l.txid !in known && CoinAt(next, At(l)).None? {
        next := next + [l];
      }
    }
    assert coins[..|coins|] == coins;
  }

  method ReconcileUtxosFull(store: Store, b: Bundle)
    modifies store`notes, store`coins
    ensures store.View() == FullyReconciled(old(store.View()), b)
  {
    store.coins := CarryOver(Listed(store.coins, b.utxos), store.coins, PendingTxids(store.notes), KnownTxids(b));
    var orphans := OrphanIds(store.notes, store.coins, KnownTxids(b));
    OrphanNotes(store, orphans);
    if orphans != {} {
      store.coins := CoinsWithout(store.coins, OrphanTxids(store.notes));
    }
  }

  method OrphanNotes(store: Store, ids: set<Txid>)
    modifies store`notes
    ensures store.View() == old(store.View()).(notes := OrphanedNotes(old(store.notes), ids))
  {
    for i := 0 to |store.notes|
      invariant |store.notes| == |old(store.notes)|
      invariant forall j | 0 <= j < i :: store.notes[j] == OrphanedNote(old(store.notes)[j], ids)
      invariant forall j | i <= j < |store.notes| :: store.notes[j] == old(store.notes)[j]
    {
      if store.notes[i].noteId in ids {
        store.notes := store.notes[i := store.notes[i].(status := Orphaned)];
      }
    }
    assert store.notes == OrphanedNotes(old(store.notes), ids);
  }

  method MergeUtxosIncremental(store: Store, b: Bundle)
    modifies store`coins
    ensures store.View() == old(store.View()).(coins := MergedCoins(old(store.coins), b.utxos))
  {
    for n := 0 to |b.utxos|
      invariant store.coins == MergedCoins(old(store.coins), b.utxos[..n])
    {
      assert b.utxos[..n + 1][..n] == b.utxos[..n];
      var u := b.utxos[n];
      var i := FindCoin(store.coins, OutOf(u));
      if i < |store.coins| {
        store.coins := store.coins[i := store.coins[i].(height := u.height)];
      } else {
        store.coins := store.coins + [Coin(u.txid, u.vout, u.value, u.height, false)];
      }
    }
    assert b.utxos[..|b.utxos|] == b.utxos;
  }

  method ApplyScan(store: Store, notes: seq<NoteRecord>, b: Bundle)
    modifies store`notes, store`coins
    ensures store.View() == Scanned(old(store.View()), notes, b)
  {
    store.notes := notes;
    ConfirmNotes(store, b);
    if b.full {
      ReconcileUtxosFull(store, b);
    } else {
      MergeUtxosIncremental(store, b);
    }
  }

  // ----- Coin by coin -----

  /** The first listing of `x`, or the length of the list. */
  function FindListing(utxos: seq<BundleCoin>, x: OutPoint): (i: nat)
    ensures i <= |utxos|
    ensures i < |utxos| ==> OutOf(utxos[i]) == x
    ensures forall j | 0 <= j < i :: OutOf(utxos[j]) != x
  {
    if utxos == [] || OutOf(utxos[0]) == x then 0 else 1 + FindListing(utxos[1..], x)
  }

  predicate Lists(b: Bundle, x: OutPoint) {
    FindListing(b.utxos, x) < |b.utxos|
  }

  /** A scan that lists an outpoint has its transaction as known. */
  lemma ListsKnown(b: Bundle, x: OutPoint)
    requires Lists(b, x)
    ensures x.txid in KnownTxids(b)
  {
    assert b.utxos[FindListing(b.utxos, x)] in b.utxos;
  }

  lemma ListedAt(coins: seq<Coin>, utxos: seq<BundleCoin>, x: OutPoint)
    ensures var i := FindListing(utxos, x);
            CoinAt(Listed(coins, utxos), x) == if i < |utxos| then Some(ListedCoin(coins, utxos[i])) else None
  {
    SamePlaces(Listed(coins, utxos), utxos, x);
  }

  lemma SamePlaces(coins: seq<Coin>, utxos: seq<BundleCoin>, x: OutPoint)
    requires |coins| == |utxos| && forall k | 0 <= k < |utxos| :: At(coins[k]) == OutOf(utxos[k])
    ensures FindCoin(coins, x) == FindListing(utxos, x)
  {
    var i, j := FindListing(utxos, x), FindCoin(coins, x);
    assert i < |utxos| ==> At(coins[i]) == x;
    assert j < |coins| ==> OutOf(utxos[j]) == x;
  }

  lemma {:induction false} CarriedAt(next: seq<Coin>, coins: seq<Coin>, pending: set<Txid>, known: set<Txid>,
                                     x: OutPoint)
    ensures CoinAt(Carried(next, coins, pending, known), x) ==
            if CoinAt(next, x).Some? then CoinAt(next, x)
            else if x.txid in pending && x.txid !in known then CoinAt(coins, x) else None
  {
    if coins != [] {
      var front, l := coins[..|coins| - 1], coins[|coins| - 1];
      CarriedAt(next, front, pending, known, x);
      AppendedCoin(front, l, x);
      AppendedCoin(Carried(next, front, pending, known), l, x);
      assert coins == front + [l];
    }
  }

  lemma {:induction false} DroppedAt(coins: seq<Coin>, txids: seq<Txid>, x: OutPoint)
    ensures CoinAt(CoinsWithout(coins, txids), x) == if x.txid in txids then None else CoinAt(coins, x)
  {
    if x.txid !in txids {
      WithoutCoin(coins, txids, x);
    } else {
      var r := CoinsWithout(coins, txids);
      WithoutMembers(coins, txids);
      assert forall i | 0 <= i < |r| :: r[i] in r;
    }
  }

  /** The scan drops what an orphan made, `x` included. */
  predicate DropsOrphans(v: StoreView, b: Bundle, x: OutPoint) {
    var ids := OrphanIds(v.notes, NextCoins(v, b), KnownTxids(b));
    ids != {} && x.txid in OrphanTxids(OrphanedNotes(v.notes, ids))
  }

  /** After a full scan a coin is there exactly when the chain lists it, or it is the change of a
      pending transaction the chain has never seen; but for the outputs of orphans. A listed coin
      is as locked as the store's was, a carried one is unchanged. */
  lemma FullScanAt(v: StoreView, b: Bundle, x: OutPoint)
    ensures CoinAt(FullyReconciled(v, b).coins, x) ==
            if DropsOrphans(v, b, x) then None
            else if Lists(b, x) then Some(ListedCoin(v.coins, b.utxos[FindListing(b.utxos, x)]))
            else if x.txid in PendingTxids(v.notes) && x.txid !in KnownTxids(b) then CoinAt(v.coins, x)
            else None
  {
    var next := NextCoins(v, b);
    ListedAt(v.coins, b.utxos, x);
    CarriedAt(Listed(v.coins, b.utxos), v.coins, PendingTxids(v.notes), KnownTxids(b), x);
    DroppedAt(next, OrphanTxids(OrphanedNotes(v.notes, OrphanIds(v.notes, next, KnownTxids(b)))), x);
  }

  lemma MergedCoinAt(coins: seq<Coin>, u: BundleCoin, x: OutPoint)
    ensures var c := CoinAt(coins, x);
            CoinAt(MergedCoin(coins, u), x) ==
            if OutOf(u) != x then c
            else if c.Some? then Some(c.value.(height := u.height))
            else Some(Coin(u.txid, u.vout, u.value, u.height, false))
  {
    var i, r := FindCoin(coins, OutOf(u)), MergedCoin(coins, u);
    if i < |coins| {
      assert forall j | 0 <= j < |coins| :: At(r[j]) == At(coins[j]);
      if FindCoin(coins, x) < |coins| {
        assert At(r[FindCoin(coins, x)]) == x;
      }
    } else {
      AppendedCoin(coins, Coin(u.txid, u.vout, u.value, u.height, false), x);
    }
  }

  /** An incremental scan takes nothing away, adds what it lists, unlocked, and changes only the
      height of what is there. */
  lemma {:induction false} IncrementalScanAt(coins: seq<Coin>, utxos: seq<BundleCoin>, x: OutPoint)
    ensures var before, after := CoinAt(coins, x), CoinAt(MergedCoins(coins, utxos), x);
            var i := FindListing(utxos, x);
            && (after.Some? <==> before.Some? || i < |utxos|)
            && (before.Some? ==> after.value.(height := None) == before.value.(height := None))
            && (before.None? && i < |utxos| ==> after.value.value == utxos[i].value && !after.value.pendingSpend)
            && (i == |utxos| ==> after == before)
  {
    if utxos != [] {
      var front, u := utxos[..|utxos| - 1], utxos[|utxos| - 1];
      IncrementalScanAt(coins, front, x);
      MergedCoinAt(MergedCoins(coins, front), u, x);
      ListingSnoc(front, u, x);
      assert utxos == front + [u];
    }
  }

  lemma ListingSnoc(utxos: seq<BundleCoin>, u: BundleCoin, x: OutPoint)
    ensures var i := FindListing(utxos, x);
            FindListing(utxos + [u], x) == if i < |utxos| || OutOf(u) == x then i else i + 1
  {
    var all := utxos + [u];
    var i, j := FindListing(utxos, x), FindListing(all, x);
    assert forall k | 0 <= k < |utxos| :: all[k] == utxos[k];
    assert all[|utxos|] == u;
  }
}
