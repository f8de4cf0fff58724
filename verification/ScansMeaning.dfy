/** What a scan leaves, said in what the bundle and the store hold. */
module ScansMeaning {
  import opened Options
  import opened Ledger
  import opened Scans
  import opened WalletConservation
  import opened RecordsMeaning

  // ----- In the bundle -----

  /** The chain source has the transaction in a block. */
  ghost predicate InBlock(b: Bundle, t: Txid) {
    exists o :: o in b.onchain && o.txid == t && o.height.Some?
  }

  /** The chain source has the transaction, in its history or behind a coin. */
  ghost predicate Seen(b: Bundle, t: Txid) {
    || (exists o :: o in b.onchain && o.txid == t)
    || (exists u :: u in b.utxos && u.txid == t)
  }

  lemma SeenMeans(b: Bundle, t: Txid)
    ensures t in KnownTxids(b) <==> Seen(b, t)
    ensures t in ConfirmedTxids(b) <==> InBlock(b, t)
  {
  }

  ghost predicate StillPending(n: NoteRecord, b: Bundle) {
    n.status.Pending? && forall t | t in n.txids :: !InBlock(b, t)
  }

  /** A note is confirmed exactly when it was pending and one of its txids is in a block. */
  lemma ConfirmedMeans(notes: seq<NoteRecord>, b: Bundle, i: nat)
    requires i < |notes|
    ensures ConfirmedNotes(notes, ConfirmedTxids(b))[i] ==
            if notes[i].status.Pending? && exists t :: t in notes[i].txids && InBlock(b, t)
            then notes[i].(status := Confirmed, rawHex := None) else notes[i]
  {
    forall t
      ensures t in ConfirmedTxids(b) <==> InBlock(b, t)
    {
      SeenMeans(b, t);
    }
  }

  // ----- An outpoint after a full scan -----

  /** A pending note made the output. */
  ghost predicate MadeByPending(notes: seq<NoteRecord>, b: Bundle, t: Txid) {
    exists i :: 0 <= i < |notes| && StillPending(notes[i], b) && t in notes[i].txids
  }

  lemma PendingMeans(notes: seq<NoteRecord>, b: Bundle, t: Txid)
    ensures t in PendingTxids(ConfirmedNotes(notes, ConfirmedTxids(b))) <==> MadeByPending(notes, b, t)
  {
    var confirmed := ConfirmedNotes(notes, ConfirmedTxids(b));
    forall i | 0 <= i < |notes|
      ensures confirmed[i].status.Pending? <==> StillPending(notes[i], b)
      ensures confirmed[i].txids == notes[i].txids
    {
      ConfirmedMeans(notes, b, i);
    }
    if MadeByPending(notes, b, t) {
      var i :| 0 <= i < |notes| && StillPending(notes[i], b) && t in notes[i].txids;
      assert confirmed[i] in confirmed;
    }
  }

  /** The full scan keeps the outpoint, orphans aside. */
  ghost predicate Remains(v: StoreView, notes: seq<NoteRecord>, b: Bundle, x: OutPoint) {
    || (exists u :: u in b.utxos && OutOf(u) == x)
    || (MadeByPending(notes, b, x.txid) && !Seen(b, x.txid) && exists c :: c in v.coins && At(c) == x)
  }

  lemma ListsMeans(b: Bundle, x: OutPoint)
    ensures Lists(b, x) <==> exists u :: u in b.utxos && OutOf(u) == x
  {
    if Lists(b, x) {
      assert b.utxos[FindListing(b.utxos, x)] in b.utxos;
    }
  }

  lemma CoinAtMeans(coins: seq<Coin>, x: OutPoint)
    ensures CoinAt(coins, x).Some? <==> exists c :: c in coins && At(c) == x
  {
    if CoinAt(coins, x).Some? {
      assert coins[FindCoin(coins, x)] in coins;
    }
  }

  lemma NextMeans(v: StoreView, notes: seq<NoteRecord>, b: Bundle, x: OutPoint)
    ensures var next := NextCoins(v.(notes := ConfirmedNotes(notes, ConfirmedTxids(b))), b);
            CoinAt(next, x).Some? <==> Remains(v, notes, b, x)
  {
    var w := v.(notes := ConfirmedNotes(notes, ConfirmedTxids(b)));
    ListedAt(v.coins, b.utxos, x);
    CarriedAt(Listed(v.coins, b.utxos), v.coins, PendingTxids(w.notes), KnownTxids(b), x);
    ListsMeans(b, x);
    PendingMeans(notes, b, x.txid);
    SeenMeans(b, x.txid);
    CoinAtMeans(v.coins, x);
  }

  // ----- Orphans -----

  /** Pending, never seen, with all its inputs gone and none of them a pending note's output. */
  ghost predicate DoubleSpent(v: StoreView, notes: seq<NoteRecord>, b: Bundle, i: nat)
    requires i < |notes|
  {
    && StillPending(notes[i], b) && notes[i].spent != []
    && (forall t | t in notes[i].txids :: !Seen(b, t))
    && (forall x | x in notes[i].spent :: !Remains(v, notes, b, x))
    && (forall j, x | 0 <= j < |notes| && x in notes[i].spent ::
          notes[j].noteId != notes[i].noteId && StillPending(notes[j], b) ==> x.txid !in notes[j].txids)
  }

  lemma OrphanMeans(v: StoreView, notes: seq<NoteRecord>, b: Bundle, i: nat)
    requires i < |notes|
    ensures var w := v.(notes := ConfirmedNotes(notes, ConfirmedTxids(b)));
            IsOrphan(w.notes[i], w.notes, NextCoins(w, b), KnownTxids(b)) <==> DoubleSpent(v, notes, b, i)
  {
    var w := v.(notes := ConfirmedNotes(notes, ConfirmedTxids(b)));
    forall j | 0 <= j < |notes|
      ensures w.notes[j].status.Pending? <==> StillPending(notes[j], b)
      ensures w.notes[j] == notes[j].(status := w.notes[j].status, rawHex := w.notes[j].rawHex)
    {
      ConfirmedMeans(notes, b, j);
    }
    forall t
      ensures t in KnownTxids(b) <==> Seen(b, t)
    {
      SeenMeans(b, t);
    }
    forall x
      ensures CoinAt(NextCoins(w, b), x).Some? <==> Remains(v, notes, b, x)
    {
      NextMeans(v, notes, b, x);
    }
    OtherPending(w.notes, w.notes[i]);
    assert IsOrphan(w.notes[i], w.notes, NextCoins(w, b), KnownTxids(b)) ==> DoubleSpent(v, notes, b, i);
  }

  /** Another pending note, by place instead of by value. */
  lemma OtherPending(notes: seq<NoteRecord>, n: NoteRecord)
    ensures (exists o, x ::
               o in notes && x in n.spent && o.status.Pending? && o.noteId != n.noteId && x.txid in o.txids)
            <==> exists j, x :: 0 <= j < |notes| && x in n.spent && notes[j].status.Pending? &&
                                notes[j].noteId != n.noteId && x.txid in notes[j].txids
  {
    if o, x :| o in notes && x in n.spent && o.status.Pending? && o.noteId != n.noteId && x.txid in o.txids {
      var j :| 0 <= j < |notes| && notes[j] == o;
      assert notes[j].status.Pending? && notes[j].noteId != n.noteId && x.txid in notes[j].txids;
    }
    if j, x :| 0 <= j < |notes| && x in n.spent && notes[j].status.Pending? && notes[j].noteId != n.noteId
               && x.txid in notes[j].txids {
      assert notes[j] in notes;
    }
  }

  /** What becomes of each note of a full scan, when no two share an id: confirmed by a block,
      orphaned by a double spend, and otherwise left alone. */
  lemma NotesAfterFullScan(v: StoreView, notes: seq<NoteRecord>, b: Bundle, i: nat)
    requires b.full && i < |notes|
    requires forall j, k | 0 <= j < k < |notes| :: notes[j].noteId != notes[k].noteId
    ensures |Scanned(v, notes, b).notes| == |notes|
    ensures Scanned(v, notes, b).notes[i] ==
            if notes[i].status.Pending? && exists t :: t in notes[i].txids && InBlock(b, t)
            then notes[i].(status := Confirmed, rawHex := None)
            else if DoubleSpent(v, notes, b, i) then notes[i].(status := Orphaned)
            else notes[i]
  {
    ConfirmedMeans(notes, b, i);
    OrphanMeans(v, notes, b, i);
    var w := v.(notes := ConfirmedNotes(notes, ConfirmedTxids(b)));
    IdsOfOrphans(w.notes, NextCoins(w, b), KnownTxids(b), i);
  }

  lemma IdsOfOrphans(notes: seq<NoteRecord>, next: seq<Coin>, known: set<Txid>, i: nat)
    requires i < |notes| && forall j, k | 0 <= j < k < |notes| :: notes[j].noteId != notes[k].noteId
    ensures notes[i].noteId in OrphanIds(notes, next, known) <==> IsOrphan(notes[i], notes, next, known)
  {
    if notes[i].noteId in OrphanIds(notes, next, known) {
      var n :| n in notes && IsOrphan(n, notes, next, known) && n.noteId == notes[i].noteId;
      var j :| 0 <= j < |notes| && notes[j] == n;
    }
  }

  /** An incremental scan only confirms. */
  lemma NotesAfterIncremental(v: StoreView, notes: seq<NoteRecord>, b: Bundle, i: nat)
    requires !b.full && i < |notes|
    ensures Scanned(v, notes, b).notes[i] ==
            if notes[i].status.Pending? && exists t :: t in notes[i].txids && InBlock(b, t)
            then notes[i].(status := Confirmed, rawHex := None) else notes[i]
  {
    ConfirmedMeans(notes, b, i);
  }

  // ----- Coins -----

  ghost predicate NoOrphans(v: StoreView, notes: seq<NoteRecord>, b: Bundle) {
    forall i | 0 <= i < |notes| :: !DoubleSpent(v, notes, b, i)
  }

  /** Without orphans, the coin at an outpoint after a full scan: the listing's value and height,
      locked exactly if the store had a coin there locked; or the unseen pending change as it was. */
  lemma CoinAfterFullScan(v: StoreView, notes: seq<NoteRecord>, b: Bundle, x: OutPoint)
    requires b.full && NoOrphans(v, notes, b)
    ensures var r, i := CoinAt(Scanned(v, notes, b).coins, x), FindListing(b.utxos, x);
            if i < |b.utxos| then
              && r.Some? && At(r.value) == x && r.value.value == b.utxos[i].value && r.value.height == b.utxos[i].height
              && (r.value.pendingSpend <==> exists l :: l in v.coins && l.pendingSpend && At(l) == x)
            else r == if MadeByPending(notes, b, x.txid) && !Seen(b, x.txid) then CoinAt(v.coins, x) else None
  {
    var w := v.(notes := ConfirmedNotes(notes, ConfirmedTxids(b)));
    NoIds(v, notes, b);
    FullScanAt(w, b, x);
    PendingMeans(notes, b, x.txid);
    SeenMeans(b, x.txid);
  }

  lemma NoIds(v: StoreView, notes: seq<NoteRecord>, b: Bundle)
    requires NoOrphans(v, notes, b)
    ensures var w := v.(notes := ConfirmedNotes(notes, ConfirmedTxids(b)));
            OrphanIds(w.notes, NextCoins(w, b), KnownTxids(b)) == {}
  {
    var w := v.(notes := ConfirmedNotes(notes, ConfirmedTxids(b)));
    forall n | n in w.notes
      ensures !IsOrphan(n, w.notes, NextCoins(w, b), KnownTxids(b))
    {
      var i :| 0 <= i < |w.notes| && w.notes[i] == n;
      OrphanMeans(v, notes, b, i);
    }
  }

  /** When a full scan finds an orphan, no coin is left that an orphaned note made, this or an
      earlier one, and every other coin is as without it. */
  lemma OrphansMakeNothing(v: StoreView, notes: seq<NoteRecord>, b: Bundle, x: OutPoint)
    requires b.full && !NoOrphans(v, notes, b)
    ensures var after := Scanned(v, notes, b);
            CoinAt(after.coins, x).Some? <==>
              Remains(v, notes, b, x) && forall n | n in after.notes && n.status.Orphaned? :: x.txid !in n.txids
  {
    SomeIds(v, notes, b);
    NextMeans(v, notes, b, x);
    OrphanTxidsMeans(Scanned(v, notes, b).notes);
    DroppedAt(NextCoins(v.(notes := ConfirmedNotes(notes, ConfirmedTxids(b))), b),
              OrphanTxids(Scanned(v, notes, b).notes), x);
  }

  lemma SomeIds(v: StoreView, notes: seq<NoteRecord>, b: Bundle)
    requires !NoOrphans(v, notes, b)
    ensures var w := v.(notes := ConfirmedNotes(notes, ConfirmedTxids(b)));
            OrphanIds(w.notes, NextCoins(w, b), KnownTxids(b)) != {}
  {
    var w := v.(notes := ConfirmedNotes(notes, ConfirmedTxids(b)));
    var i :| 0 <= i < |notes| && DoubleSpent(v, notes, b, i);
    OrphanMeans(v, notes, b, i);
    OneId(w.notes, i, NextCoins(w, b), KnownTxids(b));
  }

  lemma OneId(notes: seq<NoteRecord>, i: nat, next: seq<Coin>, known: set<Txid>)
    requires i < |notes| && IsOrphan(notes[i], notes, next, known)
    ensures notes[i].noteId in OrphanIds(notes, next, known)
  {
    assert notes[i] in notes;
  }

  lemma {:induction false} OrphanTxidsMeans(notes: seq<NoteRecord>)
    ensures forall t :: t in OrphanTxids(notes) <==> exists n :: n in notes && n.status.Orphaned? && t in n.txids
  {
    if notes != [] {
      OrphanTxidsMeans(notes[..|notes| - 1]);
      assert notes == notes[..|notes| - 1] + [notes[|notes| - 1]];
    }
  }

  // ----- The balance -----

  function ListedValue(utxos: seq<BundleCoin>): nat {
    if utxos == [] then 0 else ListedValue(utxos[..|utxos| - 1]) + utxos[|utxos| - 1].value
  }

  /** With nothing locked and no orphan, the balance after a full scan is what the chain lists
      and what is carried over besides: coins of pending notes the chain has never seen. */
  lemma BalanceAfterFullScan(v: StoreView, notes: seq<NoteRecord>, b: Bundle)
    requires b.full && NoOrphans(v, notes, b) && forall c | c in v.coins :: !c.pendingSpend
    ensures var coins, n := Scanned(v, notes, b).coins, |b.utxos|;
            && |coins| >= n
            && Spendable(coins) == ListedValue(b.utxos) + Spendable(coins[n..])
            && forall c | c in coins[n..] :: c in v.coins && MadeByPending(notes, b, c.txid) && !Seen(b, c.txid)
  {
    var w := v.(notes := ConfirmedNotes(notes, ConfirmedTxids(b)));
    var listed, pending, known := Listed(v.coins, b.utxos), PendingTxids(w.notes), KnownTxids(b);
    NoIds(v, notes, b);
    var next := Carried(listed, v.coins, pending, known);
    CarriedBehind(listed, v.coins, pending, known);
    assert next == listed + next[|listed|..];
    SpendableConcat(listed, next[|listed|..]);
    ListedSum(v.coins, b.utxos);
    forall c | c in Scanned(v, notes, b).coins[|b.utxos|..]
      ensures c in v.coins && MadeByPending(notes, b, c.txid) && !Seen(b, c.txid)
    {
      PendingMeans(notes, b, c.txid);
      SeenMeans(b, c.txid);
    }
  }

  lemma {:induction false} ListedSum(coins: seq<Coin>, utxos: seq<BundleCoin>)
    requires forall c | c in coins :: !c.pendingSpend
    ensures Spendable(Listed(coins, utxos)) == ListedValue(utxos)
  {
    if utxos != [] {
      var front, u := utxos[..|utxos| - 1], utxos[|utxos| - 1];
      ListedSum(coins, front);
      SpendableAppended(Listed(coins, front), ListedCoin(coins, u));
    }
  }

  /** Carrying over only adds coins, behind the others. */
  lemma {:induction false} CarriedBehind(next: seq<Coin>, coins: seq<Coin>, pending: set<Txid>, known: set<Txid>)
    ensures var r := Carried(next, coins, pending, known);
            next <= r && forall c | c in r[|next|..] :: c in coins && c.txid in pending && c.txid !in known
  {
    if coins != [] {
      var front, l := coins[..|coins| - 1], coins[|coins| - 1];
      var before, r := Carried(next, front, pending, known), Carried(next, coins, pending, known);
      CarriedBehind(next, front, pending, known);
      assert coins == front + [l];
      assert r == before || r[|next|..] == before[|next|..] + [l];
    }
  }

  lemma {:induction false} SpendableConcat(a: seq<Coin>, b: seq<Coin>)
    ensures Spendable(a + b) == Spendable(a) + Spendable(b)
  {
    if b == [] {
      assert a + b == a;
    } else {
      var front, l := b[..|b| - 1], b[|b| - 1];
      SpendableConcat(a, front);
      SpendableAppended(a + front, l);
      assert a + b == (a + front) + [l];
    }
  }
}
