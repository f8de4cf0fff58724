/** The coins a chain of replacements has in the ledger, and what each change of the ledger and
    each scan does to them. */
module ChainCoins {
  import opened Options
  import opened Ledger
  import opened Scans

  /** The coins made by the chain's transactions. */
  function OfChain(coins: seq<Coin>, chain: seq<Txid>): seq<Coin> {
    if coins == [] then []
    else OfChain(coins[..|coins| - 1], chain) +
         (if coins[|coins| - 1].txid in chain then [coins[|coins| - 1]] else [])
  }

  /** The ledger holds the change coin of `c`, if it has one, and no other coin of the chain. */
  ghost predicate CoinsOfChain(coins: seq<Coin>, chain: seq<Txid>, c: ComposedNote)
    requires c.tx.outputs != []
  {
    && (forall x | x in coins && x.txid in chain :: IsChange(x, c))
    && |OfChain(coins, chain)| <= 1
    && (ChangeCoin(c).Some? ==> exists x :: x in coins && x.txid == c.tx.txid)
  }

  predicate IsChange(x: Coin, c: ComposedNote)
    requires c.tx.outputs != []
  {
    var change := ChangeCoin(c);
    change.Some? && At(x) == At(change.value) && x.value == change.value.value
  }

  // ----- Counting -----

  lemma OfChainSnoc(coins: seq<Coin>, x: Coin, chain: seq<Txid>)
    ensures OfChain(coins + [x], chain) == OfChain(coins, chain) + (if x.txid in chain then [x] else [])
  {
    assert (coins + [x])[..|coins|] == coins;
  }

  lemma {:induction false} OfChainMembers(coins: seq<Coin>, chain: seq<Txid>)
    ensures forall x :: x in OfChain(coins, chain) <==> x in coins && x.txid in chain
  {
    if coins != [] {
      OfChainMembers(coins[..|coins| - 1], chain);
      assert coins == coins[..|coins| - 1] + [coins[|coins| - 1]];
    }
  }

  lemma OfChainNone(coins: seq<Coin>, chain: seq<Txid>)
    requires forall x | x in coins :: x.txid !in chain
    ensures OfChain(coins, chain) == []
  {
    OfChainMembers(coins, chain);
    if OfChain(coins, chain) != [] {
      assert OfChain(coins, chain)[0] in OfChain(coins, chain);
    }
  }

  lemma {:induction false} OfChainWithout(coins: seq<Coin>, txids: seq<Txid>, chain: seq<Txid>)
    requires forall t | t in txids :: t !in chain
    ensures OfChain(CoinsWithout(coins, txids), chain) == OfChain(coins, chain)
  {
    if coins != [] {
      var front, x := coins[..|coins| - 1], coins[|coins| - 1];
      var kept := CoinsWithout(front, txids);
      OfChainWithout(front, txids, chain);
      OfChainSnoc(kept, x, chain);
      assert CoinsWithout(coins, txids) == if x.txid in txids then kept else kept + [x];
    }
  }

  /** The same coins up to height and lock. */
  ghost predicate Alike(a: seq<Coin>, b: seq<Coin>) {
    |a| == |b| && forall i | 0 <= i < |a| :: At(a[i]) == At(b[i]) && a[i].value == b[i].value
  }

  lemma {:induction false} AlikeCount(a: seq<Coin>, b: seq<Coin>, chain: seq<Txid>)
    requires Alike(a, b)
    ensures |OfChain(a, chain)| == |OfChain(b, chain)|
  {
    if a != [] {
      var n := |a| - 1;
      AlikeCount(a[..n], b[..n], chain);
      assert At(a[n]) == At(b[n]);
    }
  }

  lemma AlikeKeeps(a: seq<Coin>, b: seq<Coin>, chain: seq<Txid>, c: ComposedNote)
    requires c.tx.outputs != [] && Alike(a, b) && CoinsOfChain(a, chain, c)
    ensures CoinsOfChain(b, chain, c)
  {
    AlikeCount(a, b, chain);
    forall x | x in b && x.txid in chain
      ensures IsChange(x, c)
    {
      var i :| 0 <= i < |b| && b[i] == x;
      assert a[i] in a;
    }
    if ChangeCoin(c).Some? {
      var x :| x in a && x.txid == c.tx.txid;
      var i :| 0 <= i < |a| && a[i] == x;
      assert b[i] in b;
    }
  }

  /** Only what the chain has matters. */
  lemma SameOfChain(a: seq<Coin>, b: seq<Coin>, chain: seq<Txid>, c: ComposedNote)
    requires c.tx.outputs != [] && c.tx.txid in chain && OfChain(a, chain) == OfChain(b, chain)
    ensures CoinsOfChain(a, chain, c) <==> CoinsOfChain(b, chain, c)
  {
    OfChainMembers(a, chain);
    OfChainMembers(b, chain);
    assert forall x: Coin | x.txid in chain :: x in a <==> x in b;
  }

  // ----- Recordings -----

  lemma NewChange(coins: seq<Coin>, chain: seq<Txid>, c: ComposedNote)
    requires c.tx.outputs != [] && c.tx.txid in chain
    requires forall x | x in coins :: x.txid !in chain
    ensures CoinsOfChain(WithCoin(coins, ChangeCoin(c)), chain, c)
  {
    OfChainNone(coins, chain);
    if ChangeCoin(c).Some? {
      OfChainSnoc(coins, ChangeCoin(c).value, chain);
      assert ChangeCoin(c).value in WithCoin(coins, ChangeCoin(c));
    }
  }

  lemma OtherCoin(coins: seq<Coin>, chain: seq<Txid>, c: ComposedNote, x: Option<Coin>)
    requires c.tx.outputs != [] && c.tx.txid in chain && CoinsOfChain(coins, chain, c)
    requires x.Some? ==> x.value.txid !in chain
    ensures CoinsOfChain(WithCoin(coins, x), chain, c)
  {
    if x.Some? {
      OfChainSnoc(coins, x.value, chain);
      SameOfChain(coins, coins + [x.value], chain, c);
    }
  }

  lemma WithoutKeepsChain(coins: seq<Coin>, txids: seq<Txid>, chain: seq<Txid>, c: ComposedNote)
    requires c.tx.outputs != [] && c.tx.txid in chain && CoinsOfChain(coins, chain, c)
    requires forall t | t in txids :: t !in chain
    ensures CoinsOfChain(CoinsWithout(coins, txids), chain, c)
  {
    OfChainWithout(coins, txids, chain);
    SameOfChain(coins, CoinsWithout(coins, txids), chain, c);
  }

  lemma LockedKeepsChain(coins: seq<Coin>, ops: seq<OutPoint>, chain: seq<Txid>, c: ComposedNote)
    requires c.tx.outputs != [] && CoinsOfChain(coins, chain, c)
    ensures CoinsOfChain(Locked(coins, ops), chain, c)
  {
    LockedShape(coins, ops);
    AlikeKeeps(coins, Locked(coins, ops), chain, c);
  }

  // ----- Full scans -----

  function ListingsOf(utxos: seq<BundleCoin>, chain: seq<Txid>): seq<BundleCoin> {
    if utxos == [] then []
    else ListingsOf(utxos[..|utxos| - 1], chain) +
         (if utxos[|utxos| - 1].txid in chain then [utxos[|utxos| - 1]] else [])
  }

  /** The chain source lists no output of the chain but the last change, once and at its value,
      and does not have the last transaction without listing its change. */
  ghost predicate FullFits(b: Bundle, chain: seq<Txid>, c: ComposedNote)
    requires c.tx.outputs != []
  {
    && (forall u | u in b.utxos && u.txid in chain ::
          ChangeCoin(c).Some? && OutOf(u) == At(ChangeCoin(c).value) && u.value == ChangeCoin(c).value.value)
    && |ListingsOf(b.utxos, chain)| <= 1
    && (ChangeCoin(c).Some? && c.tx.txid in KnownTxids(b) ==> exists u :: u in b.utxos && u.txid == c.tx.txid)
  }

  lemma {:induction false} ListedCount(coins: seq<Coin>, utxos: seq<BundleCoin>, chain: seq<Txid>)
    ensures |OfChain(Listed(coins, utxos), chain)| == |ListingsOf(utxos, chain)|
  {
    if utxos != [] {
      var front, u := utxos[..|utxos| - 1], utxos[|utxos| - 1];
      ListedCount(coins, front, chain);
      OfChainSnoc(Listed(coins, front), ListedCoin(coins, u), chain);
    }
  }

  lemma {:induction false} CarriedMembers(next: seq<Coin>, coins: seq<Coin>, pending: set<Txid>, known: set<Txid>)
    ensures forall x | x in next :: x in Carried(next, coins, pending, known)
    ensures forall x | x in Carried(next, coins, pending, known) :: x in next || (x in coins && x.txid !in known)
  {
    if coins != [] {
      CarriedMembers(next, coins[..|coins| - 1], pending, known);
      assert coins == coins[..|coins| - 1] + [coins[|coins| - 1]];
    }
  }

  lemma {:induction false} CarriedCount(next: seq<Coin>, coins: seq<Coin>, pending: set<Txid>, known: set<Txid>,
                                        chain: seq<Txid>)
    ensures var carried := |OfChain(Carried(next, coins, pending, known), chain)|;
            |OfChain(next, chain)| <= carried <= |OfChain(next, chain)| + |OfChain(coins, chain)|
  {
    if coins != [] {
      var front, l := coins[..|coins| - 1], coins[|coins| - 1];
      CarriedCount(next, front, pending, known, chain);
      OfChainSnoc(Carried(next, front, pending, known), l, chain);
    }
  }

  /** Nothing of the chain is carried over when all of it is known. */
  lemma {:induction false} CarriedNone(next: seq<Coin>, coins: seq<Coin>, pending: set<Txid>, known: set<Txid>,
                                       chain: seq<Txid>)
    requires forall l | l in coins && l.txid in chain :: l.txid in known
    ensures OfChain(Carried(next, coins, pending, known), chain) == OfChain(next, chain)
  {
    if coins != [] {
      var front, l := coins[..|coins| - 1], coins[|coins| - 1];
      assert coins == front + [l];
      CarriedNone(next, front, pending, known, chain);
      OfChainSnoc(Carried(next, front, pending, known), l, chain);
    }
  }

  /** What a scan finds when it fits. */
  lemma FitsKeeps(coins: seq<Coin>, b: Bundle, pending: set<Txid>, chain: seq<Txid>, c: ComposedNote)
    requires c.tx.outputs != [] && c.tx.txid in chain && c.tx.txid in pending
    requires CoinsOfChain(coins, chain, c) && FullFits(b, chain, c)
    ensures CoinsOfChain(Carried(Listed(coins, b.utxos), coins, pending, KnownTxids(b)), chain, c)
  {
    var listed, known := Listed(coins, b.utxos), KnownTxids(b);
    var next := Carried(listed, coins, pending, known);
    CarriedMembers(listed, coins, pending, known);
    ListedCount(coins, b.utxos, chain);
    ListedMembers(coins, b.utxos);
    if c.tx.txid in known {
      CarriedNone(listed, coins, pending, known, chain);
      if ChangeCoin(c).Some? {
        var u :| u in b.utxos && u.txid == c.tx.txid;
        assert ListedCoin(coins, u) in next;
      }
    } else {
      NoneListed(coins, b, chain, c);
      CarriedCount(listed, coins, pending, known, chain);
      if ChangeCoin(c).Some? {
        var l :| l in coins && l.txid == c.tx.txid;
        ChangeCarried(listed, coins, pending, known, l);
      }
    }
  }

  lemma ListedMembers(coins: seq<Coin>, utxos: seq<BundleCoin>)
    ensures forall x | x in Listed(coins, utxos) :: exists u :: u in utxos && x == ListedCoin(coins, u)
    ensures forall u | u in utxos :: ListedCoin(coins, u) in Listed(coins, utxos)
  {
    var r := Listed(coins, utxos);
    forall u | u in utxos
      ensures ListedCoin(coins, u) in r
    {
      var i :| 0 <= i < |utxos| && utxos[i] == u;
      assert r[i] in r;
    }
    forall x | x in r
      ensures exists u :: u in utxos && x == ListedCoin(coins, u)
    {
      var i :| 0 <= i < |r| && r[i] == x;
      assert utxos[i] in utxos;
    }
  }

  lemma NoneListed(coins: seq<Coin>, b: Bundle, chain: seq<Txid>, c: ComposedNote)
    requires c.tx.outputs != [] && FullFits(b, chain, c) && c.tx.txid !in KnownTxids(b)
    ensures OfChain(Listed(coins, b.utxos), chain) == []
  {
    ListedMembers(coins, b.utxos);
    forall x | x in Listed(coins, b.utxos)
      ensures x.txid !in chain
    {
      var u :| u in b.utxos && x == ListedCoin(coins, u);
      assert u.txid in KnownTxids(b);
    }
    OfChainNone(Listed(coins, b.utxos), chain);
  }

  lemma ChangeCarried(next: seq<Coin>, coins: seq<Coin>, pending: set<Txid>, known: set<Txid>, l: Coin)
    requires l in coins && l.txid in pending && l.txid !in known
    ensures exists x :: x in Carried(next, coins, pending, known) && x.txid == l.txid
  {
    var r, i := Carried(next, coins, pending, known), FindCoin(Carried(next, coins, pending, known), At(l));
    CarriedAt(next, coins, pending, known, At(l));
    assert FindCoin(coins, At(l)) < |coins|;
    if CoinAt(next, At(l)).Some? {
      assert i < |r| && r[i] in r;
    } else {
      assert i < |r| && r[i] in r;
    }
  }

  /** And what it must have found. */
  lemma KeepsFits(coins: seq<Coin>, b: Bundle, pending: set<Txid>, chain: seq<Txid>, c: ComposedNote)
    requires c.tx.outputs != [] && c.tx.txid in chain
    requires CoinsOfChain(Carried(Listed(coins, b.utxos), coins, pending, KnownTxids(b)), chain, c)
    ensures FullFits(b, chain, c)
  {
    var listed, known := Listed(coins, b.utxos), KnownTxids(b);
    var next := Carried(listed, coins, pending, known);
    CarriedMembers(listed, coins, pending, known);
    ListedMembers(coins, b.utxos);
    ListedCount(coins, b.utxos, chain);
    CarriedCount(listed, coins, pending, known, chain);
    forall u | u in b.utxos && u.txid in chain
      ensures ChangeCoin(c).Some? && OutOf(u) == At(ChangeCoin(c).value) && u.value == ChangeCoin(c).value.value
    {
      assert ListedCoin(coins, u) in next;
    }
  }

  /** A full scan that leaves the note pending keeps its one change coin exactly when it fits. */
  lemma FullScanChainIff(v: StoreView, b: Bundle, chain: seq<Txid>, c: ComposedNote)
    requires c.tx.outputs != [] && c.tx.txid in chain && CoinsOfChain(v.coins, chain, c)
    requires c.tx.txid in PendingTxids(v.notes)
    requires forall t | t in OrphanTxids(FullyReconciled(v, b).notes) :: t !in chain
    ensures CoinsOfChain(FullyReconciled(v, b).coins, chain, c) <==> FullFits(b, chain, c)
  {
    var next, orphaned := NextCoins(v, b), OrphanTxids(FullyReconciled(v, b).notes);
    OfChainWithout(next, orphaned, chain);
    SameOfChain(next, CoinsWithout(next, orphaned), chain, c);
    if FullFits(b, chain, c) {
      FitsKeeps(v.coins, b, PendingTxids(v.notes), chain, c);
    }
    if CoinsOfChain(next, chain, c) {
      KeepsFits(v.coins, b, PendingTxids(v.notes), chain, c);
    }
  }

  // ----- Incremental scans -----

  /** The chain source lists no output of the chain but the last change. */
  ghost predicate IncrementalFits(utxos: seq<BundleCoin>, chain: seq<Txid>, c: ComposedNote)
    requires c.tx.outputs != []
  {
    forall u | u in utxos && u.txid in chain :: ChangeCoin(c).Some? && OutOf(u) == At(ChangeCoin(c).value)
  }

  lemma MergedCoinKeeps(coins: seq<Coin>, u: BundleCoin, chain: seq<Txid>, c: ComposedNote)
    requires c.tx.outputs != [] && c.tx.txid in chain && CoinsOfChain(coins, chain, c)
    requires IncrementalFits([u], chain, c)
    ensures CoinsOfChain(MergedCoin(coins, u), chain, c)
  {
    assert u in [u];
    if FindCoin(coins, OutOf(u)) < |coins| {
      AlikeKeeps(coins, MergedCoin(coins, u), chain, c);
    } else if u.txid !in chain {
      OtherCoin(coins, chain, c, Some(Coin(u.txid, u.vout, u.value, u.height, false)));
    }
  }

  lemma {:induction false} IncrementalKeeps(coins: seq<Coin>, utxos: seq<BundleCoin>, chain: seq<Txid>, c: ComposedNote)
    requires c.tx.outputs != [] && c.tx.txid in chain && CoinsOfChain(coins, chain, c)
    requires IncrementalFits(utxos, chain, c)
    ensures CoinsOfChain(MergedCoins(coins, utxos), chain, c)
  {
    if utxos != [] {
      var front, u := utxos[..|utxos| - 1], utxos[|utxos| - 1];
      assert utxos == front + [u];
      IncrementalKeeps(coins, front, chain, c);
      MergedCoinKeeps(MergedCoins(coins, front), u, chain, c);
    }
  }

  /** An incremental scan keeps the one change coin exactly when it fits. */
  lemma IncrementalScanChainIff(coins: seq<Coin>, utxos: seq<BundleCoin>, chain: seq<Txid>, c: ComposedNote)
    requires c.tx.outputs != [] && c.tx.txid in chain && CoinsOfChain(coins, chain, c)
    ensures CoinsOfChain(MergedCoins(coins, utxos), chain, c) <==> IncrementalFits(utxos, chain, c)
  {
    if IncrementalFits(utxos, chain, c) {
      IncrementalKeeps(coins, utxos, chain, c);
    } else {
      var u :| u in utxos && u.txid in chain && !(ChangeCoin(c).Some? && OutOf(u) == At(ChangeCoin(c).value));
      var r := MergedCoins(coins, utxos);
      IncrementalScanAt(coins, utxos, OutOf(u));
      MemberListed(utxos, u);
      assert r[FindCoin(r, OutOf(u))] in r;
    }
  }

  lemma MemberListed(utxos: seq<BundleCoin>, u: BundleCoin)
    requires u in utxos
    ensures FindListing(utxos, OutOf(u)) < |utxos|
  {
  }
}
