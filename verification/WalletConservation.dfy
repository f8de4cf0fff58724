/** What a consolidation and a sweep do to the wallet's balance and to its locks. */
module WalletConservation {
  import opened Options
  import opened Hex
  import opened Ledger
  import opened BumpSources
  import opened WalletStores

  // ----- Sums over the notebooks -----

  function Sum(s: seq<nat>, f: nat -> int): int {
    if s == [] then 0 else Sum(s[..|s| - 1], f) + f(s[|s| - 1])
  }

  lemma {:induction false} SumSplits(s: seq<nat>, f: nat -> int, g: nat -> int, h: nat -> int)
    requires forall i | i in s :: f(i) == g(i) + h(i)
    ensures Sum(s, f) == Sum(s, g) + Sum(s, h)
  {
    if s != [] {
      SumSplits(s[..|s| - 1], f, g, h);
    }
  }

  lemma {:induction false} SumOfOne(s: seq<nat>, k: nat, c: int, f: nat -> int)
    requires AllDifferent(s) && forall i | i in s :: f(i) == if i == k then c else 0
    ensures Sum(s, f) == if k in s then c else 0
  {
    if s != [] {
      var n := |s| - 1;
      assert s == s[..n] + [s[n]];
      SumOfOne(s[..n], k, c, f);
    }
  }

  // ----- Balances -----

  function BalanceOf(w: WalletView, i: nat): nat {
    match StoreOf(w, i) case None => 0 case Some(v) => Spendable(v.coins)
  }

  function Balances(w: WalletView): nat -> int {
    (i: nat) => BalanceOf(w, i)
  }

  /** The spendable total over every listed notebook. */
  function Total(w: WalletView): int {
    Sum(w.listed, Balances(w))
  }

  function ValueAt(coins: seq<Coin>, op: OutPoint): nat {
    match CoinAt(coins, op) case None => 0 case Some(c) => c.value
  }

  function ValueOf(coins: seq<Coin>, ops: seq<OutPoint>): nat {
    if ops == [] then 0 else ValueOf(coins, ops[..|ops| - 1]) + ValueAt(coins, ops[|ops| - 1])
  }

  function LockedIn(w: WalletView, i: nat, ops: seq<OutPoint>): nat {
    match StoreOf(w, i) case None => 0 case Some(v) => ValueOf(v.coins, ops)
  }

  function LockedBy(w: WalletView, locks: seq<Locks>): nat -> int {
    (i: nat) => LockedIn(w, i, LocksFor(locks, i))
  }

  /** What the snapshot's inputs are worth in the stores that hold them. */
  function InputsValue(w: WalletView, locks: seq<Locks>): nat {
    if locks == [] then 0
    else InputsValue(w, locks[..|locks| - 1]) + LockedIn(w, locks[|locks| - 1].index, locks[|locks| - 1].coins)
  }

  ghost predicate Spendables(coins: seq<Coin>, ops: seq<OutPoint>) {
    AllDifferent(ops) && forall op | op in ops :: CoinAt(coins, op).Some? && !CoinAt(coins, op).value.pendingSpend
  }

  function Worth(c: Coin): nat {
    if c.pendingSpend then 0 else c.value
  }

  lemma {:induction false} SpendableUpdated(coins: seq<Coin>, i: nat, c: Coin)
    requires i < |coins|
    ensures Spendable(coins[i := c]) == Spendable(coins) - Worth(coins[i]) + Worth(c)
  {
    var n := |coins| - 1;
    if i == n {
      assert coins[i := c][..n] == coins[..n];
    } else {
      SpendableUpdated(coins[..n], i, c);
      assert coins[i := c][..n] == coins[..n][i := c];
    }
  }

  /** Locking spendable coins lowers the balance by exactly what they are worth. */
  lemma {:induction false} LockingLowers(coins: seq<Coin>, ops: seq<OutPoint>)
    requires Spendables(coins, ops)
    ensures Spendable(Locked(coins, ops)) == Spendable(coins) - ValueOf(coins, ops)
  {
    if ops != [] {
      var n := |ops| - 1;
      var op := ops[n];
      assert ops == ops[..n] + [op];
      assert forall x | x in ops[..n] :: x in ops;
      assert op !in ops[..n];
      LockingLowers(coins, ops[..n]);
      var before := Locked(coins, ops[..n]);
      LockedCoin(coins, ops[..n], op);
      var i := FindCoin(before, op);
      SpendableUpdated(before, i, before[i].(pendingSpend := true));
    }
  }

  // ----- One notebook at a time -----

  predicate Names(locks: seq<Locks>, i: nat) {
    exists l :: l in locks && l.index == i
  }

  ghost predicate DistinctIndexes(locks: seq<Locks>) {
    forall j, k | 0 <= j < k < |locks| :: locks[j].index != locks[k].index
  }

  lemma {:induction false} UnnamedNoLocks(locks: seq<Locks>, i: nat)
    requires !Names(locks, i)
    ensures LocksFor(locks, i) == []
  {
    if locks != [] {
      var n := |locks| - 1;
      assert locks[n] in locks;
      assert forall l | l in locks[..n] :: l in locks;
      UnnamedNoLocks(locks[..n], i);
    }
  }

  lemma NamesSnoc(locks: seq<Locks>, i: nat)
    requires locks != [] && DistinctIndexes(locks)
    ensures var n := |locks| - 1;
            && Names(locks, i) == (Names(locks[..n], i) || locks[n].index == i)
            && (locks[n].index == i ==> !Names(locks[..n], i) && LocksFor(locks, i) == locks[n].coins)
            && (locks[n].index != i ==> LocksFor(locks, i) == LocksFor(locks[..n], i))
  {
    var n := |locks| - 1;
    assert locks == locks[..n] + [locks[n]];
    if Names(locks[..n], i) {
      var l :| l in locks[..n] && l.index == i;
      assert l in locks;
    }
    if locks[n].index == i {
      UnnamedNoLocks(locks[..n], i);
    }
  }

  /** The file of notebook `i` once the sources of `locks` are saved. */
  function FileBooked(w: WalletView, locks: seq<Locks>, dest: nat, i: nat): Option<StoreView> {
    if i != dest && Names(locks, i) && StoreOf(w, i).Some? then
      Some(WithLocks(StoreOf(w, i).value, LocksFor(locks, i)))
    else FileOf(w, i)
  }

  lemma {:induction false} SourcesSavedAt(w: WalletView, locks: seq<Locks>, dest: nat, i: nat)
    requires DistinctIndexes(locks) && i in w.listed
    ensures var r := SourcesSaved(w, locks, dest);
            r == w.(files := r.files) && FileOf(r, i) == FileBooked(w, locks, dest, i)
  {
    if locks != [] {
      var n := |locks| - 1;
      var before := SourcesSaved(w, locks[..n], dest);
      NamesSnoc(locks, i);
      SourcesSavedAt(w, locks[..n], dest, i);
      if locks[n].index == dest {
        assert FileBooked(w, locks, dest, i) == FileBooked(w, locks[..n], dest, i);
      } else if locks[n].index == i {
        assert StoreOf(before, i) == StoreOf(w, i);
      } else {
        assert FileOf(SourceSaved(before, locks[n]), i) == FileOf(before, i);
      }
    }
  }

  /** Every listed notebook after a consolidation. */
  lemma ConsolidatedAt(w: WalletView, s: Consolidation, txid: Txid, i: nat)
    requires Settled(w) && DistinctIndexes(s.locks) && i in w.listed
    requires s.dest in w.realizable && s.dest in w.listed
    ensures StoreOf(Consolidated(w, s, txid), i) ==
            if i == s.dest then Some(DestBooked(OrNew(StoreOf(w, i)), s, txid))
            else if Names(s.locks, i) && StoreOf(w, i).Some?
                 then Some(WithLocks(StoreOf(w, i).value, LocksFor(s.locks, i)))
            else if w.open == Some(i) then Some(OrNew(FileOf(w, i)))
            else StoreOf(w, i)
  {
    SourcesSavedAt(DestSaved(w, s, txid), s.locks, s.dest, i);
  }

  lemma SweptFromAt(w: WalletView, l: Locks, i: nat)
    requires i in w.listed && w.open.Some? && w.live.Some?
    ensures var r := SweptFrom(w, l);
            && r.open == w.open && r.listed == w.listed && r.live.Some?
            && StoreOf(r, i) == if l.index == i && StoreOf(w, i).Some?
                                then Some(WithLocks(StoreOf(w, i).value, l.coins))
                                else StoreOf(w, i)
  {
  }

  lemma {:induction false} SweptAllAt(w: WalletView, locks: seq<Locks>, i: nat)
    requires DistinctIndexes(locks) && i in w.listed && w.open.Some? && w.live.Some?
    ensures var r := SweptAll(w, locks);
            && r.open == w.open && r.listed == w.listed && r.live.Some?
            && StoreOf(r, i) == if Names(locks, i) && StoreOf(w, i).Some?
                                then Some(WithLocks(StoreOf(w, i).value, LocksFor(locks, i))) else StoreOf(w, i)
  {
    if locks != [] {
      var front := locks[..|locks| - 1];
      NamesSnoc(locks, i);
      SweptAllAt(w, front, i);
      SweptFromAt(SweptAll(w, front), locks[|locks| - 1], i);
    }
  }

  // ----- The accounts -----

  /** The open notebook is the activated one and the key is there. */
  ghost predicate Settled(w: WalletView) {
    AllDifferent(w.listed) && w.hasMaterial && w.open == Some(w.nbIndex) && w.nbIndex in w.realizable
  }

  /** Each source appears once, is a notebook of the wallet, and holds its coins, spendable. */
  ghost predicate HoldsInputs(w: WalletView, locks: seq<Locks>) {
    && DistinctIndexes(locks)
    && forall l | l in locks ::
         && l.index in w.listed && StoreOf(w, l.index).Some?
         && Spendables(StoreOf(w, l.index).value.coins, l.coins)
  }

  /** What reloading the open notebook adds, when the consolidation did not save it first. */
  function ReloadGain(w: WalletView, s: Consolidation): int {
    if w.open.Some? && w.open.value in w.listed && w.open.value != s.dest && !Names(s.locks, w.open.value) then
      Spendable(OrNew(FileOf(w, w.open.value)).coins) - BalanceOf(w, w.open.value)
    else 0
  }

  lemma {:induction false} NamedSpendable(w: WalletView, locks: seq<Locks>, i: nat)
    requires HoldsInputs(w, locks) && Names(locks, i)
    ensures i in w.listed && StoreOf(w, i).Some? && Spendables(StoreOf(w, i).value.coins, LocksFor(locks, i))
  {
    NamesSnoc(locks, i);
    var n := |locks| - 1;
    assert locks[n] in locks;
    assert forall l | l in locks[..n] :: l in locks;
    if locks[n].index != i {
      NamedSpendable(w, locks[..n], i);
    }
  }

  lemma {:induction false} InputsByNotebook(w: WalletView, locks: seq<Locks>)
    requires AllDifferent(w.listed) && DistinctIndexes(locks) && forall l | l in locks :: l.index in w.listed
    ensures Sum(w.listed, LockedBy(w, locks)) == InputsValue(w, locks)
  {
    var f := LockedBy(w, locks);
    if locks == [] {
      SumOfOne(w.listed, 0, 0, f);
    } else {
      var n := |locks| - 1;
      var l := locks[n];
      assert l in locks;
      assert forall x | x in locks[..n] :: x in locks;
      InputsByNotebook(w, locks[..n]);
      var g := LockedBy(w, locks[..n]);
      var h := (i: nat) => if i == l.index then LockedIn(w, i, l.coins) else 0;
      forall i | i in w.listed
        ensures f(i) == g(i) + h(i)
      {
        NamesSnoc(locks, i);
        if i == l.index {
          UnnamedNoLocks(locks[..n], i);
        }
      }
      SumSplits(w.listed, f, g, h);
      SumOfOne(w.listed, l.index, LockedIn(w, l.index, l.coins), h);
    }
  }

  lemma {:induction false} SpendableAppended(coins: seq<Coin>, c: Coin)
    ensures Spendable(coins + [c]) == Spendable(coins) + Worth(c)
  {
    assert (coins + [c])[..|coins|] == coins;
  }

  lemma BalanceConsolidated(w: WalletView, s: Consolidation, txid: Txid, i: nat)
    requires Settled(w) && HoldsInputs(w, s.locks) && i in w.listed
    requires s.dest in w.realizable && s.dest in w.listed
    ensures BalanceOf(Consolidated(w, s, txid), i) ==
            BalanceOf(w, i) - LockedIn(w, i, LocksFor(s.locks, i)) + (if i == s.dest then s.value else 0)
            + (if w.open == Some(i) then ReloadGain(w, s) else 0)
  {
    ConsolidatedAt(w, s, txid, i);
    if Names(s.locks, i) {
      NamedSpendable(w, s.locks, i);
      LockingLowers(StoreOf(w, i).value.coins, LocksFor(s.locks, i));
    } else {
      UnnamedNoLocks(s.locks, i);
    }
    if i == s.dest {
      SpendableAppended(Locked(OrNew(StoreOf(w, i)).coins, LocksFor(s.locks, i)), Coin(txid, 0, s.value, None, false));
    }
  }

  /** The account of a consolidation: the total falls by the fee, and changes by what reloading
      an untouched open notebook brings back or drops. */
  lemma ConsolidationAccount(w: WalletView, s: Consolidation, txid: Txid)
    requires Settled(w) && HoldsInputs(w, s.locks) && s.dest in w.realizable && s.dest in w.listed
    requires InputsValue(w, s.locks) == s.value + s.fee
    ensures Total(Consolidated(w, s, txid)) == Total(w) - s.fee + ReloadGain(w, s)
  {
    var w' := Consolidated(w, s, txid);
    var before, after := Balances(w), Balances(w');
    var spent := LockedBy(w, s.locks);
    var coin := (i: nat) => if i == s.dest then s.value else 0;
    var gain := (i: nat) => if w.open == Some(i) then ReloadGain(w, s) else 0;
    var kept, paid := (i: nat) => after(i) + spent(i), (i: nat) => before(i) + coin(i);
    forall i | i in w.listed
      ensures kept(i) == paid(i) + gain(i)
    {
      BalanceConsolidated(w, s, txid, i);
    }
    SumSplits(w.listed, kept, after, spent);
    SumSplits(w.listed, paid, before, coin);
    SumSplits(w.listed, kept, paid, gain);
    InputsByNotebook(w, s.locks);
    SumOfOne(w.listed, s.dest, s.value, coin);
    SumOfOne(w.listed, w.open.value, ReloadGain(w, s), gain);
    SourcesSavedAt(DestSaved(w, s, txid), s.locks, s.dest, s.dest);
  }

  /** Value is conserved, less the fee, exactly when the open notebook takes part, or is not
      listed, or its memory and its file agree on the balance. */
  lemma ConsolidationConservesIff(w: WalletView, s: Consolidation, txid: Txid)
    requires Settled(w) && HoldsInputs(w, s.locks) && s.dest in w.realizable && s.dest in w.listed
    requires InputsValue(w, s.locks) == s.value + s.fee
    ensures Total(Consolidated(w, s, txid)) == Total(w) - s.fee <==>
            var open := w.open.value;
            || open == s.dest || Names(s.locks, open) || open !in w.listed
            || Spendable(OrNew(FileOf(w, open)).coins) == BalanceOf(w, open)
  {
    ConsolidationAccount(w, s, txid);
  }

  function CoinsIn(w: WalletView, i: nat): seq<Coin> {
    OrNew(StoreOf(w, i)).coins
  }

  /** The store a notebook is booked on: the one it has, except that an open notebook which
      takes no part is read from its file again. */
  function BaseOf(w: WalletView, s: Consolidation, i: nat): StoreView {
    OrNew(if w.open == Some(i) && i != s.dest && !Names(s.locks, i) then FileOf(w, i) else StoreOf(w, i))
  }

  /** In every listed notebook exactly the snapshot's inputs are locked and exactly one coin
      appears, at the destination's end of the list: nothing else in its coins changes, and only
      the destination gains a record. */
  lemma ConsolidationLocksExactly(w: WalletView, s: Consolidation, txid: Txid, i: nat, x: OutPoint)
    requires Settled(w) && HoldsInputs(w, s.locks) && s.dest in w.realizable && s.dest in w.listed && i in w.listed
    ensures CoinsIn(Consolidated(w, s, txid), i) ==
            Locked(BaseOf(w, s, i).coins, LocksFor(s.locks, i)) +
            (if i == s.dest then [Coin(txid, 0, s.value, None, false)] else [])
    ensures var before, after := CoinAt(BaseOf(w, s, i).coins, x), CoinAt(CoinsIn(Consolidated(w, s, txid), i), x);
            after == match before
                     case Some(c) => Some(if x in LocksFor(s.locks, i) then c.(pendingSpend := true) else c)
                     case None =>
                       if i == s.dest && x == OutPoint(txid, 0) then Some(Coin(txid, 0, s.value, None, false)) else None
    ensures OrNew(StoreOf(Consolidated(w, s, txid), i)).txs ==
            BaseOf(w, s, i).txs + (if i == s.dest then [ConsolidationRecord(s, txid)] else [])
  {
    var coins := BaseOf(w, s, i).coins;
    ConsolidatedAt(w, s, txid, i);
    LockedCoin(coins, LocksFor(s.locks, i), x);
    AppendedCoin(Locked(coins, LocksFor(s.locks, i)), Coin(txid, 0, s.value, None, false), x);
    if Names(s.locks, i) {
      NamedSpendable(w, s.locks, i);
    } else {
      UnnamedNoLocks(s.locks, i);
    }
  }

  /** The booked record can be bumped: the build finds it, pending, under its txid, reads back
      the snapshot's inputs with one owner each and its script, and the record balances as the
      snapshot does, against the coin that was added. */
  lemma ConsolidationCanBeBumped(w: WalletView, s: Consolidation, txid: Txid)
    requires Settled(w) && HoldsInputs(w, s.locks) && s.dest in w.realizable && s.dest in w.listed
    requires forall r | r in OrNew(StoreOf(w, s.dest)).txs :: txid !in r.txids
    requires CoinAt(CoinsIn(w, s.dest), OutPoint(txid, 0)).None?
    requires Readable(s.inputs) && Decode(s.destSpkHex).Some?
    ensures var v := OrNew(StoreOf(Consolidated(w, s, txid), s.dest));
            var i := FindPendingTx(v.txs, txid);
            && BumpInputs(v.txs, txid) == Ok((Coins(s.inputs), Decode(s.destSpkHex).value))
            && i < |v.txs| && (s.inputIndexes != [] ==> Owners(v.txs[i]) == s.inputIndexes)
            && v.txs[i].value + v.txs[i].fee == s.value + s.fee
            && CoinAt(v.coins, OutPoint(txid, 0)) == Some(Coin(txid, 0, v.txs[i].value, None, false))
  {
    ConsolidationLocksExactly(w, s, txid, s.dest, OutPoint(txid, 0));
    var before := OrNew(StoreOf(w, s.dest)).txs;
    var txs := before + [ConsolidationRecord(s, txid)];
    var i := FindPendingTx(txs, txid);
    assert forall j | 0 <= j < |before| :: txs[j] == before[j] && before[j] in before;
    assert txid in txs[|before|].txids;
    if !Names(s.locks, s.dest) {
      UnnamedNoLocks(s.locks, s.dest);
    } else {
      NamedSpendable(w, s.locks, s.dest);
    }
  }

  /** The ledger had the coin that `gone` left been replaced by the new transaction's. */
  function CoinRenewed(coins: seq<Coin>, gone: Txid, tx: BuiltTx): seq<Coin>
    requires tx.outputs != []
  {
    CoinsWithout(coins, [gone]) + [Coin(tx.txid, 0, tx.outputs[0], None, false)]
  }

  /** Bumping the booked consolidation updates the record and not the ledger: the superseded
      transaction's coin stays, spendable at the old value, and the replacement has none. When
      the bump spends the same inputs, the destination's balance is too high by the raise of
      the fee. */
  lemma ConsolidationBumpKeepsOldCoin(w: WalletView, s: Consolidation, txid: Txid, tx: BuiltTx)
    requires Settled(w) && HoldsInputs(w, s.locks) && s.dest in w.realizable && s.dest in w.listed
    requires forall r | r in OrNew(StoreOf(w, s.dest)).txs :: txid !in r.txids
    requires forall c | c in CoinsIn(w, s.dest) :: c.txid != txid && c.txid != tx.txid
    requires tx.outputs != [] && tx.txid != txid && tx.outputs[0] + tx.fee == s.value + s.fee
    ensures var v := OrNew(StoreOf(Consolidated(w, s, txid), s.dest));
            var bumped, i := BumpedTx(v, txid, tx), FindTx(v.txs, txid);
            && i < |v.txs| && bumped.txs[i].value == tx.outputs[0] && bumped.txs[i].txids == [txid, tx.txid]
            && CoinAt(bumped.coins, OutPoint(txid, 0)) == Some(Coin(txid, 0, s.value, None, false))
            && CoinAt(bumped.coins, OutPoint(tx.txid, 0)) == None
            && Spendable(bumped.coins) == Spendable(CoinRenewed(v.coins, txid, tx)) + (tx.fee - s.fee)
  {
    ConsolidatedAt(w, s, txid, s.dest);
    BumpOnBooked(OrNew(StoreOf(w, s.dest)), s, txid, tx);
  }

  lemma BumpOnBooked(before: StoreView, s: Consolidation, txid: Txid, tx: BuiltTx)
    requires forall r | r in before.txs :: txid !in r.txids
    requires forall c | c in before.coins :: c.txid != txid && c.txid != tx.txid
    requires tx.outputs != [] && tx.txid != txid && tx.outputs[0] + tx.fee == s.value + s.fee
    ensures var v := DestBooked(before, s, txid);
            var bumped := BumpedTx(v, txid, tx);
            && FindTx(v.txs, txid) == |before.txs| < |v.txs|
            && bumped.txs[|before.txs|].value == tx.outputs[0] && bumped.txs[|before.txs|].txids == [txid, tx.txid]
            && CoinAt(bumped.coins, OutPoint(txid, 0)) == Some(Coin(txid, 0, s.value, None, false))
            && CoinAt(bumped.coins, OutPoint(tx.txid, 0)) == None
            && Spendable(bumped.coins) == Spendable(CoinRenewed(v.coins, txid, tx)) + (tx.fee - s.fee)
  {
    var v := DestBooked(before, s, txid);
    BookedRecordBumped(v, before.txs, ConsolidationRecord(s, txid), txid, tx);
    BookedCoin(before.coins, LocksFor(s.locks, s.dest), Coin(txid, 0, s.value, None, false), tx);
  }

  lemma BookedRecordBumped(v: StoreView, txs: seq<TxRecord>, rec: TxRecord, txid: Txid, tx: BuiltTx)
    requires tx.outputs != [] && v.txs == txs + [rec] && rec.txids == [txid]
    requires forall r | r in txs :: txid !in r.txids
    ensures var bumped := BumpedTx(v, txid, tx);
            && FindTx(v.txs, txid) == |txs| && bumped.coins == v.coins && |bumped.txs| == |v.txs|
            && bumped.txs[|txs|].value == tx.outputs[0] && bumped.txs[|txs|].txids == [txid, tx.txid]
  {
    BookedRecordFound(txs, rec, txid);
  }

  lemma BookedCoin(before: seq<Coin>, ops: seq<OutPoint>, coin: Coin, tx: BuiltTx)
    requires tx.outputs != [] && tx.txid != coin.txid && !coin.pendingSpend
    requires forall c | c in before :: c.txid != coin.txid && c.txid != tx.txid
    ensures var coins := Locked(before, ops) + [coin];
            && CoinAt(coins, At(coin)) == Some(coin) && CoinAt(coins, OutPoint(tx.txid, 0)) == None
            && Spendable(coins) == Spendable(CoinRenewed(coins, coin.txid, tx)) + coin.value - tx.outputs[0]
  {
    LockedApart(before, ops, [coin.txid, tx.txid]);
    AddedCoin(Locked(before, ops), coin, tx.txid);
    RenewedWorth(Locked(before, ops), coin, tx);
  }

  lemma AddedCoin(coins: seq<Coin>, c: Coin, other: Txid)
    requires other != c.txid && forall x | x in coins :: x.txid != c.txid && x.txid != other
    ensures CoinAt(coins + [c], At(c)) == Some(c) && CoinAt(coins + [c], OutPoint(other, 0)) == None
  {
    assert forall i | 0 <= i < |coins| :: coins[i] in coins;
    AppendedCoin(coins, c, At(c));
    AppendedCoin(coins, c, OutPoint(other, 0));
  }

  lemma BookedRecordFound(txs: seq<TxRecord>, rec: TxRecord, txid: Txid)
    requires txid in rec.txids && forall r | r in txs :: txid !in r.txids
    ensures FindTx(txs + [rec], txid) == |txs|
  {
    assert forall j | 0 <= j < |txs| :: (txs + [rec])[j] == txs[j] && txs[j] in txs;
    assert (txs + [rec])[|txs|] == rec;
  }

  lemma RenewedWorth(coins: seq<Coin>, c: Coin, tx: BuiltTx)
    requires tx.outputs != [] && !c.pendingSpend && forall x | x in coins :: x.txid != c.txid
    ensures Spendable(coins + [c]) == Spendable(CoinRenewed(coins + [c], c.txid, tx)) + c.value - tx.outputs[0]
  {
    var all := coins + [c];
    assert all[..|all| - 1] == coins && all[|all| - 1] == c;
    WithoutNone(coins, [c.txid]);
    assert CoinsWithout(all, [c.txid]) == coins;
    SpendableAppended(coins, c);
    SpendableAppended(coins, Coin(tx.txid, 0, tx.outputs[0], None, false));
  }

  lemma {:induction false} WithoutNone(coins: seq<Coin>, txids: seq<Txid>)
    requires forall c | c in coins :: c.txid !in txids
    ensures CoinsWithout(coins, txids) == coins
  {
    if coins != [] {
      var n := |coins| - 1;
      assert coins == coins[..n] + [coins[n]];
      assert coins[n] in coins;
      WithoutNone(coins[..n], txids);
    }
  }

  lemma BalanceSwept(w: WalletView, s: Sweep, txid: Txid, i: nat)
    requires HoldsInputs(w, s.locks) && w.open.Some? && w.live.Some? && i in w.listed
    ensures BalanceOf(Swept(w, s, txid), i) == BalanceOf(w, i) - LockedIn(w, i, LocksFor(s.locks, i))
  {
    SweptAllAt(w, s.locks, i);
    if Names(s.locks, i) {
      NamedSpendable(w, s.locks, i);
      LockingLowers(StoreOf(w, i).value.coins, LocksFor(s.locks, i));
    } else {
      UnnamedNoLocks(s.locks, i);
    }
  }

  /** A sweep saves the open notebook instead of reloading it: the total always falls by what
      the notebooks' inputs are worth, which leaves the wallet as value and fee. */
  lemma SweepAccount(w: WalletView, s: Sweep, txid: Txid)
    requires HoldsInputs(w, s.locks) && AllDifferent(w.listed) && w.open.Some? && w.live.Some?
    ensures Total(Swept(w, s, txid)) == Total(w) - InputsValue(w, s.locks)
  {
    var before, after, spent := Balances(w), Balances(Swept(w, s, txid)), LockedBy(w, s.locks);
    forall i | i in w.listed
      ensures before(i) == after(i) + spent(i)
    {
      BalanceSwept(w, s, txid, i);
    }
    SumSplits(w.listed, before, after, spent);
    InputsByNotebook(w, s.locks);
    SweptKeepsListed(w, s.locks);
  }

  lemma {:induction false} SweptKeepsListed(w: WalletView, locks: seq<Locks>)
    ensures SweptAll(w, locks).listed == w.listed
  {
    if locks != [] {
      SweptKeepsListed(w, locks[..|locks| - 1]);
    }
  }

  const COIN_A := Coin("a", 0, 30, None, false)
  const COIN_B := Coin("b", 1, 20, None, false)
  const PAGE_COIN := Coin("c", 0, 100, Some(7), false)
  const EXAMPLE_WALLET := WalletView(
    Context(Some("fp"), "mainnet", 0), true, {0, 1}, [0, 1], 1, Some(1), Some("open"),
    Some(StoreView([], [], [PAGE_COIN])), map[0 := StoreView([], [], [COIN_A, COIN_B]), 1 := NEW_STORE])
  const EXAMPLE_SPEND := Consolidation(
    Context(Some("fp"), "mainnet", 0), 0, "51", 45, 5, 150, "00", [Locks(0, [At(COIN_A), At(COIN_B)])], [], [0, 0])

  lemma ExampleCoins()
    ensures var coins := [COIN_A, COIN_B];
            && CoinAt(coins, At(COIN_A)) == Some(COIN_A) && CoinAt(coins, At(COIN_B)) == Some(COIN_B)
            && ValueOf(coins, [At(COIN_A), At(COIN_B)]) == 50
  {
    var coins, ops := [COIN_A, COIN_B], [At(COIN_A), At(COIN_B)];
    assert coins[0] == COIN_A && coins[1] == COIN_B;
    assert ops[..1] == [At(COIN_A)] && ops[..1][..0] == [];
    assert ValueOf(coins, ops[..1]) == 30;
  }

  lemma ExampleHolds()
    ensures HoldsInputs(EXAMPLE_WALLET, EXAMPLE_SPEND.locks) && InputsValue(EXAMPLE_WALLET, EXAMPLE_SPEND.locks) == 50
  {
    ExampleCoins();
    var w, locks := EXAMPLE_WALLET, EXAMPLE_SPEND.locks;
    assert StoreOf(w, 0) == Some(StoreView([], [], [COIN_A, COIN_B]));
    assert InputsValue(w, locks[..0]) == 0;
  }

  /** A page of a running scan sits in the open store, not yet in its file, while two coins of
      another notebook are consolidated: reloading drops it from the balance. */
  lemma ReloadDropsUnsavedPage(txid: Txid)
    ensures var w, s := EXAMPLE_WALLET, EXAMPLE_SPEND;
            && Settled(w) && HoldsInputs(w, s.locks) && s.dest in w.realizable && s.dest in w.listed
            && InputsValue(w, s.locks) == s.value + s.fee
            && Total(Consolidated(w, s, txid)) == Total(w) - s.fee - PAGE_COIN.value
  {
    ExampleHolds();
    ConsolidationAccount(EXAMPLE_WALLET, EXAMPLE_SPEND, txid);
    SpendableAppended([], PAGE_COIN);
    assert [] + [PAGE_COIN] == [PAGE_COIN];
    assert BalanceOf(EXAMPLE_WALLET, 1) == 100;
    assert !Names(EXAMPLE_SPEND.locks, 1);
  }
}
