/** What composing and bumping a note leave in the store: coins, balance and record. */
module RecordsMeaning {
  import opened Options
  import opened Ledger
  import opened ChainCoins
  import opened WalletConservation

  lemma {:induction false} SpendableSplits(coins: seq<Coin>, txids: seq<Txid>)
    ensures Spendable(coins) == Spendable(CoinsWithout(coins, txids)) + Spendable(OfChain(coins, txids))
  {
    if coins != [] {
      var front, x := coins[..|coins| - 1], coins[|coins| - 1];
      var kept, gone := CoinsWithout(front, txids), OfChain(front, txids);
      SpendableSplits(front, txids);
      SpendableAppended(kept, x);
      SpendableAppended(gone, x);
      assert CoinsWithout(coins, txids) == if x.txid in txids then kept else kept + [x];
      assert OfChain(coins, txids) == if x.txid in txids then gone + [x] else gone;
    }
  }

  /** Composing makes one coin when the change returns to the notebook, the last output, free to
      spend, and none when there is no change or it goes elsewhere. */
  lemma ComposedCoins(v: StoreView, c: ComposedNote, changeTo: Option<string>)
    requires c.tx.outputs != [] && forall x | x in v.coins :: x.txid != c.tx.txid
    ensures OfChain(Composed(v, c, changeTo).coins, [c.tx.txid]) ==
            if c.tx.change > 0 && c.changeIsSelf
            then [Coin(c.tx.txid, |c.tx.outputs| - 1, c.tx.change, None, false)] else []
  {
    LockedApart(v.coins, c.tx.spent, [c.tx.txid]);
    ChangeAdded(Locked(v.coins, c.tx.spent), c);
  }

  lemma ChangeAdded(coins: seq<Coin>, c: ComposedNote)
    requires c.tx.outputs != [] && forall x | x in coins :: x.txid != c.tx.txid
    ensures var r := WithCoin(coins, ChangeCoin(c));
            && OfChain(r, [c.tx.txid]) ==
               (if c.tx.change > 0 && c.changeIsSelf
                then [Coin(c.tx.txid, |c.tx.outputs| - 1, c.tx.change, None, false)] else [])
            && Spendable(r) == Spendable(coins) + (if c.changeIsSelf then c.tx.change else 0)
  {
    OfChainNone(coins, [c.tx.txid]);
    if ChangeCoin(c).Some? {
      OfChainSnoc(coins, ChangeCoin(c).value, [c.tx.txid]);
      SpendableAppended(coins, ChangeCoin(c).value);
    }
  }

  /** Composing lowers the balance by the inputs, less the change that returns. */
  lemma ComposeAccount(v: StoreView, c: ComposedNote, changeTo: Option<string>)
    requires c.tx.outputs != [] && (forall x | x in v.coins :: x.txid != c.tx.txid) && Spendables(v.coins, c.tx.spent)
    ensures Spendable(Composed(v, c, changeTo).coins) ==
            Spendable(v.coins) - ValueOf(v.coins, c.tx.spent) + (if c.changeIsSelf then c.tx.change else 0)
  {
    LockedApart(v.coins, c.tx.spent, [c.tx.txid]);
    LockingLowers(v.coins, c.tx.spent);
    ChangeAdded(Locked(v.coins, c.tx.spent), c);
  }

  /** The record says what was composed, and it is all that is added to the records. */
  lemma ComposedRecord(v: StoreView, c: ComposedNote, changeTo: Option<string>)
    requires c.tx.outputs != []
    ensures var after := Composed(v, c, changeTo);
            && |after.notes| == |v.notes| + 1 && after.notes[..|v.notes|] == v.notes && after.txs == v.txs
            && var n := after.notes[|v.notes|];
               && n.noteId == c.tx.txid && n.txids == [c.tx.txid] && n.status == Pending && n.spent == c.tx.spent
               && n.recipient == c.recipient && n.recipients == c.recipients && n.changeTo == changeTo
               && n.rawHex == Some(c.tx.rawHex) && n.fee == Some(c.tx.fee) && n.vsize == Some(c.tx.vsize)
  {
  }

  /** A bump takes every coin of the chain and makes the replacement's own change, if it has one. */
  lemma BumpedCoins(v: StoreView, id: Txid, c: ComposedNote)
    requires c.tx.outputs != [] && FindNote(v.notes, id) < |v.notes| && forall x | x in v.coins :: x.txid != c.tx.txid
    ensures OfChain(Bumped(v, id, c).0.coins, [c.tx.txid]) ==
            if c.tx.change > 0 && c.changeIsSelf
            then [Coin(c.tx.txid, |c.tx.outputs| - 1, c.tx.change, None, false)] else []
    ensures forall x: Coin :: x.txid != c.tx.txid ==>
              (x in Bumped(v, id, c).0.coins <==> x in v.coins && x.txid !in v.notes[FindNote(v.notes, id)].txids)
  {
    var kept := CoinsWithout(v.coins, v.notes[FindNote(v.notes, id)].txids);
    WithoutMembers(v.coins, v.notes[FindNote(v.notes, id)].txids);
    ChangeAdded(kept, c);
    OtherMembers(kept, ChangeCoin(c), c.tx.txid);
  }

  lemma OtherMembers(coins: seq<Coin>, c: Option<Coin>, t: Txid)
    requires c.Some? ==> c.value.txid == t
    ensures forall x: Coin :: x.txid != t ==> (x in WithCoin(coins, c) <==> x in coins)
  {
  }

  /** So the balance changes by the change of the two transactions. */
  lemma BumpAccount(v: StoreView, id: Txid, c: ComposedNote)
    requires c.tx.outputs != [] && FindNote(v.notes, id) < |v.notes| && forall x | x in v.coins :: x.txid != c.tx.txid
    ensures Spendable(Bumped(v, id, c).0.coins) ==
            Spendable(v.coins) - Spendable(OfChain(v.coins, v.notes[FindNote(v.notes, id)].txids))
            + (if c.changeIsSelf then c.tx.change else 0)
  {
    var chain := v.notes[FindNote(v.notes, id)].txids;
    WithoutMembers(v.coins, chain);
    SpendableSplits(v.coins, chain);
    ChangeAdded(CoinsWithout(v.coins, chain), c);
  }

  /** A bump renames the record and extends its chain; without a record nothing happens. */
  lemma BumpedRecord(v: StoreView, id: Txid, c: ComposedNote)
    requires c.tx.outputs != []
    ensures var (after, newId) := Bumped(v, id, c);
            var i := FindNote(v.notes, id);
            && after.txs == v.txs && |after.notes| == |v.notes|
            && (forall j | 0 <= j < |v.notes| && j != i :: after.notes[j] == v.notes[j])
            && (i == |v.notes| ==> newId == None && after == v)
            && (i < |v.notes| ==>
                  && newId == Some(c.tx.txid)
                  && after.notes[i] == v.notes[i].(noteId := c.tx.txid, txids := v.notes[i].txids + [c.tx.txid],
                                                   rawHex := Some(c.tx.rawHex), fee := Some(c.tx.fee),
                                                   vsize := Some(c.tx.vsize)))
  {
  }
}
