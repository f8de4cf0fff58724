/** What the broadcast results of a consolidation and a sweep do to the wallet. */
module WalletOutcomes {
  import opened Options
  import opened Ledger
  import opened WalletStores
  import opened WalletConservation
  import RbfChains
  import BumpRecords

  // ----- Consolidation -----

  /** A result books exactly when it is good and belongs to the wallet that is there. Then the
      total falls by the fee and by what the reload loses, and by the fee alone exactly under
      the condition on the open notebook. Otherwise nothing changes. */
  lemma ConsolidationResult(w: WalletView, s: Consolidation, result: Result<Txid, string>)
    requires Settled(w) && HoldsInputs(w, s.locks) && s.dest in w.realizable && s.dest in w.listed
    requires InputsValue(w, s.locks) == s.value + s.fee
    ensures var r := AfterConsolidation(w, s, result);
            if w.context == s.context && result.Ok? then
              && Total(r) == Total(w) - s.fee + ReloadGain(w, s)
              && (Total(r) == Total(w) - s.fee <==>
                  var open := w.open.value;
                  || open == s.dest || Names(s.locks, open) || open !in w.listed
                  || Spendable(OrNew(FileOf(w, open)).coins) == BalanceOf(w, open))
            else r == w
  {
    if result.Ok? {
      ConsolidationAccount(w, s, result.value);
      ConsolidationConservesIff(w, s, result.value);
    }
  }

  /** What a good result leaves in a listed notebook: the inputs it names locked, and at the
      destination one coin at the end of the list and one record at the end of the records. */
  lemma ConsolidationBooks(w: WalletView, s: Consolidation, txid: Txid, i: nat)
    requires Settled(w) && HoldsInputs(w, s.locks) && s.dest in w.realizable && s.dest in w.listed && i in w.listed
    requires w.context == s.context
    ensures var base, after := BaseOf(w, s, i), OrNew(StoreOf(AfterConsolidation(w, s, Ok(txid)), i));
            && after.notes == base.notes
            && |after.coins| == |base.coins| + (if i == s.dest then 1 else 0)
            && after.coins[..|base.coins|] == Locked(base.coins, LocksFor(s.locks, i))
            && |after.txs| == |base.txs| + (if i == s.dest then 1 else 0) && after.txs[..|base.txs|] == base.txs
            && (i == s.dest ==>
                  && after.coins[|base.coins|] == Coin(txid, 0, s.value, None, false)
                  && var r := after.txs[|base.txs|];
                     && r.kind == "consolidate" && r.txids == [txid] && r.status == Pending
                     && r.value == s.value && r.fee == s.fee && r.vsize == s.vsize && r.rawHex == Some(s.rawHex)
                     && r.dest == "self" && r.inputs == s.inputs && r.destSpkHex == s.destSpkHex
                     && r.inputAccounts == [] && r.inputIndexes == s.inputIndexes && !r.mixedInputs)
  {
    ConsolidatedAt(w, s, txid, i);
    if Names(s.locks, i) {
      NamedSpendable(w, s.locks, i);
    } else {
      UnnamedNoLocks(s.locks, i);
    }
  }

  /** Without the key, or for a destination the key does not yield, nothing is booked there; the
      other sources' files are locked all the same. Reloading makes the activated notebook the
      open one, as its file has it, if the key is there and yields it. */
  lemma ConsolidationWithoutKey(w: WalletView, s: Consolidation, txid: Txid, i: nat)
    requires DistinctIndexes(s.locks) && i in w.listed && w.context == s.context
    requires !w.hasMaterial || s.dest !in w.realizable
    ensures var r := AfterConsolidation(w, s, Ok(txid));
            && OrNew(FileOf(r, i)) ==
               (if i != s.dest && Names(s.locks, i) && StoreOf(w, i).Some?
                then StoreOf(w, i).value.(coins := Locked(StoreOf(w, i).value.coins, LocksFor(s.locks, i)))
                else OrNew(FileOf(w, i)))
            && (if w.hasMaterial && w.nbIndex in w.realizable
                then r.open == Some(w.nbIndex) && r.live == FileOf(r, w.nbIndex)
                else r.open == w.open && r.live == w.live)
  {
    SourcesSavedAt(w, s.locks, s.dest, i);
  }

  /** A notebook whose file is not known gets none, but for the activated one. */
  lemma UnlistedUntouched(w: WalletView, s: Consolidation, result: Result<Txid, string>, i: nat)
    requires i !in w.listed && i != w.nbIndex
    ensures FileOf(AfterConsolidation(w, s, result), i) == FileOf(w, i)
  {
    if result.Ok? {
      UnlistedSources(DestSaved(w, s, result.value), s.locks, s.dest, i);
    }
  }

  lemma {:induction false} UnlistedSources(w: WalletView, locks: seq<Locks>, dest: nat, i: nat)
    requires i !in w.listed
    ensures var r := SourcesSaved(w, locks, dest);
            r == w.(files := r.files) && FileOf(r, i) == FileOf(w, i)
  {
    if locks != [] {
      UnlistedSources(w, locks[..|locks| - 1], dest, i);
    }
  }

  /** A notebook's store is the one in memory if it is open there, else its file if that is known. */
  lemma StoreOfMeans(w: WalletView, i: nat)
    ensures w.open == Some(i) && w.live.Some? ==> StoreOf(w, i) == w.live
    ensures w.open != Some(i) || w.live.None? ==>
              (StoreOf(w, i).Some? <==> i in w.listed && i in w.files)
    ensures (w.open != Some(i) || w.live.None?) && StoreOf(w, i).Some? ==> StoreOf(w, i).value == w.files[i]
  {
  }

  /** What a note's run takes for a booking is one: at the destination the record, the locks and the
      coin, at a source the locks. */
  lemma SpendIsBooking(f: RbfChains.Followed, s: Consolidation, txid: Txid, ops: seq<OutPoint>)
    ensures var op := RbfChains.Spend(LocksFor(s.locks, s.dest), ConsolidationRecord(s, txid),
                                      Some(Coin(txid, 0, s.value, None, false)));
            RbfChains.AfterOp(f, op).store == DestBooked(f.store, s, txid)
    ensures forall rec: TxRecord | |rec.txids| == 1 ::
              RbfChains.AfterOp(f, RbfChains.Spend(ops, rec, None)).store.coins == WithLocks(f.store, ops).coins
  {
  }

  /** What the records' runs take for settling and recording: a pending record found in a block is
      confirmed and keeps no bytes, and a new record comes last. */
  lemma SettleMeans(v: StoreView, i: nat, rec: TxRecord)
    ensures var after := BumpRecords.AfterTxOp(v, BumpRecords.Settle(i));
            if i < |v.txs| && v.txs[i].status == Pending then
              after == v.(txs := v.txs[..i] + [v.txs[i].(status := Confirmed, rawHex := None)] + v.txs[i + 1..])
            else after == v
    ensures BumpRecords.AfterTxOp(v, BumpRecords.Record(rec)).txs == v.txs + [rec]
  {
    if i < |v.txs| {
      assert v.txs[i := v.txs[i].(status := Confirmed, rawHex := None)] ==
             v.txs[..i] + [v.txs[i].(status := Confirmed, rawHex := None)] + v.txs[i + 1..];
    }
  }

  // ----- Sweep -----

  /** A sweep's result is dropped when another notebook is open or the broadcast failed. A good
      one puts one record at the end of the open notebook's, which is then saved as it is. */
  lemma SweepResult(w: WalletView, s: Sweep, result: Result<Txid, string>)
    requires w.open.Some? && w.live.Some?
    ensures var after := AfterSweep(w, s, result);
            if w.openAddress == Some(s.address) && result.Ok? then
              && after.open == w.open && after.live.Some? && FileOf(after, w.open.value) == after.live
              && var before, now := w.live.value, after.live.value;
                 && now.notes == before.notes && now.coins == Locked(before.coins, LocksFor(s.locks, w.open.value))
                 && |now.txs| == |before.txs| + 1 && now.txs[..|before.txs|] == before.txs
                 && var r := now.txs[|before.txs|];
                    && r.kind == "sweep" && r.txids == [result.value] && r.status == Pending
                    && r.value == s.value && r.fee == s.fee && r.vsize == s.vsize && r.rawHex == Some(s.rawHex)
                    && r.dest == s.dest && r.inputs == s.inputs && r.destSpkHex == s.destSpkHex
                    && r.inputAccounts == [] && r.inputIndexes == s.inputIndexes && r.mixedInputs == s.mixed
            else after == w
  {
    if result.Ok? {
      SweepKeepsRecords(w, s.locks);
    }
  }

  lemma {:induction false} SweepKeepsRecords(w: WalletView, locks: seq<Locks>)
    requires w.open.Some? && w.live.Some?
    ensures var r := SweptAll(w, locks);
            && r.open == w.open && r.listed == w.listed && r.live.Some?
            && r.live.value == w.live.value.(coins := Locked(w.live.value.coins, LocksFor(locks, w.open.value)))
  {
    if locks != [] {
      var front, l, i := locks[..|locks| - 1], locks[|locks| - 1], w.open.value;
      SweepKeepsRecords(w, front);
      OpenSwept(SweptAll(w, front), l);
      if l.index == i {
        LockedConcat(w.live.value.coins, LocksFor(front, i), l.coins);
        assert LocksFor(locks, i) == LocksFor(front, i) + l.coins;
      } else {
        assert LocksFor(locks, i) == LocksFor(front, i);
      }
    }
  }

  lemma OpenSwept(w: WalletView, l: Locks)
    requires w.open.Some? && w.live.Some?
    ensures var r := SweptFrom(w, l);
            && r.open == w.open && r.listed == w.listed && r.live.Some?
            && r.live.value == (if w.open.value == l.index
                                then w.live.value.(coins := Locked(w.live.value.coins, l.coins)) else w.live.value)
  {
  }

  lemma {:induction false} LockedConcat(coins: seq<Coin>, a: seq<OutPoint>, b: seq<OutPoint>)
    ensures Locked(Locked(coins, a), b) == Locked(coins, a + b)
  {
    if b == [] {
      assert a + b == a;
    } else {
      LockedConcat(coins, a, b[..|b| - 1]);
      assert (a + b)[..|a + b| - 1] == a + b[..|b| - 1];
    }
  }

  /** Every listed notebook after a good result: the inputs it names locked, in memory for the
      open one and on file for the others, and no record but the open one's. */
  lemma SweepLocks(w: WalletView, s: Sweep, txid: Txid, i: nat)
    requires DistinctIndexes(s.locks) && i in w.listed && w.open.Some? && w.live.Some?
    requires w.openAddress == Some(s.address) && StoreOf(w, i).Some?
    ensures var before, after := StoreOf(w, i).value, StoreOf(AfterSweep(w, s, Ok(txid)), i);
            && after.Some? && after.value.notes == before.notes
            && after.value.coins == Locked(before.coins, LocksFor(s.locks, i))
            && (w.open != Some(i) ==> after.value.txs == before.txs)
  {
    SweptAllAt(w, s.locks, i);
    if !Names(s.locks, i) {
      UnnamedNoLocks(s.locks, i);
    }
  }

  /** With no notebook in memory nothing is recorded. */
  lemma SweepWithoutStore(w: WalletView, s: Sweep, result: Result<Txid, string>)
    requires w.live.None?
    ensures var after := AfterSweep(w, s, result);
            after.live.None? && after.open == w.open
  {
    if result.Ok? {
      NoStoreStays(w, s.locks);
    }
  }

  lemma {:induction false} NoStoreStays(w: WalletView, locks: seq<Locks>)
    requires w.live.None?
    ensures SweptAll(w, locks).live.None? && SweptAll(w, locks).open == w.open
  {
    if locks != [] {
      NoStoreStays(w, locks[..|locks| - 1]);
    }
  }
}
