/**
 The stores of one account's notebooks (`src/lib.rs`, `src/pending.rs`): the open notebook's
 store is in memory, every notebook's store is a file. Spends that take coins of several
 notebooks are booked here once their broadcast comes back.
 */
module WalletStores {
  import opened Options
  import opened Ledger

  /** Whose wallet it is: key fingerprint, network, account. */
  datatype Context = Context(fp8: Option<string>, network: string, account: nat)

  /** `listed` are the notebooks whose file is known; `realizable` those whose key the held
      material yields; `open` is the notebook in memory, `nbIndex` the one to activate. */
  datatype WalletView = WalletView(
    context: Context, hasMaterial: bool, realizable: set<nat>, listed: seq<nat>,
    nbIndex: nat, open: Option<nat>, openAddress: Option<string>, live: Option<StoreView>, files: map<nat, StoreView>)

  datatype Locks = Locks(index: nat, coins: seq<OutPoint>)

  datatype Consolidation = Consolidation(
    context: Context, dest: nat, destSpkHex: string, value: nat, fee: nat, vsize: nat, rawHex: string,
    locks: seq<Locks>, inputs: seq<TxInput>, inputIndexes: seq<nat>)

  datatype Sweep = Sweep(
    address: string, dest: string, destSpkHex: string, value: nat, fee: nat, vsize: nat, rawHex: string,
    locks: seq<Locks>, inputs: seq<TxInput>, inputIndexes: seq<nat>, mixed: bool)

  // ----- Specification -----

  /** `notebook_store`: the open notebook prefers the store in memory. */
  function StoreOf(w: WalletView, i: nat): Option<StoreView> {
    if w.open == Some(i) && w.live.Some? then w.live
    else if i in w.listed && i in w.files then Some(w.files[i])
    else None
  }

  function Saved(w: WalletView, i: nat, v: StoreView): WalletView {
    if i in w.listed then w.(files := w.files[i := v]) else w
  }

  function WithLocks(v: StoreView, ops: seq<OutPoint>): StoreView {
    v.(coins := Locked(v.coins, ops))
  }

  function LocksFor(locks: seq<Locks>, i: nat): seq<OutPoint> {
    if locks == [] then []
    else
      LocksFor(locks[..|locks| - 1], i) +
      (if locks[|locks| - 1].index == i then locks[|locks| - 1].coins else [])
  }

  function ConsolidationRecord(s: Consolidation, txid: Txid): TxRecord {
    TxRecord("consolidate", [txid], Pending, s.value, s.fee, s.vsize, Some(s.rawHex), "self", s.inputs, s.destSpkHex,
             [], s.inputIndexes, false)
  }

  /** The destination's store: the record, its own inputs locked, the consolidated coin. */
  function DestBooked(v: StoreView, s: Consolidation, txid: Txid): StoreView {
    v.(txs := v.txs + [ConsolidationRecord(s, txid)],
       coins := Locked(v.coins, LocksFor(s.locks, s.dest)) + [Coin(txid, 0, s.value, None, false)])
  }

  function OrNew(v: Option<StoreView>): StoreView {
    if v.Some? then v.value else NEW_STORE
  }

  function FileOf(w: WalletView, i: nat): Option<StoreView> {
    if i in w.files then Some(w.files[i]) else None
  }

  /** `activate` as far as stores go: the file, or a new store, replaces the store in memory. */
  function Activated(w: WalletView): WalletView {
    if w.nbIndex !in w.realizable then w
    else
      var v := OrNew(FileOf(w, w.nbIndex));
      w.(open := Some(w.nbIndex), live := Some(v), files := w.files[w.nbIndex := v])
  }

  function DestSaved(w: WalletView, s: Consolidation, txid: Txid): WalletView {
    if w.hasMaterial && s.dest in w.realizable
    then Saved(w, s.dest, DestBooked(OrNew(StoreOf(w, s.dest)), s, txid)) else w
  }

  function SourceSaved(w: WalletView, l: Locks): WalletView {
    match StoreOf(w, l.index)
    case None => w
    case Some(v) => Saved(w, l.index, WithLocks(v, l.coins))
  }

  /** Every source but the destination, in the order of the snapshot. */
  function SourcesSaved(w: WalletView, locks: seq<Locks>, dest: nat): WalletView {
    if locks == [] then w
    else
      var before := SourcesSaved(w, locks[..|locks| - 1], dest);
      var l := locks[|locks| - 1];
      if l.index == dest then before else SourceSaved(before, l)
  }

  function Consolidated(w: WalletView, s: Consolidation, txid: Txid): WalletView {
    var booked := SourcesSaved(DestSaved(w, s, txid), s.locks, s.dest);
    if w.hasMaterial then Activated(booked) else booked
  }

  function AfterConsolidation(w: WalletView, s: Consolidation, result: Result<Txid, string>): WalletView {
    if w.context != s.context || result.Err? then w else Consolidated(w, s, result.value)
  }

  function SweepRecord(s: Sweep, txid: Txid): TxRecord {
    TxRecord("sweep", [txid], Pending, s.value, s.fee, s.vsize, Some(s.rawHex), s.dest, s.inputs, s.destSpkHex,
             [], s.inputIndexes, s.mixed)
  }

  function SweptFrom(w: WalletView, l: Locks): WalletView {
    if w.open == Some(l.index) then
      if w.live.Some? then w.(live := Some(WithLocks(w.live.value, l.coins))) else w
    else SourceSaved(w, l)
  }

  function SweptAll(w: WalletView, locks: seq<Locks>): WalletView {
    if locks == [] then w else SweptFrom(SweptAll(w, locks[..|locks| - 1]), locks[|locks| - 1])
  }

  /** The record goes to the open notebook, whose store is then saved. */
  function Swept(w: WalletView, s: Sweep, txid: Txid): WalletView {
    var w := SweptAll(w, s.locks);
    if w.live.None? then w
    else
      var v := w.live.value.(txs := w.live.value.txs + [SweepRecord(s, txid)]);
      w.(live := Some(v), files := if w.open.Some? then w.files[w.open.value := v] else w.files)
  }

  function AfterSweep(w: WalletView, s: Sweep, result: Result<Txid, string>): WalletView {
    if w.openAddress != Some(s.address) || result.Err? then w else Swept(w, s, result.value)
  }

  // ----- The stores as the handlers change them -----

  class Wallet {
    var context: Context
    var hasMaterial: bool
    var realizable: set<nat>
    var listed: seq<nat>
    var nbIndex: nat
    var open: Option<nat>
    var openAddress: Option<string>
    var live: Option<StoreView>
    var files: map<nat, StoreView>

    function View(): WalletView
      reads this
    {
      WalletView(context, hasMaterial, realizable, listed, nbIndex, open, openAddress, live, files)
    }

    constructor (v: WalletView)
      ensures View() == v
    {
      context, hasMaterial, realizable, listed := v.context, v.hasMaterial, v.realizable, v.listed;
      nbIndex, open, openAddress, live, files := v.nbIndex, v.open, v.openAddress, v.live, v.files;
    }

    function NotebookStore(i: nat): (v: Option<StoreView>)
      reads this
      ensures v == StoreOf(View(), i)
    {
      if open == Some(i) && live.Some? then live
      else if i in listed && i in files then Some(files[i])
      else None
    }

    method SaveStoreFile(i: nat, v: StoreView)
      modifies this`files
      ensures View() == Saved(old(View()), i, v)
    {
      if i in listed {
        files := files[i := v];
      }
    }

    method Activate()
      modifies this
      ensures View() == Activated(old(View()))
    {
      if nbIndex !in realizable {
        return;
      }
      var store := NEW_STORE;
      if nbIndex in files {
        store := files[nbIndex];
      }
      open, live := Some(nbIndex), Some(store);
      files := files[nbIndex := store];
    }

    /** `apply_wconsol_broadcast_result`. */
    method ApplyConsolidation(s: Consolidation, result: Result<Txid, string>)
      modifies this
      ensures View() == AfterConsolidation(old(View()), s, result)
    {
      if context != s.context {
        return;
      }
      if result.Err? {
        return;
      }
      if hasMaterial && s.dest in realizable {
        BookDestination(s, result.value);
      }
      BookSources(s);
      if hasMaterial {
        Activate();
      }
    }

    method BookDestination(s: Consolidation, txid: Txid)
      requires hasMaterial && s.dest in realizable
      modifies this`files
      ensures View() == DestSaved(old(View()), s, txid)
    {
      var dstore := OrNew(NotebookStore(s.dest));
      var coins := dstore.coins;
      for n := 0 to |s.locks|
        invariant coins == Locked(dstore.coins, LocksFor(s.locks[..n], s.dest))
        invariant View() == old(View())
      {
        assert s.locks[..n + 1][..n] == s.locks[..n];
        ghost var mine := LocksFor(s.locks[..n], s.dest);
        assert mine + [] == mine;
        if s.locks[n].index == s.dest {
          LockedConcat(dstore.coins, mine, s.locks[n].coins);
          coins := LockCoins(coins, s.locks[n].coins);
        }
      }
      assert s.locks[..|s.locks|] == s.locks;
      dstore := dstore.(txs := dstore.txs + [ConsolidationRecord(s, txid)]);
      dstore := dstore.(coins := coins + [Coin(txid, 0, s.value, None, false)]);
      SaveStoreFile(s.dest, dstore);
    }

    method BookSources(s: Consolidation)
      modifies this`files
      ensures View() == SourcesSaved(old(View()), s.locks, s.dest)
    {
      for n := 0 to |s.locks|
        invariant View() == SourcesSaved(old(View()), s.locks[..n], s.dest)
      {
        assert s.locks[..n + 1][..n] == s.locks[..n];
        if s.locks[n].index != s.dest {
          var store := NotebookStore(s.locks[n].index);
          if store.Some? {
            var coins := LockCoins(store.value.coins, s.locks[n].coins);
            SaveStoreFile(s.locks[n].index, store.value.(coins := coins));
          }
        }
      }
      assert s.locks[..|s.locks|] == s.locks;
    }

    /** `apply_sweep_broadcast_result`, without the spending wallet's own coins. */
    method ApplySweep(s: Sweep, result: Result<Txid, string>)
      modifies this
      ensures View() == AfterSweep(old(View()), s, result)
    {
      if openAddress != Some(s.address) {
        return;
      }
      if result.Err? {
        return;
      }
      for n := 0 to |s.locks|
        invariant View() == SweptAll(old(View()), s.locks[..n])
      {
        assert s.locks[..n + 1][..n] == s.locks[..n];
        if open == Some(s.locks[n].index) {
          if live.Some? {
            var coins := LockCoins(live.value.coins, s.locks[n].coins);
            live := Some(live.value.(coins := coins));
          }
        } else {
          var store := NotebookStore(s.locks[n].index);
          if store.Some? {
            var coins := LockCoins(store.value.coins, s.locks[n].coins);
            SaveStoreFile(s.locks[n].index, store.value.(coins := coins));
          }
        }
      }
      assert s.locks[..|s.locks|] == s.locks;
      if live.Some? {
        live := Some(live.value.(txs := live.value.txs + [SweepRecord(s, result.value)]));
        if open.Some? {
          files := files[open.value := live.value];
        }
      }
    }
  }

  /** The handlers' lock loop: each outpoint locks the first coin it names, if there is one. */
  method LockCoins(coins: seq<Coin>, ops: seq<OutPoint>) returns (r: seq<Coin>)
    ensures r == Locked(coins, ops)
  {
    r := coins;
    for n := 0 to |ops|
      invariant r == Locked(coins, ops[..n])
    {
      assert ops[..n + 1][..n] == ops[..n];
      var i := FindCoin(r, ops[n]);
      if i < |r| {
        r := r[i := r[i].(pendingSpend := true)];
      }
    }
    assert ops[..|ops|] == ops;
  }

  lemma {:induction false} LockedConcat(coins: seq<Coin>, a: seq<OutPoint>, b: seq<OutPoint>)
    ensures Locked(coins, a + b) == Locked(Locked(coins, a), b)
  {
    if b == [] {
      assert a + b == a;
    } else {
      var m := |b| - 1;
      LockedConcat(coins, a, b[..m]);
      assert (a + b)[..|a + b| - 1] == a + b[..m];
    }
  }
}
