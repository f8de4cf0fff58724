/**
 A notebook's store (`app-core/src/store.rs`) as far as money goes: its notes, its sweep and
 consolidate records and its coins, with the recording halves of `app-core/src/compose.rs`.
 Built transactions are given; their txids are opaque.
 */
module Ledger {
  import opened Options

  type Txid = string

  datatype OutPoint = OutPoint(txid: Txid, vout: nat)

  /** A coin of the ledger; `pendingSpend` locks it for a signed, unconfirmed spend. */
  datatype Coin = Coin(txid: Txid, vout: nat, value: nat, height: Option<nat>, pendingSpend: bool)

  datatype Status = Pending | Confirmed | Orphaned

  datatype NoteRecord = NoteRecord(
    noteId: Txid, status: Status, recipient: Option<string>, recipients: seq<string>, txids: seq<Txid>,
    spent: seq<OutPoint>, rawHex: Option<string>, fee: Option<nat>, vsize: Option<nat>, changeTo: Option<string>)

  datatype TxInput = TxInput(txid: Txid, vout: nat, value: nat)

  datatype TxRecord = TxRecord(
    kind: string, txids: seq<Txid>, status: Status, value: nat, fee: nat, vsize: nat, rawHex: Option<string>,
    dest: string, inputs: seq<TxInput>, destSpkHex: string, inputAccounts: seq<nat>, inputIndexes: seq<nat>,
    mixedInputs: bool)

  /** A built, signed transaction: its outputs' values in order and its change, if any. */
  datatype BuiltTx = BuiltTx(txid: Txid, outputs: seq<nat>, change: nat, fee: nat, vsize: nat, rawHex: string,
                             spent: seq<OutPoint>)

  datatype ComposedNote = ComposedNote(recipient: Option<string>, recipients: seq<string>,
                                       changeIsSelf: bool, tx: BuiltTx)

  datatype StoreView = StoreView(notes: seq<NoteRecord>, txs: seq<TxRecord>, coins: seq<Coin>)

  const NEW_STORE := StoreView([], [], [])

  function At(c: Coin): OutPoint {
    OutPoint(c.txid, c.vout)
  }

  // ----- Coins -----

  function FindCoin(coins: seq<Coin>, op: OutPoint): (i: nat)
    ensures i <= |coins|
    ensures i < |coins| ==> At(coins[i]) == op
    ensures forall j | 0 <= j < i :: At(coins[j]) != op
  {
    if coins == [] || At(coins[0]) == op then 0 else 1 + FindCoin(coins[1..], op)
  }

  function CoinAt(coins: seq<Coin>, op: OutPoint): Option<Coin> {
    var i := FindCoin(coins, op);
    if i < |coins| then Some(coins[i]) else None
  }

  /** The first coin at `op`, if there is one, becomes locked. */
  function LockedAt(coins: seq<Coin>, op: OutPoint): (r: seq<Coin>)
    ensures |r| == |coins|
  {
    var i := FindCoin(coins, op);
    if i < |coins| then coins[i := coins[i].(pendingSpend := true)] else coins
  }

  function Locked(coins: seq<Coin>, ops: seq<OutPoint>): (r: seq<Coin>)
    ensures |r| == |coins|
  {
    if ops == [] then coins else LockedAt(Locked(coins, ops[..|ops| - 1]), ops[|ops| - 1])
  }

  /** `Store::balance`. */
  function Spendable(coins: seq<Coin>): nat {
    if coins == [] then 0
    else Spendable(coins[..|coins| - 1]) + (if coins[|coins| - 1].pendingSpend then 0 else coins[|coins| - 1].value)
  }

  function CoinsWithout(coins: seq<Coin>, txids: seq<Txid>): seq<Coin> {
    if coins == [] then []
    else CoinsWithout(coins[..|coins| - 1], txids) +
         (if coins[|coins| - 1].txid in txids then [] else [coins[|coins| - 1]])
  }

  // ----- Notes -----

  function FindNote(notes: seq<NoteRecord>, id: Txid): (i: nat)
    ensures i <= |notes|
    ensures i < |notes| ==> notes[i].noteId == id
    ensures forall j | 0 <= j < i :: notes[j].noteId != id
  {
    if notes == [] || notes[0].noteId == id then 0 else 1 + FindNote(notes[1..], id)
  }

  /** Change becomes a coin of the ledger only when it returns to the notebook. */
  function ChangeCoin(c: ComposedNote): Option<Coin>
    requires c.tx.outputs != []
  {
    if c.tx.change > 0 && c.changeIsSelf
    then Some(Coin(c.tx.txid, |c.tx.outputs| - 1, c.tx.change, None, false)) else None
  }

  function WithCoin(coins: seq<Coin>, c: Option<Coin>): seq<Coin> {
    if c.Some? then coins + [c.value] else coins
  }

  function RecordedSigned(v: StoreView, record: NoteRecord, change: Option<Coin>): StoreView {
    v.(coins := WithCoin(Locked(v.coins, record.spent), change), notes := v.notes + [record])
  }

  function NoteOf(c: ComposedNote, changeTo: Option<string>): NoteRecord {
    NoteRecord(c.tx.txid, Pending, c.recipient, c.recipients, [c.tx.txid], c.tx.spent, Some(c.tx.rawHex),
               Some(c.tx.fee), Some(c.tx.vsize), changeTo)
  }

  function Composed(v: StoreView, c: ComposedNote, changeTo: Option<string>): StoreView
    requires c.tx.outputs != []
  {
    RecordedSigned(v, NoteOf(c, changeTo), ChangeCoin(c))
  }

  function Bumped(v: StoreView, oldId: Txid, c: ComposedNote): (StoreView, Option<Txid>)
    requires c.tx.outputs != []
  {
    var i := FindNote(v.notes, oldId);
    if i == |v.notes| then (v, None)
    else
      var rec := v.notes[i];
      var coins := WithCoin(CoinsWithout(v.coins, rec.txids), ChangeCoin(c));
      var rec' := rec.(noteId := c.tx.txid, txids := rec.txids + [c.tx.txid], rawHex := Some(c.tx.rawHex),
                       fee := Some(c.tx.fee), vsize := Some(c.tx.vsize));
      (v.(coins := coins, notes := v.notes[i := rec']), Some(c.tx.txid))
  }

  // ----- Sweep and consolidate records -----

  function FindTx(txs: seq<TxRecord>, txid: Txid): (i: nat)
    ensures i <= |txs|
    ensures i < |txs| ==> txid in txs[i].txids
    ensures forall j | 0 <= j < i :: txid !in txs[j].txids
  {
    if txs == [] || txid in txs[0].txids then 0 else 1 + FindTx(txs[1..], txid)
  }

  function FindPendingTx(txs: seq<TxRecord>, txid: Txid): (i: nat)
    ensures i <= |txs|
    ensures i < |txs| ==> txid in txs[i].txids && txs[i].status.Pending?
    ensures forall j | 0 <= j < i :: !(txid in txs[j].txids && txs[j].status.Pending?)
  {
    if txs == [] || (txid in txs[0].txids && txs[0].status.Pending?) then 0 else 1 + FindPendingTx(txs[1..], txid)
  }

  /** `record_bumped_tx`: nothing happens when no record knows `txid`. */
  function BumpedTx(v: StoreView, txid: Txid, tx: BuiltTx): StoreView
    requires tx.outputs != []
  {
    var i := FindTx(v.txs, txid);
    if i == |v.txs| then v
    else
      v.(txs := v.txs[i := v.txs[i].(txids := v.txs[i].txids + [tx.txid], rawHex := Some(tx.rawHex), fee := tx.fee,
                                     vsize := tx.vsize, value := tx.outputs[0])])
  }

  // ----- The store object -----

  class Store {
    var notes: seq<NoteRecord>
    var txs: seq<TxRecord>
    var coins: seq<Coin>

    function View(): StoreView
      reads this
    {
      StoreView(notes, txs, coins)
    }

    constructor ()
      ensures View() == NEW_STORE
    {
      notes, txs, coins := [], [], [];
    }

    method RecordSigned(record: NoteRecord, change: Option<Coin>)
      modifies this
      ensures View() == RecordedSigned(old(View()), record, change)
    {
      for n := 0 to |record.spent|
        invariant coins == Locked(old(coins), record.spent[..n])
        invariant notes == old(notes) && txs == old(txs)
      {
        assert record.spent[..n + 1][..n] == record.spent[..n];
        var i := FindCoin(coins, record.spent[n]);
        if i < |coins| {
          coins := coins[i := coins[i].(pendingSpend := true)];
        }
      }
      assert record.spent[..|record.spent|] == record.spent;
      if change.Some? {
        coins := coins + [change.value];
      }
      notes := notes + [record];
    }

    method RecordComposedNote(c: ComposedNote, changeTo: Option<string>)
      requires c.tx.outputs != []
      modifies this
      ensures View() == Composed(old(View()), c, changeTo)
    {
      var change := None;
      if c.tx.change > 0 && c.changeIsSelf {
        change := Some(Coin(c.tx.txid, |c.tx.outputs| - 1, c.tx.change, None, false));
      }
      RecordSigned(NoteOf(c, changeTo), change);
    }

    method RecordBumpedNote(oldId: Txid, c: ComposedNote) returns (newId: Option<Txid>)
      requires c.tx.outputs != []
      modifies this
      ensures (View(), newId) == Bumped(old(View()), oldId, c)
    {
      var i := FindNote(notes, oldId);
      if i == |notes| {
        return None;
      }
      coins := CoinsWithout(coins, notes[i].txids);
      if c.tx.change > 0 && c.changeIsSelf {
        coins := coins + [Coin(c.tx.txid, |c.tx.outputs| - 1, c.tx.change, None, false)];
      }
      var rec := notes[i];
      rec := rec.(noteId := c.tx.txid);
      rec := rec.(txids := rec.txids + [c.tx.txid]);
      rec := rec.(rawHex := Some(c.tx.rawHex), fee := Some(c.tx.fee), vsize := Some(c.tx.vsize));
      notes := notes[i := rec];
      return Some(c.tx.txid);
    }

    method RecordBumpedTx(txid: Txid, tx: BuiltTx)
      requires tx.outputs != []
      modifies this
      ensures View() == BumpedTx(old(View()), txid, tx)
    {
      var i := FindTx(txs, txid);
      if i == |txs| {
        return;
      }
      var rec := txs[i];
      rec := rec.(txids := rec.txids + [tx.txid]);
      rec := rec.(rawHex := Some(tx.rawHex), fee := tx.fee, vsize := tx.vsize, value := tx.outputs[0]);
      txs := txs[i := rec];
    }
  }

  // ----- Locking, coin by coin -----

  lemma LockedAtCoin(coins: seq<Coin>, op: OutPoint, x: OutPoint)
    ensures var c := CoinAt(coins, x);
            CoinAt(LockedAt(coins, op), x) == if x == op && c.Some? then Some(c.value.(pendingSpend := true)) else c
  {
    var r := LockedAt(coins, op);
    assert forall j | 0 <= j < |coins| :: At(r[j]) == At(coins[j]);
    if FindCoin(coins, x) < |coins| {
      assert At(r[FindCoin(coins, x)]) == x;
    }
  }

  /** Locking changes nothing but the lock of the coins it names. */
  lemma {:induction false} LockedCoin(coins: seq<Coin>, ops: seq<OutPoint>, x: OutPoint)
    ensures var c := CoinAt(coins, x);
            CoinAt(Locked(coins, ops), x) == if x in ops && c.Some? then Some(c.value.(pendingSpend := true)) else c
  {
    if ops != [] {
      var n := |ops| - 1;
      LockedCoin(coins, ops[..n], x);
      LockedAtCoin(Locked(coins, ops[..n]), ops[n], x);
      assert ops == ops[..n] + [ops[n]];
    }
  }

  /** Locking keeps every coin in its place, with its value. */
  lemma {:induction false} LockedShape(coins: seq<Coin>, ops: seq<OutPoint>)
    ensures forall i | 0 <= i < |coins| ::
              Locked(coins, ops)[i] == coins[i] || Locked(coins, ops)[i] == coins[i].(pendingSpend := true)
  {
    if ops != [] {
      LockedShape(coins, ops[..|ops| - 1]);
    }
  }

  lemma LockedApart(coins: seq<Coin>, ops: seq<OutPoint>, txids: seq<Txid>)
    requires forall x | x in coins :: x.txid !in txids
    ensures forall x | x in Locked(coins, ops) :: x.txid !in txids
  {
    LockedShape(coins, ops);
    forall x | x in Locked(coins, ops)
      ensures x.txid !in txids
    {
      var i :| 0 <= i < |coins| && Locked(coins, ops)[i] == x;
      assert coins[i] in coins;
    }
  }

  lemma {:induction false} WithoutMembers(coins: seq<Coin>, txids: seq<Txid>)
    ensures forall x :: x in CoinsWithout(coins, txids) <==> x in coins && x.txid !in txids
  {
    if coins != [] {
      WithoutMembers(coins[..|coins| - 1], txids);
      assert coins == coins[..|coins| - 1] + [coins[|coins| - 1]];
    }
  }

  lemma {:induction false} WithoutCoin(coins: seq<Coin>, txids: seq<Txid>, x: OutPoint)
    requires x.txid !in txids
    ensures CoinAt(CoinsWithout(coins, txids), x) == CoinAt(coins, x)
  {
    if coins != [] {
      var n := |coins| - 1;
      var kept := CoinsWithout(coins[..n], txids);
      WithoutCoin(coins[..n], txids, x);
      AppendedCoin(coins[..n], coins[n], x);
      assert coins == coins[..n] + [coins[n]];
      AppendedCoin(kept, coins[n], x);
      assert CoinsWithout(coins, txids) == if coins[n].txid in txids then kept else kept + [coins[n]];
    }
  }

  lemma AppendedCoin(coins: seq<Coin>, c: Coin, x: OutPoint)
    ensures CoinAt(coins + [c], x) ==
            if CoinAt(coins, x).Some? then CoinAt(coins, x) else if At(c) == x then Some(c) else None
  {
    var r := coins + [c];
    assert forall j | 0 <= j < |coins| :: r[j] == coins[j];
    if FindCoin(coins, x) < |coins| {
      assert At(r[FindCoin(coins, x)]) == x;
    } else if At(c) == x {
      assert At(r[|coins|]) == x;
    }
  }
}
