/**
 Fee bumps of a note over a whole run: the note's chain of replacement txids, its change coin
 and its inputs.
 */
module RbfChains {
  import opened Options
  import opened Ledger
  import opened Scans
  import opened ChainCoins

  /** What reaches the store while a note is pending. The note itself is bumped, always under its
      current id; another note is bumped, under any other id; another note is composed; a sweep
      or consolidation is recorded, with its locks and the coin it leaves, or bumped; a scan's
      bundle is applied, with what decoding it left of the notes. */
  datatype Op =
    | Bump(c: ComposedNote)
    | BumpOther(id: Txid, c: ComposedNote)
    | Compose(c: ComposedNote, changeTo: Option<string>)
    | Spend(locks: seq<OutPoint>, rec: TxRecord, coin: Option<Coin>)
    | BumpTx(ref: Txid, tx: BuiltTx)
    | Scan(notes: seq<NoteRecord>, b: Bundle)

  /** The transaction's parts fit together: it has an output, and a coin it leaves is its own. */
  predicate Sound(op: Op) {
    match op
    case Bump(c) => c.tx.outputs != []
    case BumpOther(_, c) => c.tx.outputs != []
    case Compose(c, _) => c.tx.outputs != []
    case Spend(_, rec, coin) => |rec.txids| == 1 && (coin.Some? ==> coin.value.txid == rec.txids[0])
    case BumpTx(_, tx) => tx.outputs != []
    case Scan(_, _) => true
  }

  /** The transaction a recording brings. */
  function TxidOf(op: Op): Option<Txid>
    requires Sound(op)
  {
    match op
    case Bump(c) => Some(c.tx.txid)
    case BumpOther(_, c) => Some(c.tx.txid)
    case Compose(c, _) => Some(c.tx.txid)
    case Spend(_, rec, _) => Some(rec.txids[0])
    case BumpTx(_, tx) => Some(tx.txid)
    case Scan(_, _) => None
  }

  /** A txid the store has never seen. */
  ghost predicate Fresh(v: StoreView, t: Txid) {
    && (forall c | c in v.coins :: c.txid != t)
    && (forall n | n in v.notes :: n.noteId != t && t !in n.txids && forall op | op in n.spent :: op.txid != t)
  }

  /** A store and the current id of the note that is followed. */
  datatype Followed = Followed(store: StoreView, id: Txid)

  function AfterOp(f: Followed, op: Op): Followed
    requires Sound(op)
  {
    match op
    case Bump(c) =>
      var (v, id) := Bumped(f.store, f.id, c);
      Followed(v, if id.Some? then id.value else f.id)
    case BumpOther(id, c) => Followed(Bumped(f.store, id, c).0, f.id)
    case Compose(c, changeTo) => Followed(Composed(f.store, c, changeTo), f.id)
    case Spend(locks, rec, coin) =>
      Followed(f.store.(coins := WithCoin(Locked(f.store.coins, locks), coin), txs := f.store.txs + [rec]), f.id)
    case BumpTx(ref, tx) => Followed(BumpedTx(f.store, ref, tx), f.id)
    case Scan(notes, b) => Followed(Scanned(f.store, notes, b), f.id)
  }

  /** A recorded transaction is new to the store, a note bumped as another is another one, and a
      scan leaves the note pending and as it was, with its txids to itself. */
  ghost predicate ValidOp(f: Followed, op: Op) {
    && Sound(op)
    && (TxidOf(op).Some? ==> Fresh(f.store, TxidOf(op).value))
    && (op.BumpOther? ==> op.id != f.id)
    && (op.Scan? ==> LeavesNote(f, AfterOp(f, op).store.notes))
  }

  ghost predicate LeavesNote(f: Followed, after: seq<NoteRecord>) {
    var i, j := FindNote(f.store.notes, f.id), FindNote(after, f.id);
    i < |f.store.notes| ==>
      j < |after| && after[j] == f.store.notes[i] && OthersApart(after, f.id, after[j].txids)
  }

  ghost predicate ValidOps(f: Followed, ops: seq<Op>)
    decreases |ops|
  {
    ops == [] || (ValidOp(f, ops[0]) && ValidOps(AfterOp(f, ops[0]), ops[1..]))
  }

  ghost function AfterOps(f: Followed, ops: seq<Op>): Followed
    requires ValidOps(f, ops)
    decreases |ops|
  {
    if ops == [] then f else AfterOps(AfterOp(f, ops[0]), ops[1..])
  }

  /** The chain and the last bump after a run: each bump adds its txid at the end. */
  function ChainAfter(chain: seq<Txid>, ops: seq<Op>): (r: seq<Txid>)
    ensures chain <= r
    decreases |ops|
  {
    if ops == [] then chain else ChainAfter(if ops[0].Bump? then chain + [ops[0].c.tx.txid] else chain, ops[1..])
  }

  function LastBump(c: ComposedNote, ops: seq<Op>): ComposedNote
    decreases |ops|
  {
    if ops == [] then c else LastBump(if ops[0].Bump? then ops[0].c else c, ops[1..])
  }

  // ----- The chain invariant -----

  /** The record as composed, under its last replacement. */
  function Renewed(origin: NoteRecord, chain: seq<Txid>, c: ComposedNote): NoteRecord {
    origin.(noteId := c.tx.txid, txids := chain, rawHex := Some(c.tx.rawHex),
            fee := Some(c.tx.fee), vsize := Some(c.tx.vsize))
  }

  /** The followed note is the pending record of `chain`, and its last replacement is `c`. */
  ghost predicate Chain(f: Followed, chain: seq<Txid>, c: ComposedNote, origin: NoteRecord) {
    && c.tx.outputs != [] && origin.status.Pending?
    && chain != [] && chain[|chain| - 1] == f.id == c.tx.txid
    && (var i := FindNote(f.store.notes, f.id);
        i < |f.store.notes| && f.store.notes[i] == Renewed(origin, chain, c))
    && (forall op | op in origin.spent :: op.txid !in chain)
    && OthersApart(f.store.notes, f.id, chain)
  }

  /** No other note knows a txid of the chain. */
  ghost predicate OthersApart(notes: seq<NoteRecord>, id: Txid, chain: seq<Txid>) {
    forall j, t | 0 <= j < |notes| && j != FindNote(notes, id) && t in notes[j].txids :: t !in chain
  }

  lemma FindNoteAppended(notes: seq<NoteRecord>, n: NoteRecord, id: Txid)
    requires FindNote(notes, id) < |notes|
    ensures FindNote(notes + [n], id) == FindNote(notes, id)
  {
    var i, j := FindNote(notes + [n], id), FindNote(notes, id);
    assert (notes + [n])[j] == notes[j];
  }

  lemma FindNoteRenamed(notes: seq<NoteRecord>, i: nat, n: NoteRecord)
    requires i < |notes| && forall m | m in notes :: m.noteId != n.noteId
    ensures FindNote(notes[i := n], n.noteId) == i
  {
    var r := notes[i := n];
    var j := FindNote(r, n.noteId);
    assert r[i] == n;
    assert forall k | 0 <= k < i :: r[k] == notes[k] && notes[k] in notes;
  }

  lemma FindNoteOther(notes: seq<NoteRecord>, j: nat, n: NoteRecord, id: Txid)
    requires j < |notes| && notes[j].noteId != id && n.noteId != id
    ensures FindNote(notes[j := n], id) == FindNote(notes, id)
  {
    var r := notes[j := n];
    var i, k := FindNote(r, id), FindNote(notes, id);
    assert forall m | 0 <= m < |notes| :: (r[m].noteId == id) == (notes[m].noteId == id);
  }

  lemma ChainStarts(v: StoreView, c: ComposedNote, changeTo: Option<string>)
    requires c.tx.outputs != [] && Fresh(v, c.tx.txid) && forall op | op in c.tx.spent :: op.txid != c.tx.txid
    ensures Chain(Followed(Composed(v, c, changeTo), c.tx.txid), [c.tx.txid], c, NoteOf(c, changeTo))
    ensures CoinsOfChain(Composed(v, c, changeTo).coins, [c.tx.txid], c)
  {
    var notes := v.notes + [NoteOf(c, changeTo)];
    var i := FindNote(notes, c.tx.txid);
    assert forall j | 0 <= j < |v.notes| :: notes[j] == v.notes[j] && v.notes[j] in v.notes;
    assert notes[|v.notes|].noteId == c.tx.txid;
    LockedApart(v.coins, c.tx.spent, [c.tx.txid]);
    NewChange(Locked(v.coins, c.tx.spent), [c.tx.txid], c);
  }

  lemma ChainBumped(f: Followed, chain: seq<Txid>, last: ComposedNote, origin: NoteRecord, c: ComposedNote)
    requires Chain(f, chain, last, origin) && ValidOp(f, Bump(c))
    ensures Chain(AfterOp(f, Bump(c)), chain + [c.tx.txid], c, origin)
    ensures CoinsOfChain(AfterOp(f, Bump(c)).store.coins, chain + [c.tx.txid], c)
  {
    var notes := f.store.notes;
    var i := FindNote(notes, f.id);
    assert notes[i] in notes;
    var renamed := AfterOp(f, Bump(c)).store.notes;
    FindNoteRenamed(notes, i, renamed[i]);
    BumpedApart(notes, i, renamed[i], chain);
    WithoutMembers(f.store.coins, chain);
    NewChange(CoinsWithout(f.store.coins, chain), chain + [c.tx.txid], c);
  }

  lemma BumpedApart(notes: seq<NoteRecord>, i: nat, n: NoteRecord, chain: seq<Txid>)
    requires i < |notes| && FindNote(notes, notes[i].noteId) == i && OthersApart(notes, notes[i].noteId, chain)
    requires FindNote(notes[i := n], n.noteId) == i
    requires forall m | m in notes :: n.noteId !in m.txids
    ensures OthersApart(notes[i := n], n.noteId, chain + [n.noteId])
  {
    var renamed := notes[i := n];
    forall j, t | 0 <= j < |notes| && j != i && t in renamed[j].txids
      ensures t !in chain + [n.noteId]
    {
      assert notes[j] in notes;
    }
  }

  /** A note whose txids are none of the chain's joins the store, or changes to such a note. */
  lemma OthersStayApart(before: seq<NoteRecord>, after: seq<NoteRecord>, id: Txid, chain: seq<Txid>)
    requires OthersApart(before, id, chain) && FindNote(after, id) == FindNote(before, id) && |before| <= |after|
    requires forall j | 0 <= j < |after| ::
               || (j < |before| && after[j].txids == before[j].txids)
               || (j != FindNote(before, id) && forall t | t in after[j].txids :: t !in chain)
    ensures OthersApart(after, id, chain)
  {
  }

  lemma ChainComposed(f: Followed, chain: seq<Txid>, last: ComposedNote, origin: NoteRecord,
                      c: ComposedNote, changeTo: Option<string>)
    requires Chain(f, chain, last, origin) && ValidOp(f, Compose(c, changeTo))
    ensures var after := AfterOp(f, Compose(c, changeTo));
            && Chain(after, chain, last, origin)
            && (CoinsOfChain(f.store.coins, chain, last) ==> CoinsOfChain(after.store.coins, chain, last))
  {
    var notes, n := f.store.notes, NoteOf(c, changeTo);
    assert notes[FindNote(notes, f.id)] in notes;
    FindNoteAppended(notes, n, f.id);
    OthersStayApart(notes, notes + [n], f.id, chain);
    if CoinsOfChain(f.store.coins, chain, last) {
      LockedKeepsChain(f.store.coins, c.tx.spent, chain, last);
      OtherCoin(Locked(f.store.coins, c.tx.spent), chain, last, ChangeCoin(c));
    }
  }

  lemma ChainSpent(f: Followed, chain: seq<Txid>, last: ComposedNote, origin: NoteRecord,
                   locks: seq<OutPoint>, rec: TxRecord, coin: Option<Coin>)
    requires Chain(f, chain, last, origin) && ValidOp(f, Spend(locks, rec, coin))
    ensures var after := AfterOp(f, Spend(locks, rec, coin));
            && Chain(after, chain, last, origin)
            && (CoinsOfChain(f.store.coins, chain, last) ==> CoinsOfChain(after.store.coins, chain, last))
  {
    assert f.store.notes[FindNote(f.store.notes, f.id)] in f.store.notes;
    if CoinsOfChain(f.store.coins, chain, last) {
      LockedKeepsChain(f.store.coins, locks, chain, last);
      OtherCoin(Locked(f.store.coins, locks), chain, last, coin);
    }
  }

  /** Bumping another note takes that note's coins and none of the chain. */
  lemma ChainOtherBumped(f: Followed, chain: seq<Txid>, last: ComposedNote, origin: NoteRecord,
                         id: Txid, c: ComposedNote)
    requires Chain(f, chain, last, origin) && ValidOp(f, BumpOther(id, c))
    ensures var after := AfterOp(f, BumpOther(id, c));
            && Chain(after, chain, last, origin)
            && (CoinsOfChain(f.store.coins, chain, last) ==> CoinsOfChain(after.store.coins, chain, last))
  {
    var notes, j := f.store.notes, FindNote(f.store.notes, id);
    assert notes[FindNote(notes, f.id)] in notes;
    if j < |notes| {
      var renamed := AfterOp(f, BumpOther(id, c)).store.notes;
      FindNoteOther(notes, j, renamed[j], f.id);
      OthersStayApart(notes, renamed, f.id, chain);
      if CoinsOfChain(f.store.coins, chain, last) {
        WithoutKeepsChain(f.store.coins, notes[j].txids, chain, last);
        OtherCoin(CoinsWithout(f.store.coins, notes[j].txids), chain, last, ChangeCoin(c));
      }
    }
  }

  // ----- Scans -----

  /** What the chain source says fits the chain: see `FullFits` and `IncrementalFits`. */
  ghost predicate ScanFits(b: Bundle, chain: seq<Txid>, c: ComposedNote)
    requires c.tx.outputs != []
  {
    if b.full then FullFits(b, chain, c) else IncrementalFits(b.utxos, chain, c)
  }

  /** The note was pending, with its txids to itself, when a full scan looked for orphans. */
  lemma ScannedNote(f: Followed, chain: seq<Txid>, last: ComposedNote, origin: NoteRecord,
                    notes: seq<NoteRecord>, b: Bundle)
    requires Chain(f, chain, last, origin) && ValidOp(f, Scan(notes, b)) && b.full
    ensures var w := f.store.(notes := ConfirmedNotes(notes, ConfirmedTxids(b)));
            && last.tx.txid in PendingTxids(w.notes)
            && forall t | t in OrphanTxids(FullyReconciled(w, b).notes) :: t !in chain
  {
    var w := f.store.(notes := ConfirmedNotes(notes, ConfirmedTxids(b)));
    var after := FullyReconciled(w, b).notes;
    var j := FindNote(after, f.id);
    assert w.notes[j] == after[j] && w.notes[j] in w.notes;
    assert last.tx.txid in w.notes[j].txids;
    OrphansApart(after, j, chain);
  }

  lemma {:induction false} OrphansApart(notes: seq<NoteRecord>, j: nat, chain: seq<Txid>)
    requires forall i, t | 0 <= i < |notes| && i != j && t in notes[i].txids :: t !in chain
    requires j < |notes| ==> !notes[j].status.Orphaned?
    ensures forall t | t in OrphanTxids(notes) :: t !in chain
  {
    if notes != [] {
      OrphansApart(notes[..|notes| - 1], j, chain);
    }
  }

  /** A scan that leaves the note pending keeps its one change coin exactly when it fits. */
  lemma ScanKeepsChangeIff(f: Followed, chain: seq<Txid>, last: ComposedNote, origin: NoteRecord,
                           notes: seq<NoteRecord>, b: Bundle)
    requires Chain(f, chain, last, origin) && ValidOp(f, Scan(notes, b))
    requires CoinsOfChain(f.store.coins, chain, last)
    ensures CoinsOfChain(AfterOp(f, Scan(notes, b)).store.coins, chain, last) <==> ScanFits(b, chain, last)
  {
    if b.full {
      ScannedNote(f, chain, last, origin, notes, b);
      FullScanChainIff(f.store.(notes := ConfirmedNotes(notes, ConfirmedTxids(b))), b, chain, last);
    } else {
      IncrementalScanChainIff(f.store.coins, b.utxos, chain, last);
    }
  }

  // ----- Runs -----

  lemma ChainStep(f: Followed, chain: seq<Txid>, last: ComposedNote, origin: NoteRecord, op: Op)
    requires Chain(f, chain, last, origin) && ValidOp(f, op)
    ensures if op.Bump? then Chain(AfterOp(f, op), chain + [op.c.tx.txid], op.c, origin)
            else Chain(AfterOp(f, op), chain, last, origin)
  {
    match op {
      case Bump(c) => ChainBumped(f, chain, last, origin, c);
      case BumpOther(id, c) => ChainOtherBumped(f, chain, last, origin, id, c);
      case Compose(c, changeTo) => ChainComposed(f, chain, last, origin, c, changeTo);
      case Spend(locks, rec, coin) => ChainSpent(f, chain, last, origin, locks, rec, coin);
      case BumpTx(_, _) =>
      case Scan(_, _) =>
    }
  }

  /** Whether the change coin is in place after a step, given whether it was before. */
  ghost predicate InPlace(op: Op, chain: seq<Txid>, c: ComposedNote, before: bool)
    requires c.tx.outputs != []
  {
    match op
    case Bump(_) => true
    case Scan(_, b) => before && ScanFits(b, chain, c)
    case _ => before
  }

  lemma ChangeStep(f: Followed, chain: seq<Txid>, last: ComposedNote, origin: NoteRecord, op: Op, before: bool)
    requires Chain(f, chain, last, origin) && ValidOp(f, op)
    requires before ==> CoinsOfChain(f.store.coins, chain, last)
    requires InPlace(op, chain, last, before)
    ensures CoinsOfChain(AfterOp(f, op).store.coins, if op.Bump? then chain + [op.c.tx.txid] else chain,
                         if op.Bump? then op.c else last)
  {
    match op {
      case Bump(c) => ChainBumped(f, chain, last, origin, c);
      case BumpOther(id, c) => ChainOtherBumped(f, chain, last, origin, id, c);
      case Compose(c, changeTo) => ChainComposed(f, chain, last, origin, c, changeTo);
      case Spend(locks, rec, coin) => ChainSpent(f, chain, last, origin, locks, rec, coin);
      case BumpTx(_, _) =>
      case Scan(notes, b) => ScanKeepsChangeIff(f, chain, last, origin, notes, b);
    }
  }

  /** Every scan since the last bump fits the chain it met. */
  ghost predicate ScansFit(f: Followed, ops: seq<Op>, chain: seq<Txid>, c: ComposedNote, before: bool)
    requires c.tx.outputs != [] && ValidOps(f, ops)
    decreases |ops|
  {
    if ops == [] then before
    else
      var op, next := ops[0], AfterOp(f, ops[0]);
      if op.Bump? then ScansFit(next, ops[1..], chain + [op.c.tx.txid], op.c, true)
      else ScansFit(next, ops[1..], chain, c, InPlace(op, chain, c, before))
  }

  predicate ScanFree(ops: seq<Op>) {
    forall i | 0 <= i < |ops| :: !ops[i].Scan?
  }

  lemma {:induction false} ScanFreeFits(f: Followed, ops: seq<Op>, chain: seq<Txid>, c: ComposedNote)
    requires c.tx.outputs != [] && ValidOps(f, ops) && ScanFree(ops)
    ensures ScansFit(f, ops, chain, c, true)
    decreases |ops|
  {
    if ops != [] {
      var op, next := ops[0], AfterOp(f, ops[0]);
      if op.Bump? {
        ScanFreeFits(next, ops[1..], chain + [op.c.tx.txid], op.c);
      } else {
        ScanFreeFits(next, ops[1..], chain, c);
      }
    }
  }

  lemma {:induction false} ChainRun(f: Followed, chain: seq<Txid>, last: ComposedNote, origin: NoteRecord, ops: seq<Op>)
    requires Chain(f, chain, last, origin) && ValidOps(f, ops)
    ensures Chain(AfterOps(f, ops), ChainAfter(chain, ops), LastBump(last, ops), origin)
    decreases |ops|
  {
    if ops != [] {
      ChainStep(f, chain, last, origin, ops[0]);
      if ops[0].Bump? {
        ChainRun(AfterOp(f, ops[0]), chain + [ops[0].c.tx.txid], ops[0].c, origin, ops[1..]);
      } else {
        ChainRun(AfterOp(f, ops[0]), chain, last, origin, ops[1..]);
      }
    }
  }

  lemma {:induction false} ChangeRun(f: Followed, chain: seq<Txid>, last: ComposedNote, origin: NoteRecord,
                                     ops: seq<Op>, before: bool)
    requires Chain(f, chain, last, origin) && ValidOps(f, ops)
    requires before ==> CoinsOfChain(f.store.coins, chain, last)
    requires ScansFit(f, ops, chain, last, before)
    ensures LastBump(last, ops).tx.outputs != []
    ensures CoinsOfChain(AfterOps(f, ops).store.coins, ChainAfter(chain, ops), LastBump(last, ops))
    decreases |ops|
  {
    if ops != [] {
      var op := ops[0];
      ChainStep(f, chain, last, origin, op);
      if InPlace(op, chain, last, before) {
        ChangeStep(f, chain, last, origin, op, before);
      }
      if op.Bump? {
        ChangeRun(AfterOp(f, op), chain + [op.c.tx.txid], op.c, origin, ops[1..], true);
      } else {
        ChangeRun(AfterOp(f, op), chain, last, origin, ops[1..], InPlace(op, chain, last, before));
      }
    }
  }

  // ----- The inputs -----

  /** The step bumps another note whose chain made the output `x`: that output is superseded. */
  ghost predicate Supersedes(v: StoreView, op: Op, x: OutPoint) {
    && op.BumpOther?
    && var j := FindNote(v.notes, op.id);
       j < |v.notes| && x.txid in v.notes[j].txids
  }

  ghost predicate Superseded(f: Followed, ops: seq<Op>, x: OutPoint)
    requires ValidOps(f, ops)
    decreases |ops|
  {
    ops != [] && (Supersedes(f.store, ops[0], x) || Superseded(AfterOp(f, ops[0]), ops[1..], x))
  }

  lemma WithCoinAt(coins: seq<Coin>, c: Option<Coin>, x: OutPoint)
    requires c.Some? ==> c.value.txid != x.txid
    ensures CoinAt(WithCoin(coins, c), x) == CoinAt(coins, x)
  {
    if c.Some? {
      AppendedCoin(coins, c.value, x);
    }
  }

  function WhenLocked(c: Option<Coin>): Option<Coin> {
    match c case None => None case Some(coin) => Some(coin.(pendingSpend := true))
  }

  /** A recording takes an input of the note when it supersedes the transaction that made it, and
      otherwise neither moves, unlocks nor revalues it. */
  lemma InputStep(f: Followed, chain: seq<Txid>, last: ComposedNote, origin: NoteRecord, op: Op, x: OutPoint)
    requires Chain(f, chain, last, origin) && ValidOp(f, op) && !op.Scan? && x in origin.spent
    ensures var before, after := CoinAt(f.store.coins, x), CoinAt(AfterOp(f, op).store.coins, x);
            if Supersedes(f.store, op, x) then after == None else after == before || after == WhenLocked(before)
  {
    var v := f.store;
    assert v.notes[FindNote(v.notes, f.id)] in v.notes;
    match op {
      case Bump(c) =>
        WithoutCoin(v.coins, chain, x);
        WithCoinAt(CoinsWithout(v.coins, chain), ChangeCoin(c), x);
      case BumpOther(id, c) => InputOtherBumped(v, id, c, x);
      case Compose(c, _) =>
        LockedCoin(v.coins, c.tx.spent, x);
        WithCoinAt(Locked(v.coins, c.tx.spent), ChangeCoin(c), x);
      case Spend(locks, _, coin) =>
        LockedCoin(v.coins, locks, x);
        WithCoinAt(Locked(v.coins, locks), coin, x);
      case BumpTx(_, _) =>
    }
  }

  lemma InputOtherBumped(v: StoreView, id: Txid, c: ComposedNote, x: OutPoint)
    requires c.tx.outputs != [] && x.txid != c.tx.txid
    ensures CoinAt(Bumped(v, id, c).0.coins, x) ==
            if Supersedes(v, BumpOther(id, c), x) then None else CoinAt(v.coins, x)
  {
    var j := FindNote(v.notes, id);
    if j < |v.notes| {
      var txids := v.notes[j].txids;
      WithCoinAt(CoinsWithout(v.coins, txids), ChangeCoin(c), x);
      DroppedAt(v.coins, txids, x);
    }
  }

  lemma {:induction false} InputRun(f: Followed, chain: seq<Txid>, last: ComposedNote, origin: NoteRecord,
                                  ops: seq<Op>, x: OutPoint)
    requires Chain(f, chain, last, origin) && ValidOps(f, ops) && ScanFree(ops)
    requires x in origin.spent && CoinAt(f.store.coins, x) == WhenLocked(CoinAt(f.store.coins, x))
    ensures CoinAt(AfterOps(f, ops).store.coins, x) == if Superseded(f, ops, x) then None else CoinAt(f.store.coins, x)
    decreases |ops|
  {
    if ops != [] {
      ChainStep(f, chain, last, origin, ops[0]);
      InputStep(f, chain, last, origin, ops[0], x);
      if ops[0].Bump? {
        InputRun(AfterOp(f, ops[0]), chain + [ops[0].c.tx.txid], ops[0].c, origin, ops[1..], x);
      } else {
        InputRun(AfterOp(f, ops[0]), chain, last, origin, ops[1..], x);
      }
    }
  }

  // ----- The inputs over scans -----

  /** What has become of an input: it is out of the ledger, or there as composing locked it, or a
      scan has brought it back, with the lock forgotten. */
  datatype Fate = Away | Kept | Back

  /** A scan brings back what it lists. A full scan keeps only what it lists and what it carries
      over, and drops the outputs of orphans. */
  ghost function ScanFate(v: StoreView, b: Bundle, x: OutPoint, s: Fate): Fate {
    if !b.full then if s.Away? && Lists(b, x) then Back else s
    else if DropsOrphans(v, b, x) then Away
    else if Lists(b, x) then if s.Kept? then Kept else Back
    else if x.txid in PendingTxids(v.notes) && x.txid !in KnownTxids(b) then s
    else Away
  }

  ghost function StepFate(v: StoreView, op: Op, x: OutPoint, s: Fate): Fate {
    match op
    case Scan(notes, b) => ScanFate(v.(notes := ConfirmedNotes(notes, ConfirmedTxids(b))), b, x, s)
    case _ => if Supersedes(v, op, x) then Away else s
  }

  /** The fate of `x` at the end of a run. */
  ghost function FateAfter(f: Followed, ops: seq<Op>, x: OutPoint, s: Fate): Fate
    requires ValidOps(f, ops)
    decreases |ops|
  {
    if ops == [] then s else FateAfter(AfterOp(f, ops[0]), ops[1..], x, StepFate(f.store, ops[0], x, s))
  }

  /** The ledger shows that fate. */
  ghost predicate Shows(coins: seq<Coin>, x: OutPoint, s: Fate) {
    && (CoinAt(coins, x).Some? <==> !s.Away?)
    && (s.Kept? ==> CoinAt(coins, x).value.pendingSpend)
  }

  lemma ScanStep(v: StoreView, b: Bundle, x: OutPoint, s: Fate)
    requires Shows(v.coins, x, s)
    ensures Shows(if b.full then FullyReconciled(v, b).coins else MergedCoins(v.coins, b.utxos), x,
                  ScanFate(v, b, x, s))
  {
    if b.full {
      FullScanAt(v, b, x);
      assert s.Kept? ==> LockedSomewhere(v.coins, x) by {
        if s.Kept? {
          assert v.coins[FindCoin(v.coins, x)] in v.coins;
        }
      }
    } else {
      IncrementalScanAt(v.coins, b.utxos, x);
    }
  }

  lemma FateStep(f: Followed, chain: seq<Txid>, last: ComposedNote, origin: NoteRecord, op: Op, x: OutPoint, s: Fate)
    requires Chain(f, chain, last, origin) && ValidOp(f, op) && x in origin.spent && Shows(f.store.coins, x, s)
    ensures Shows(AfterOp(f, op).store.coins, x, StepFate(f.store, op, x, s))
  {
    if op.Scan? {
      ScanStep(f.store.(notes := ConfirmedNotes(op.notes, ConfirmedTxids(op.b))), op.b, x, s);
    } else {
      InputStep(f, chain, last, origin, op, x);
    }
  }

  lemma {:induction false} FateRun(f: Followed, chain: seq<Txid>, last: ComposedNote, origin: NoteRecord,
                                   ops: seq<Op>, x: OutPoint, s: Fate)
    requires Chain(f, chain, last, origin) && ValidOps(f, ops) && x in origin.spent && Shows(f.store.coins, x, s)
    ensures Shows(AfterOps(f, ops).store.coins, x, FateAfter(f, ops, x, s))
    decreases |ops|
  {
    if ops != [] {
      ChainStep(f, chain, last, origin, ops[0]);
      FateStep(f, chain, last, origin, ops[0], x, s);
      if ops[0].Bump? {
        FateRun(AfterOp(f, ops[0]), chain + [ops[0].c.tx.txid], ops[0].c, origin, ops[1..], x,
                StepFate(f.store, ops[0], x, s));
      } else {
        FateRun(AfterOp(f, ops[0]), chain, last, origin, ops[1..], x, StepFate(f.store, ops[0], x, s));
      }
    }
  }

  // ----- The law -----

  /** Composing locks an input that the ledger has. */
  function FirstFate(v: StoreView, x: OutPoint): Fate {
    if CoinAt(v.coins, x).Some? then Kept else Away
  }

  /** The followed note is a chain from composing to the end of the run. */
  lemma ChainLasts(v: StoreView, c: ComposedNote, changeTo: Option<string>, ops: seq<Op>)
    requires c.tx.outputs != [] && Fresh(v, c.tx.txid) && forall op | op in c.tx.spent :: op.txid != c.tx.txid
    requires ValidOps(Followed(Composed(v, c, changeTo), c.tx.txid), ops)
    ensures var start := Followed(Composed(v, c, changeTo), c.tx.txid);
            var end, chain, last := AfterOps(start, ops), ChainAfter([c.tx.txid], ops), LastBump(c, ops);
            && Chain(end, chain, last, NoteOf(c, changeTo))
            && (ScansFit(start, ops, [c.tx.txid], c, true) ==> CoinsOfChain(end.store.coins, chain, last))
  {
    var start := Followed(Composed(v, c, changeTo), c.tx.txid);
    ChainStarts(v, c, changeTo);
    ChainRun(start, [c.tx.txid], c, NoteOf(c, changeTo), ops);
    if ScansFit(start, ops, [c.tx.txid], c, true) {
      ChangeRun(start, [c.tx.txid], c, NoteOf(c, changeTo), ops, true);
    }
  }

  lemma InputLasts(v: StoreView, c: ComposedNote, changeTo: Option<string>, ops: seq<Op>, x: OutPoint)
    requires c.tx.outputs != [] && Fresh(v, c.tx.txid) && forall op | op in c.tx.spent :: op.txid != c.tx.txid
    requires ValidOps(Followed(Composed(v, c, changeTo), c.tx.txid), ops) && x in c.tx.spent
    ensures var start := Followed(Composed(v, c, changeTo), c.tx.txid);
            var end := AfterOps(start, ops).store.coins;
            && Shows(end, x, FateAfter(start, ops, x, FirstFate(v, x)))
            && (ScanFree(ops) ==>
                  CoinAt(end, x) == if Superseded(start, ops, x) then None else WhenLocked(CoinAt(v.coins, x)))
  {
    var start := Followed(Composed(v, c, changeTo), c.tx.txid);
    ChainStarts(v, c, changeTo);
    InputComposed(v, c, changeTo, x);
    FateRun(start, [c.tx.txid], c, NoteOf(c, changeTo), ops, x, FirstFate(v, x));
    if ScanFree(ops) {
      InputRun(start, [c.tx.txid], c, NoteOf(c, changeTo), ops, x);
    }
  }

  /**
   The chain law. After composing a note and any run of its fee bumps, between which other
   notes are composed and bumped, other transactions recorded and bumped and scans applied that
   leave the note pending, every recorded txid being new: the note's id is its last txid and
   its txids are the composed one and every replacement in order; it carries the last
   replacement's fee, size and bytes and is otherwise as composed. If every scan since the last
   bump fits, which is trivially so without scans, no coin of a superseded txid is left, and
   there is one change coin exactly when the last replacement returns change to the notebook,
   with that change's value.

   Each input has the fate that bumps of other notes and scans left it; without scans it is
   locked as composing left it unless another note whose chain made it has been bumped since,
   and then it is gone.
   */
  lemma BumpChainLaw(v: StoreView, c: ComposedNote, changeTo: Option<string>, ops: seq<Op>)
    requires c.tx.outputs != [] && Fresh(v, c.tx.txid) && forall op | op in c.tx.spent :: op.txid != c.tx.txid
    requires ValidOps(Followed(Composed(v, c, changeTo), c.tx.txid), ops)
    ensures var start := Followed(Composed(v, c, changeTo), c.tx.txid);
            var end := AfterOps(start, ops);
            var chain := ChainAfter([c.tx.txid], ops);
            var last := LastBump(c, ops);
            var i := FindNote(end.store.notes, end.id);
            && end.id == last.tx.txid == chain[|chain| - 1]
            && i < |end.store.notes| && end.store.notes[i] == Renewed(NoteOf(c, changeTo), chain, last)
            && last.tx.outputs != []
            && (ScansFit(start, ops, [c.tx.txid], c, true) ==> CoinsOfChain(end.store.coins, chain, last))
            && (ScanFree(ops) ==> ScansFit(start, ops, [c.tx.txid], c, true))
            && (forall x | x in c.tx.spent ::
                  Shows(end.store.coins, x, FateAfter(start, ops, x, FirstFate(v, x))))
            && (ScanFree(ops) ==>
                  forall x | x in c.tx.spent ::
                    CoinAt(end.store.coins, x) ==
                    if Superseded(start, ops, x) then None else WhenLocked(CoinAt(v.coins, x)))
  {
    var start := Followed(Composed(v, c, changeTo), c.tx.txid);
    ChainLasts(v, c, changeTo, ops);
    if ScanFree(ops) {
      ScanFreeFits(start, ops, [c.tx.txid], c);
    }
    forall x | x in c.tx.spent
      ensures Shows(AfterOps(start, ops).store.coins, x, FateAfter(start, ops, x, FirstFate(v, x)))
      ensures ScanFree(ops) ==>
                CoinAt(AfterOps(start, ops).store.coins, x) ==
                if Superseded(start, ops, x) then None else WhenLocked(CoinAt(v.coins, x))
    {
      InputLasts(v, c, changeTo, ops, x);
    }
  }

  lemma InputComposed(v: StoreView, c: ComposedNote, changeTo: Option<string>, x: OutPoint)
    requires c.tx.outputs != [] && x in c.tx.spent && x.txid != c.tx.txid
    ensures CoinAt(Composed(v, c, changeTo).coins, x) == WhenLocked(CoinAt(v.coins, x))
  {
    LockedCoin(v.coins, c.tx.spent, x);
    WithCoinAt(Locked(v.coins, c.tx.spent), ChangeCoin(c), x);
  }

  // ----- Bumping a parent -----

  /** What `bump_fee_build` asks of the ledger: every input of the note is still there. */
  ghost predicate InputsInLedger(v: StoreView, id: Txid) {
    && var i := FindNote(v.notes, id);
       i < |v.notes| && forall x | x in v.notes[i].spent :: CoinAt(v.coins, x).Some?
  }

  /** A note can be bumped again after a run exactly when no input's fate is to be away: without
      scans, when all were there at composing and no other bump has superseded one. */
  lemma BumpableIff(v: StoreView, c: ComposedNote, changeTo: Option<string>, ops: seq<Op>)
    requires c.tx.outputs != [] && Fresh(v, c.tx.txid) && forall op | op in c.tx.spent :: op.txid != c.tx.txid
    requires ValidOps(Followed(Composed(v, c, changeTo), c.tx.txid), ops)
    ensures var start := Followed(Composed(v, c, changeTo), c.tx.txid);
            var end := AfterOps(start, ops);
            && (InputsInLedger(end.store, end.id) <==>
                forall x | x in c.tx.spent :: !FateAfter(start, ops, x, FirstFate(v, x)).Away?)
            && (ScanFree(ops) ==>
                  (InputsInLedger(end.store, end.id) <==>
                   forall x | x in c.tx.spent :: CoinAt(v.coins, x).Some? && !Superseded(start, ops, x)))
  {
    BumpChainLaw(v, c, changeTo, ops);
  }

  /** A scan that sees the note in the mempool, and recovers nothing new, leaves it pending. */
  lemma SeenInMempool(v: StoreView, c: ComposedNote, changeTo: Option<string>, b: Bundle)
    requires c.tx.outputs != [] && Fresh(v, c.tx.txid)
    requires c.tx.txid in KnownTxids(b) && c.tx.txid !in ConfirmedTxids(b)
    ensures var start := Followed(Composed(v, c, changeTo), c.tx.txid);
            ValidOp(start, Scan(start.store.notes, b))
  {
    var notes, k := Composed(v, c, changeTo).notes, |v.notes|;
    var after := Scanned(Composed(v, c, changeTo), notes, b).notes;
    assert notes == v.notes + [NoteOf(c, changeTo)];
    assert forall j | 0 <= j < k :: notes[j] == v.notes[j] && v.notes[j] in v.notes;
    ScanKeepsIds(Composed(v, c, changeTo), notes, b);
    assert c.tx.txid in notes[k].txids;
    SeenStays(Composed(v, c, changeTo), notes, k, b);
    OnlyNote(notes, after, k, c.tx.txid);
  }

  /** A scan changes no note's id and txids. */
  lemma ScanKeepsIds(v: StoreView, notes: seq<NoteRecord>, b: Bundle)
    ensures var after := Scanned(v, notes, b).notes;
            && |after| == |notes|
            && forall j | 0 <= j < |notes| :: after[j].noteId == notes[j].noteId && after[j].txids == notes[j].txids
  {
  }

  /** A note the chain has seen, in no block, is no orphan and stays as it is. */
  lemma SeenStays(v: StoreView, notes: seq<NoteRecord>, k: nat, b: Bundle)
    requires k < |notes| && Hit(notes[k].txids, KnownTxids(b)) && !Hit(notes[k].txids, ConfirmedTxids(b))
    requires forall j | 0 <= j < |notes| && j != k :: notes[j].noteId != notes[k].noteId
    ensures Scanned(v, notes, b).notes[k] == notes[k]
  {
    var confirmed := ConfirmedNotes(notes, ConfirmedTxids(b));
    var w := v.(notes := confirmed);
    assert confirmed[k] == notes[k];
    assert notes[k].noteId !in OrphanIds(confirmed, NextCoins(w, b), KnownTxids(b));
  }

  lemma OnlyNote(before: seq<NoteRecord>, after: seq<NoteRecord>, k: nat, id: Txid)
    requires k < |before| == |after| && before[k] == after[k] && before[k].noteId == id && before[k].txids == [id]
    requires forall j | 0 <= j < |after| :: after[j].noteId == before[j].noteId && after[j].txids == before[j].txids
    requires forall j | 0 <= j < |before| && j != k :: before[j].noteId != id && id !in before[j].txids
    ensures FindNote(before, id) == k == FindNote(after, id) && OthersApart(after, id, after[k].txids)
  {
  }

  /** A full scan whose source has dropped an input, as one that drops what the mempool spends
      does once the note is broadcast, takes it out of the ledger, and the note cannot be bumped
      until a scan lists the input again. */
  lemma FullScanDropsInput(v: StoreView, c: ComposedNote, changeTo: Option<string>, notes: seq<NoteRecord>,
                           b: Bundle, x: OutPoint)
    requires c.tx.outputs != [] && Fresh(v, c.tx.txid) && forall op | op in c.tx.spent :: op.txid != c.tx.txid
    requires ValidOp(Followed(Composed(v, c, changeTo), c.tx.txid), Scan(notes, b)) && b.full
    requires x in c.tx.spent && !Lists(b, x)
    requires x.txid in KnownTxids(b) || x.txid !in PendingTxids(ConfirmedNotes(notes, ConfirmedTxids(b)))
    ensures var after := Scanned(Composed(v, c, changeTo), notes, b);
            CoinAt(after.coins, x) == None && !InputsInLedger(after, c.tx.txid)
  {
    var start := Followed(Composed(v, c, changeTo), c.tx.txid);
    ChainStarts(v, c, changeTo);
    InputComposed(v, c, changeTo, x);
    FateStep(start, [c.tx.txid], c, NoteOf(c, changeTo), Scan(notes, b), x, FirstFate(v, x));
    ChainStep(start, [c.tx.txid], c, NoteOf(c, changeTo), Scan(notes, b));
  }

  /** Change may be spent before it confirms. Whenever a note `b` spends the change of a pending
      note `a`, bumping `a` takes `b`'s locked input out of the ledger, and `b` cannot be bumped. */
  lemma ParentBumpDropsInput(v: StoreView, a: ComposedNote, b: ComposedNote, a': ComposedNote)
    requires a.tx.outputs != [] && Fresh(v, a.tx.txid)
    requires ChangeCoin(a).Some? && At(ChangeCoin(a).value) in b.tx.spent
    requires b.tx.outputs != [] && Fresh(Composed(v, a, None), b.tx.txid)
    requires forall op | op in b.tx.spent :: op.txid != b.tx.txid
    requires ValidOp(Followed(Composed(Composed(v, a, None), b, None), b.tx.txid), BumpOther(a.tx.txid, a'))
    ensures var x := At(ChangeCoin(a).value);
            var before := Composed(Composed(v, a, None), b, None);
            var after := Bumped(before, a.tx.txid, a').0;
            && CoinAt(before.coins, x) == Some(ChangeCoin(a).value.(pendingSpend := true))
            && CoinAt(after.coins, x) == None
            && !InputsInLedger(after, b.tx.txid)
  {
    var v1 := Composed(v, a, None);
    var x := At(ChangeCoin(a).value);
    var start, ops := Followed(Composed(v1, b, None), b.tx.txid), [BumpOther(a.tx.txid, a')];
    ParentChange(v, a);
    ParentFound(v, a, b);
    InputComposed(v1, b, None, x);
    assert ops[1..] == [];
    assert ValidOps(start, ops);
    assert Superseded(start, ops, x);
    BumpChainLaw(v1, b, None, ops);
    BumpableIff(v1, b, None, ops);
  }

  lemma ParentChange(v: StoreView, a: ComposedNote)
    requires a.tx.outputs != [] && Fresh(v, a.tx.txid) && ChangeCoin(a).Some?
    ensures CoinAt(Composed(v, a, None).coins, At(ChangeCoin(a).value)) == Some(ChangeCoin(a).value)
  {
    var x, locked := At(ChangeCoin(a).value), Locked(v.coins, a.tx.spent);
    LockedApart(v.coins, a.tx.spent, [a.tx.txid]);
    AppendedCoin(locked, ChangeCoin(a).value, x);
    assert forall i | 0 <= i < |locked| :: locked[i] in locked;
  }

  lemma ParentFound(v: StoreView, a: ComposedNote, b: ComposedNote)
    requires a.tx.outputs != [] && b.tx.outputs != [] && Fresh(v, a.tx.txid)
    ensures var notes := Composed(Composed(v, a, None), b, None).notes;
            var j := FindNote(notes, a.tx.txid);
            j < |notes| && a.tx.txid in notes[j].txids
  {
    var notes := Composed(Composed(v, a, None), b, None).notes;
    assert forall j | 0 <= j < |v.notes| :: notes[j] == v.notes[j] && v.notes[j] in v.notes;
    assert notes[|v.notes|] == NoteOf(a, None);
  }
}
