/**
 Speeding up a sweep or consolidate (`app-core/src/compose.rs`): the record's inputs are
 re-signed, each by its owner's key, to the record's own destination.
 */
module BumpSources {
  import opened Options
  import opened Hex
  import opened Ledger
  import opened Pairs

  datatype Utxo = Utxo(txid: seq<Byte>, vout: nat, value: nat)

  datatype Group = Group(owner: nat, coins: seq<Utxo>)

  datatype Identity = Identity(outputX: string, tweakedKey: string)

  /** What the transaction builder signs: an owner's coins and that owner's keys. */
  datatype Source = Source(coins: seq<Utxo>, signer: Identity)

  datatype BumpError = NotPending | NoOwners | BadTxid | BadDestSpk | NoKey(owner: nat)

  predicate Readable(inputs: seq<TxInput>) {
    forall i | 0 <= i < |inputs| :: TxidBytes(inputs[i].txid).Some?
  }

  function Coins(inputs: seq<TxInput>): (r: seq<Utxo>)
    requires Readable(inputs)
    ensures |r| == |inputs|
  {
    seq(|inputs|, i requires 0 <= i < |inputs| =>
      Utxo(TxidBytes(inputs[i].txid).value, inputs[i].vout, inputs[i].value))
  }

  /** Rev 3 records list notebook indexes, legacy ones list accounts. */
  function Owners(r: TxRecord): seq<nat> {
    if r.inputIndexes != [] then r.inputIndexes else r.inputAccounts
  }

  // ----- The specification: who owns what, in which order -----

  /** The inputs of one owner, in the record's order. */
  function OwnedBy(inputs: seq<TxInput>, owners: seq<nat>, o: nat): seq<TxInput>
    requires |inputs| == |owners|
  {
    if inputs == [] then []
    else
      var n := |inputs| - 1;
      OwnedBy(inputs[..n], owners[..n], o) + (if owners[n] == o then [inputs[n]] else [])
  }

  /** The distinct owners, each where it first appears. */
  function FirstSeen(owners: seq<nat>): seq<nat> {
    if owners == [] then []
    else
      var n := |owners| - 1;
      var seen := FirstSeen(owners[..n]);
      if owners[n] in seen then seen else seen + [owners[n]]
  }

  lemma {:induction false} SeenOnce(owners: seq<nat>)
    ensures forall o :: o in FirstSeen(owners) <==> o in owners
    ensures forall j, k | 0 <= j < k < |FirstSeen(owners)| :: FirstSeen(owners)[j] != FirstSeen(owners)[k]
  {
    if owners != [] {
      var n := |owners| - 1;
      SeenOnce(owners[..n]);
      assert owners == owners[..n] + [owners[n]];
    }
  }

  lemma {:induction false} OwnedReadable(inputs: seq<TxInput>, owners: seq<nat>, o: nat)
    requires |inputs| == |owners| && Readable(inputs)
    ensures Readable(OwnedBy(inputs, owners, o))
  {
    if inputs != [] {
      var n := |inputs| - 1;
      assert forall i | 0 <= i < n :: inputs[..n][i] == inputs[i];
      OwnedReadable(inputs[..n], owners[..n], o);
    }
  }

  ghost predicate GroupsOf(groups: seq<Group>, inputs: seq<TxInput>, owners: seq<nat>) {
    && |inputs| == |owners| && Readable(inputs)
    && |groups| == |FirstSeen(owners)|
    && forall g | 0 <= g < |groups| ::
         && groups[g].owner == FirstSeen(owners)[g]
         && var mine := OwnedBy(inputs, owners, groups[g].owner);
            Readable(mine) && groups[g].coins == Coins(mine)
  }

  function FindGroup(groups: seq<Group>, o: nat): (i: nat)
    ensures i <= |groups|
    ensures i < |groups| ==> groups[i].owner == o
    ensures forall j | 0 <= j < i :: groups[j].owner != o
  {
    if groups == [] || groups[0].owner == o then 0 else 1 + FindGroup(groups[1..], o)
  }

  lemma OwnedNone(inputs: seq<TxInput>, owners: seq<nat>, o: nat)
    requires |inputs| == |owners| && o !in owners
    ensures OwnedBy(inputs, owners, o) == []
  {
  }

  lemma OwnedStep(inputs: seq<TxInput>, owners: seq<nat>, n: nat, u: Utxo, o: nat)
    requires |inputs| == |owners| && n < |inputs| && Readable(inputs[..n])
    requires TxidBytes(inputs[n].txid) == Some(u.txid) && u.vout == inputs[n].vout && u.value == inputs[n].value
    ensures Readable(inputs[..n + 1])
    ensures var before, mine := OwnedBy(inputs[..n], owners[..n], o), OwnedBy(inputs[..n + 1], owners[..n + 1], o);
            && Readable(before) && Readable(mine)
            && Coins(mine) == Coins(before) + (if owners[n] == o then [u] else [])
  {
    var ins, ows := inputs[..n + 1], owners[..n + 1];
    assert ins[..n] == inputs[..n] && ows[..n] == owners[..n];
    assert forall i | 0 <= i < n :: inputs[..n][i] == ins[i];
    OwnedReadable(ins, ows, o);
    OwnedReadable(inputs[..n], owners[..n], o);
  }

  lemma SeenStep(owners: seq<nat>, n: nat)
    requires n < |owners|
    ensures var seen := FirstSeen(owners[..n]);
            FirstSeen(owners[..n + 1]) == if owners[n] in seen then seen else seen + [owners[n]]
  {
    assert owners[..n + 1][..n] == owners[..n];
  }

  lemma GroupGrown(groups: seq<Group>, inputs: seq<TxInput>, owners: seq<nat>, n: nat, u: Utxo, i: nat)
    requires |inputs| == |owners| && n < |inputs| && GroupsOf(groups, inputs[..n], owners[..n])
    requires TxidBytes(inputs[n].txid) == Some(u.txid) && u.vout == inputs[n].vout && u.value == inputs[n].value
    requires i < |groups| && groups[i].owner == owners[n]
    ensures GroupsOf(groups[i := groups[i].(coins := groups[i].coins + [u])], inputs[..n + 1], owners[..n + 1])
  {
    var ins, ows := inputs[..n + 1], owners[..n + 1];
    var after := groups[i := groups[i].(coins := groups[i].coins + [u])];
    SeenStep(owners, n);
    SeenOnce(owners[..n]);
    assert FirstSeen(owners[..n])[i] == owners[n];
    OwnedStep(inputs, owners, n, u, owners[n]);
    forall g | 0 <= g < |after|
      ensures after[g].owner == FirstSeen(ows)[g]
      ensures var mine := OwnedBy(ins, ows, after[g].owner); Readable(mine) && after[g].coins == Coins(mine)
    {
      OwnedStep(inputs, owners, n, u, groups[g].owner);
    }
  }

  lemma GroupAdded(groups: seq<Group>, inputs: seq<TxInput>, owners: seq<nat>, n: nat, u: Utxo)
    requires |inputs| == |owners| && n < |inputs| && GroupsOf(groups, inputs[..n], owners[..n])
    requires TxidBytes(inputs[n].txid) == Some(u.txid) && u.vout == inputs[n].vout && u.value == inputs[n].value
    requires forall g | 0 <= g < |groups| :: groups[g].owner != owners[n]
    ensures GroupsOf(groups + [Group(owners[n], [u])], inputs[..n + 1], owners[..n + 1])
  {
    var ins, ows, o := inputs[..n + 1], owners[..n + 1], owners[n];
    var after := groups + [Group(o, [u])];
    var seen := FirstSeen(owners[..n]);
    SeenStep(owners, n);
    SeenOnce(owners[..n]);
    assert o !in seen by {
      assert forall g | 0 <= g < |seen| :: groups[g].owner == seen[g];
    }
    OwnedNone(inputs[..n], owners[..n], o);
    OwnedStep(inputs, owners, n, u, o);
    forall g | 0 <= g < |after|
      ensures after[g].owner == FirstSeen(ows)[g]
      ensures var mine := OwnedBy(ins, ows, after[g].owner); Readable(mine) && after[g].coins == Coins(mine)
    {
      if g < |groups| {
        OwnedStep(inputs, owners, n, u, groups[g].owner);
      }
    }
  }

  ghost predicate HasKey(identities: seq<(nat, Identity)>, o: nat) {
    FindKey(identities, o) < |identities|
  }

  // ----- The builders -----

  /** `bump_raw_tx_build`: one key signs all. */
  function BumpInputs(txs: seq<TxRecord>, txid: Txid): Result<(seq<Utxo>, seq<Byte>), BumpError> {
    var i := FindPendingTx(txs, txid);
    if i == |txs| then Err(NotPending)
    else if !Readable(txs[i].inputs) then Err(BadTxid)
    else
      match Decode(txs[i].destSpkHex)
      case None => Err(BadDestSpk)
      case Some(spk) => Ok((Coins(txs[i].inputs), spk))
  }

  /** The grouping loop: it stops at the first input it cannot read. */
  method GroupInputs(inputs: seq<TxInput>, owners: seq<nat>) returns (r: Option<seq<Group>>)
    requires |inputs| == |owners|
    ensures r.Some? <==> Readable(inputs)
    ensures r.Some? ==> GroupsOf(r.value, inputs, owners)
  {
    var groups: seq<Group> := [];
    for n := 0 to |inputs|
      invariant GroupsOf(groups, inputs[..n], owners[..n])
    {
      var t := TxidBytes(inputs[n].txid);
      if t.None? {
        return None;
      }
      var u := Utxo(t.value, inputs[n].vout, inputs[n].value);
      var i := FindGroup(groups, owners[n]);
      if i < |groups| {
        GroupGrown(groups, inputs, owners, n, u, i);
        groups := groups[i := groups[i].(coins := groups[i].coins + [u])];
      } else {
        GroupAdded(groups, inputs, owners, n, u);
        groups := groups + [Group(owners[n], [u])];
      }
    }
    assert inputs[..|inputs|] == inputs && owners[..|inputs|] == owners;
    return Some(groups);
  }

  /** A group is signed by the first identity that carries its owner's number. */
  ghost predicate SignedBy(s: Source, identities: seq<(nat, Identity)>, g: Group) {
    HasKey(identities, g.owner) && s == Source(g.coins, identities[FindKey(identities, g.owner)].1)
  }

  ghost predicate SourcesOf(sources: seq<Source>, identities: seq<(nat, Identity)>,
                            inputs: seq<TxInput>, owners: seq<nat>) {
    exists groups: seq<Group> ::
      && GroupsOf(groups, inputs, owners) && |sources| == |groups|
      && forall g | 0 <= g < |groups| :: SignedBy(sources[g], identities, groups[g])
  }

  method AssignKeys(groups: seq<Group>, identities: seq<(nat, Identity)>) returns (r: Result<seq<Source>, nat>)
    ensures r.Ok? <==> forall g | 0 <= g < |groups| :: HasKey(identities, groups[g].owner)
    ensures r.Ok? ==> |r.value| == |groups| &&
                       forall g | 0 <= g < |groups| :: SignedBy(r.value[g], identities, groups[g])
    ensures r.Err? ==> exists g | 0 <= g < |groups| ::
              && groups[g].owner == r.error && !HasKey(identities, groups[g].owner)
              && forall j | 0 <= j < g :: HasKey(identities, groups[j].owner)
  {
    var sources: seq<Source> := [];
    for n := 0 to |groups|
      invariant |sources| == n
      invariant forall g | 0 <= g < n :: SignedBy(sources[g], identities, groups[g])
    {
      var k := FindKey(identities, groups[n].owner);
      if k == |identities| {
        return Err(groups[n].owner);
      }
      sources := sources + [Source(groups[n].coins, identities[k].1)];
    }
    return Ok(sources);
  }

  /** The owner whose missing key is reported: every owner seen before it has one. */
  ghost predicate FirstWithoutKey(identities: seq<(nat, Identity)>, owners: seq<nat>, o: nat) {
    exists g | 0 <= g < |FirstSeen(owners)| ::
      && FirstSeen(owners)[g] == o && !HasKey(identities, o)
      && forall j | 0 <= j < g :: HasKey(identities, FirstSeen(owners)[j])
  }

  /**
   `bump_raw_tx_multi_build` up to the transaction builder. It succeeds exactly when a pending
   record knows the txid, lists one owner per input, can be read back, and every owner has a
   key; the sources are then the owners' groups under their own keys. Otherwise it reports the
   first of these that fails.
   */
  method BumpRawTxMultiBuild(store: Store, identities: seq<(nat, Identity)>, txid: Txid)
    returns (r: Result<(seq<Source>, seq<Byte>), BumpError>)
    ensures var i := FindPendingTx(store.txs, txid);
            if i == |store.txs| then r == Err(NotPending)
            else
              var rec := store.txs[i];
              var owners := Owners(rec);
              if |owners| != |rec.inputs| then r == Err(NoOwners)
              else if !Readable(rec.inputs) then r == Err(BadTxid)
              else if Decode(rec.destSpkHex).None? then r == Err(BadDestSpk)
              else if forall o | o in owners :: HasKey(identities, o) then
                r.Ok? && r.value.1 == Decode(rec.destSpkHex).value &&
                SourcesOf(r.value.0, identities, rec.inputs, owners)
              else r.Err? && r.error.NoKey? && FirstWithoutKey(identities, owners, r.error.owner)
  {
    var i := FindPendingTx(store.txs, txid);
    if i == |store.txs| {
      return Err(NotPending);
    }
    var rec := store.txs[i];
    var owners := Owners(rec);
    if |owners| != |rec.inputs| {
      return Err(NoOwners);
    }
    var groups := GroupInputs(rec.inputs, owners);
    if groups.None? {
      return Err(BadTxid);
    }
    var spk := Decode(rec.destSpkHex);
    if spk.None? {
      return Err(BadDestSpk);
    }
    var sources := AssignKeys(groups.value, identities);
    KeysOfOwners(groups.value, rec.inputs, owners, identities);
    if sources.Err? {
      ghost var g :| 0 <= g < |groups.value| &&
                     groups.value[g].owner == sources.error && !HasKey(identities, groups.value[g].owner)
              && forall j | 0 <= j < g :: HasKey(identities, groups.value[j].owner);
      assert forall j | 0 <= j < g :: FirstSeen(owners)[j] == groups.value[j].owner;
      return Err(NoKey(sources.error));
    }
    return Ok((sources.value, spk.value));
  }

  lemma KeysOfOwners(groups: seq<Group>, inputs: seq<TxInput>, owners: seq<nat>, identities: seq<(nat, Identity)>)
    requires GroupsOf(groups, inputs, owners)
    ensures (forall g | 0 <= g < |groups| :: HasKey(identities, groups[g].owner)) <==>
            (forall o | o in owners :: HasKey(identities, o))
  {
    SeenOnce(owners);
    assert forall g | 0 <= g < |groups| :: groups[g].owner in FirstSeen(owners);
    forall o | o in owners && forall g | 0 <= g < |groups| :: HasKey(identities, groups[g].owner)
      ensures HasKey(identities, o)
    {
      var g :| 0 <= g < |FirstSeen(owners)| && FirstSeen(owners)[g] == o;
      assert groups[g].owner == o;
    }
  }

  // ----- In the record's own fields -----

  /** What one key's build reads: the inputs in order, each with its output index, its value and its
      txid's bytes from the last to the first; and why it refuses. */
  lemma BuildReads(txs: seq<TxRecord>, txid: Txid)
    ensures var i, r := FindPendingTx(txs, txid), BumpInputs(txs, txid);
            && (r == Err(NotPending) <==> forall j | 0 <= j < |txs| :: txs[j].status.Pending? ==> txid !in txs[j].txids)
            && (i < |txs| ==>
                  var inputs := txs[i].inputs;
                  && (r == Err(BadTxid) <==> exists k :: 0 <= k < |inputs| && TxidBytes(inputs[k].txid).None?)
                  && (r == Err(BadDestSpk) <==> Readable(inputs) && Decode(txs[i].destSpkHex).None?)
                  && (r.Ok? ==>
                        && r.value.1 == Decode(txs[i].destSpkHex).value && |r.value.0| == |inputs|
                        && forall k | 0 <= k < |inputs| :: CoinRead(r.value.0[k], inputs[k])))
  {
    var i := FindPendingTx(txs, txid);
    if BumpInputs(txs, txid).Ok? {
      forall k | 0 <= k < |txs[i].inputs|
        ensures CoinRead(BumpInputs(txs, txid).value.0[k], txs[i].inputs[k])
      {
        TxidReversed(txs[i].inputs[k].txid);
      }
    }
  }

  ghost predicate CoinRead(u: Utxo, t: TxInput) {
    && u.vout == t.vout && u.value == t.value && |u.txid| == 32 && Decode(t.txid).Some?
    && |Decode(t.txid).value| == 32 && forall j | 0 <= j < 32 :: u.txid[j] == Decode(t.txid).value[31 - j]
  }

  /** A record of the newer kind names notebooks, an older one accounts. */
  lemma OwnersMean(r: TxRecord)
    ensures r.inputIndexes != [] ==> Owners(r) == r.inputIndexes
    ensures r.inputIndexes == [] ==> Owners(r) == r.inputAccounts
  {
  }
}
