/** What the confirm screen shows, row by row and in sum, in the transaction's own terms. */
module ConfirmMeaning {
  import opened Options
  import opened Hex
  import opened Ledger
  import opened Confirm
  import OpReturn

  // ----- Amounts -----

  function Shown(rows: seq<Row>): nat {
    if rows == [] then 0
    else Shown(rows[..|rows| - 1]) + (match rows[|rows| - 1].amount case Sats(n) => n case _ => 0)
  }

  lemma {:induction false} InputsShown(rows: seq<Row>, ctx: ConfirmCtx, inputs: seq<OutPoint>)
    requires |rows| == |inputs| && forall i | 0 <= i < |inputs| :: rows[i] == InputRow(ctx, inputs[i])
    ensures Shown(rows) == ValueIn(ctx, inputs)
  {
    if rows != [] {
      InputsShown(rows[..|rows| - 1], ctx, inputs[..|inputs| - 1]);
    }
  }

  lemma {:induction false} OutputsShown(rows: seq<Row>, ctx: ConfirmCtx, codec: Codec, encrypted: bool,
                                        outputs: seq<TxOut>)
    requires |rows| == |outputs|
    requires forall i | 0 <= i < |outputs| :: rows[i] == OutputRow(ctx, codec, encrypted, outputs[i])
    ensures Shown(rows) == ValueOut(outputs)
  {
    if rows != [] {
      OutputsShown(rows[..|rows| - 1], ctx, codec, encrypted, outputs[..|outputs| - 1]);
    }
  }

  /** The total of the inputs is the amounts shown, added up in sixty-four bits, if every input shows
      one, and missing otherwise. */
  lemma InputsAddUp(s: TxSummary, ctx: ConfirmCtx, codec: Codec, tx: DecodedTx)
    requires Summarizes(s, ctx, codec, tx)
    ensures s.totalIn.Some? <==> forall r | r in s.inputs :: r.amount != Unknown
    ensures s.totalIn.Some? ==> s.totalIn.value == Shown(s.inputs) % 18_446_744_073_709_551_616
  {
    InputTotal(s.inputs, s.totalIn, ctx, tx.inputs);
  }

  /** The total of the outputs is the amounts shown, added up alike. */
  lemma OutputsAddUp(s: TxSummary, ctx: ConfirmCtx, codec: Codec, tx: DecodedTx)
    requires Summarizes(s, ctx, codec, tx)
    ensures s.totalOut == Shown(s.outputs) % 18_446_744_073_709_551_616
  {
    OutputTotal(s.outputs, s.totalOut, ctx, codec, PrivateTx(tx.outputs, codec), tx.outputs);
  }

  /** The fee is the difference of the two totals, if there are two and it is not negative. */
  lemma FeeIsDifference(s: TxSummary, ctx: ConfirmCtx, codec: Codec, tx: DecodedTx)
    requires Summarizes(s, ctx, codec, tx)
    ensures s.fee == if s.totalIn.Some? && s.totalIn.value >= s.totalOut
                     then Some(s.totalIn.value - s.totalOut) else None
  {
  }

  lemma InputTotal(rows: seq<Row>, total: Option<U64>, ctx: ConfirmCtx, inputs: seq<OutPoint>)
    requires |rows| == |inputs| && forall i | 0 <= i < |inputs| :: rows[i] == InputRow(ctx, inputs[i])
    requires total == if AllKnown(ctx, inputs) then Some(ValueIn(ctx, inputs) % WORD) else None
    ensures total.Some? <==> forall r | r in rows :: r.amount != Unknown
    ensures total.Some? ==> total.value == Shown(rows) % 18_446_744_073_709_551_616
  {
    InputsShown(rows, ctx, inputs);
    KnownShown(rows, ctx, inputs);
  }

  lemma OutputTotal(rows: seq<Row>, total: U64, ctx: ConfirmCtx, codec: Codec, encrypted: bool, outputs: seq<TxOut>)
    requires |rows| == |outputs|
    requires forall i | 0 <= i < |outputs| :: rows[i] == OutputRow(ctx, codec, encrypted, outputs[i])
    requires total == ValueOut(outputs) % WORD
    ensures total == Shown(rows) % 18_446_744_073_709_551_616
  {
    OutputsShown(rows, ctx, codec, encrypted, outputs);
  }

  lemma KnownShown(rows: seq<Row>, ctx: ConfirmCtx, inputs: seq<OutPoint>)
    requires |rows| == |inputs| && forall i | 0 <= i < |inputs| :: rows[i] == InputRow(ctx, inputs[i])
    ensures AllKnown(ctx, inputs) <==> forall r | r in rows :: r.amount != Unknown
  {
    if AllKnown(ctx, inputs) {
      forall r | r in rows
        ensures r.amount != Unknown
      {
        var i :| 0 <= i < |rows| && rows[i] == r;
        assert inputs[i] in inputs;
      }
    } else {
      var op :| op in inputs && op !in ctx.prevouts;
      var i :| 0 <= i < |inputs| && inputs[i] == op;
      assert rows[i] in rows && rows[i].amount == Unknown;
    }
  }

  /** An input's row: its coin's own value and source, under its address if that is known; or
      unknown. */
  lemma InputRowMeans(ctx: ConfirmCtx, op: OutPoint)
    ensures var row := InputRow(ctx, op);
            && row.kind == Input && row.detail == ""
            && (row.amount == Unknown <==> op !in ctx.prevouts)
            && (row.caption == AmountUnknown <==> op !in ctx.prevouts)
            && (op !in ctx.prevouts ==> row.title == Unspent(op))
            && (op in ctx.prevouts ==>
                  var p := ctx.prevouts[op];
                  && row.amount == Sats(p.value)
                  && (p.address.Some? ==> row.title == Address(p.address.value))
                  && (p.address.None? ==> row.title == Unspent(op))
                  && (p.source != "" ==> row.caption == Source(p.source))
                  && (p.source == "" ==> row.caption == SourceUnknown))
  {
  }

  // ----- Notes -----

  /** The notes count as encrypted exactly when the first OP_RETURN output holds a payload whose
      header is private. */
  lemma {:induction false} EncryptedIff(outputs: seq<TxOut>, codec: Codec)
    ensures PrivateTx(outputs, codec) <==>
            exists i :: 0 <= i < |outputs| && outputs[i].spk != [] && outputs[i].spk[0] == 0x6a
                        && (forall j | 0 <= j < i :: outputs[j].spk == [] || outputs[j].spk[0] != 0x6a)
                        && OpReturn.Payload(outputs[i].spk).Some?
                        && codec.isPrivate(OpReturn.Payload(outputs[i].spk).value)
  {
    if outputs != [] && !IsOpReturn(outputs[0].spk) {
      var rest := outputs[1..];
      EncryptedIff(rest, codec);
      assert forall i | 0 <= i < |rest| :: rest[i] == outputs[i + 1];
      FirstBehind(outputs, codec);
    } else if outputs != [] {
      assert PrivateTx(outputs, codec) ==> FirstPrivate(outputs, codec, 0);
    }
  }

  ghost predicate FirstPrivate(outputs: seq<TxOut>, codec: Codec, i: nat) {
    && i < |outputs| && outputs[i].spk != [] && outputs[i].spk[0] == 0x6a
    && (forall j | 0 <= j < i :: outputs[j].spk == [] || outputs[j].spk[0] != 0x6a)
    && OpReturn.Payload(outputs[i].spk).Some?
    && codec.isPrivate(OpReturn.Payload(outputs[i].spk).value)
  }

  lemma FirstBehind(outputs: seq<TxOut>, codec: Codec)
    requires outputs != [] && (outputs[0].spk == [] || outputs[0].spk[0] != 0x6a)
    ensures (exists i: nat :: FirstPrivate(outputs, codec, i)) <==>
            exists i: nat :: FirstPrivate(outputs[1..], codec, i)
  {
    if i: nat :| FirstPrivate(outputs, codec, i) {
      assert FirstPrivate(outputs[1..], codec, i - 1);
    }
    if i: nat :| FirstPrivate(outputs[1..], codec, i) {
      assert FirstPrivate(outputs, codec, i + 1);
    }
  }

  /** An OP_RETURN output's row: a note if the payload begins with `PNTE`, else data; its text is
      decoded unless the notes are encrypted; a value is shown only if there is one. */
  lemma NoteRowMeans(ctx: ConfirmCtx, codec: Codec, encrypted: bool, o: TxOut)
    requires o.spk != [] && o.spk[0] == 0x6a
    ensures var row := OutputRow(ctx, codec, encrypted, o);
            var read := OpReturn.Payload(o.spk);
            var p := if read.Some? then read.value else [];
            && row.kind == Note && row.title == Glyphs(p, !encrypted) && row.detail == Encode(p)
            && row.caption == (if |p| >= 4 && p[0] == 0x50 && p[1] == 0x4e && p[2] == 0x54 && p[3] == 0x45
                               then PnteNote(encrypted, |p|) else Data(|p|))
            && row.amount == (if o.value == 0 then Blank else Sats(o.value))
            && OutputWarnings(ctx, codec, o) == []
  {
    var read := OpReturn.Payload(o.spk);
    var p := if read.Some? then read.value else [];
    assert MAGIC == [0x50, 0x4e, 0x54, 0x45];
    assert MAGIC <= p <==> |p| >= 4 && p[..4] == MAGIC;
  }

  // ----- Paying outputs -----

  /** The row and the warning of any other output. */
  lemma PaidRowMeans(ctx: ConfirmCtx, codec: Codec, encrypted: bool, o: TxOut)
    requires o.spk == [] || o.spk[0] != 0x6a
    ensures var row, warns := OutputRow(ctx, codec, encrypted, o), OutputWarnings(ctx, codec, o);
            && row.amount == Sats(o.value) && row.detail == ""
            && (codec.address(o.spk).None? ==>
                  && row.title == ScriptHex(Encode(o.spk)) && row.caption == Unrenderable && row.kind == Other
                  && warns == [UndecodableOutput])
            && (codec.address(o.spk).Some? ==>
                  && row.title == Address(codec.address(o.spk).value)
                  && warns == if row.kind == Other then [UnrecognizedAddress] else [])
  {
  }

  /** The caption of an output that pays no recipient: own change of the spending wallet, own dust
      up to 546, own change above it, the chosen change address, or nobody known. */
  lemma CaptionMeans(ctx: ConfirmCtx, codec: Codec, encrypted: bool, o: TxOut)
    requires (o.spk == [] || o.spk[0] != 0x6a) && codec.address(o.spk).Some? && !PaysRecipient(ctx, codec, o.spk)
    ensures var row := OutputRow(ctx, codec, encrypted, o);
            (row.kind, row.caption) ==
            if o.spk in ctx.selfSpks then
              if o.spk in ctx.spendingSpks then (Change, SpendingChange)
              else if o.value <= 546 then (Self, NotebookDust) else (Change, NotebookChange)
            else if ctx.expectedChange.Some? && codec.resolve(ctx.expectedChange.value) == Some(o.spk)
            then (Change, ChosenChange)
            else (Other, NotOurs)
  {
    RecipientFound(ctx, codec, o.spk);
  }

  /** The one recipient, when there is no list, goes by its name or by none. */
  lemma OneRecipient(ctx: ConfirmCtx, codec: Codec, encrypted: bool, o: TxOut)
    requires (o.spk == [] || o.spk[0] != 0x6a) && codec.address(o.spk).Some?
    requires ctx.recipients == [] && ctx.recipient.Some? && codec.resolve(ctx.recipient.value) == Some(o.spk)
    ensures var row := OutputRow(ctx, codec, encrypted, o);
            && row.kind == Recipient
            && row.caption == Pays(if ctx.recipientName.Some? then Named(ctx.recipientName.value) else Directed)
  {
  }

  // ----- The lock time -----

  /** Zero is no lock, up to 499,999,999 a height, above that a time; only a height above a known
      tip is warned of. */
  lemma LockMeans(ctx: ConfirmCtx, lockTime: nat)
    ensures LockTimeLine(lockTime) == if lockTime == 0 then NoLockTime
                                      else if lockTime <= 499_999_999 then BlockHeight(lockTime) else Time(lockTime)
    ensures LockWarnings(ctx, lockTime) ==
            if lockTime <= 499_999_999 && ctx.tip.Some? && lockTime > ctx.tip.value
            then [NotFinal(lockTime, ctx.tip.value)] else []
  {
  }

  /** Warnings come in this order: the lock time, the outputs in theirs, the money. */
  lemma WarningsInOrder(ctx: ConfirmCtx, codec: Codec, tx: DecodedTx)
    ensures Warnings(ctx, codec, tx) ==
            LockWarnings(ctx, tx.lockTime) + AllOutputWarnings(ctx, codec, tx.outputs)
            + (if exists op :: op in tx.inputs && op !in ctx.prevouts then [FeeUnverified]
               else if ValueOut(tx.outputs) % 18_446_744_073_709_551_616 >
                       ValueIn(ctx, tx.inputs) % 18_446_744_073_709_551_616 then [InputsInconsistent]
               else [])
    ensures forall i | 0 <= i < |tx.outputs| ::
              AllOutputWarnings(ctx, codec, tx.outputs[..i + 1]) ==
              AllOutputWarnings(ctx, codec, tx.outputs[..i]) + OutputWarnings(ctx, codec, tx.outputs[i])
  {
    forall i | 0 <= i < |tx.outputs|
      ensures AllOutputWarnings(ctx, codec, tx.outputs[..i + 1]) ==
              AllOutputWarnings(ctx, codec, tx.outputs[..i]) + OutputWarnings(ctx, codec, tx.outputs[i])
    {
      assert tx.outputs[..i + 1][..i] == tx.outputs[..i];
    }
  }
}
