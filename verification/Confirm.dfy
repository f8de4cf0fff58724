/** The confirm screen's summary of a signed transaction (`app-core/src/confirm.rs`). */
module Confirm {
  import opened Options
  import opened Hex
  import opened Ledger
  import opened Pairs
  import OpReturn

  /** Sums are kept in sixty-four bits and wrap. */
  const WORD := 0x1_0000_0000_0000_0000
  const LOCK_TIME_THRESHOLD := 500_000_000
  const SELF_DUST_CEILING := 546
  const MAGIC: seq<Byte> := [0x50, 0x4e, 0x54, 0x45]

  type U64 = n: nat | n < WORD
  type Spk = seq<Byte>

  datatype TxOut = TxOut(value: U64, spk: Spk)

  datatype DecodedTx = DecodedTx(inputs: seq<OutPoint>, outputs: seq<TxOut>, lockTime: nat)

  datatype PrevoutInfo = PrevoutInfo(value: U64, address: Option<string>, source: string)

  /** What outpoints and scripts mean; everything else shown comes from the transaction. */
  datatype ConfirmCtx = ConfirmCtx(
    prevouts: map<OutPoint, PrevoutInfo>, selfSpks: seq<Spk>, spendingSpks: seq<Spk>, expectedChange: Option<string>,
    recipient: Option<string>, recipientName: Option<string>, recipients: seq<(string, Option<string>)>,
    tip: Option<nat>)

  /** Address parsing for the network, address printing, and a note header's private flag. */
  datatype Codec = Codec(resolve: string -> Option<Spk>, address: Spk -> Option<string>, isPrivate: seq<Byte> -> bool)

  datatype Kind = Input | Note | Recipient | Self | Change | Other

  datatype Payee = Named(name: string) | Numbered(n: nat) | Directed

  datatype Label =
    | Source(name: string) | SourceUnknown | AmountUnknown
    | PnteNote(encrypted: bool, size: nat) | Data(size: nat) | Unrenderable
    | Pays(payee: Payee) | SpendingChange | NotebookDust | NotebookChange | ChosenChange | NotOurs

  datatype Title =
    | Address(text: string) | Unspent(op: OutPoint) | ScriptHex(hex: string)
    | Glyphs(payload: seq<Byte>, decodeText: bool)

  datatype Amount = Sats(n: U64) | Unknown | Blank

  datatype Row = Row(title: Title, caption: Label, amount: Amount, kind: Kind, detail: string)

  datatype Warning =
    | NotFinal(height: nat, tip: nat) | UndecodableOutput | UnrecognizedAddress | InputsInconsistent | FeeUnverified

  datatype LockLine = NoLockTime | Time(at: nat) | BlockHeight(height: nat)

  datatype TxSummary = TxSummary(
    inputs: seq<Row>, outputs: seq<Row>, totalIn: Option<U64>, totalOut: U64, fee: Option<nat>,
    lockTimeLine: LockLine, warns: seq<Warning>)

  // ----- One input, one output -----

  function LockTimeLine(lockTime: nat): LockLine {
    if lockTime == 0 then NoLockTime
    else if lockTime >= LOCK_TIME_THRESHOLD then Time(lockTime) else BlockHeight(lockTime)
  }

  function InputRow(ctx: ConfirmCtx, op: OutPoint): Row {
    if op in ctx.prevouts then
      var p := ctx.prevouts[op];
      Row(if p.address.Some? then Address(p.address.value) else Unspent(op),
          if p.source == "" then SourceUnknown else Source(p.source), Sats(p.value), Input, "")
    else Row(Unspent(op), AmountUnknown, Unknown, Input, "")
  }

  /** The recipients' scripts with their labels: the list, or the one recipient when it is empty. */
  function RecipientSpks(ctx: ConfirmCtx, codec: Codec): seq<(Spk, Payee)> {
    if ctx.recipients != [] then ListedSpks(ctx.recipients, codec)
    else
      match ctx.recipient
      case None => []
      case Some(a) =>
        match codec.resolve(a)
        case None => []
        case Some(spk) => [(spk, if ctx.recipientName.Some? then Named(ctx.recipientName.value) else Directed)]
  }

  /** An address that does not resolve is skipped, but keeps its number. */
  function ListedSpks(recipients: seq<(string, Option<string>)>, codec: Codec): seq<(Spk, Payee)> {
    if recipients == [] then []
    else
      var n := |recipients| - 1;
      ListedSpks(recipients[..n], codec) +
      match codec.resolve(recipients[n].0)
      case None => []
      case Some(spk) => [(spk, if recipients[n].1.Some? then Named(recipients[n].1.value) else Numbered(n + 1))]
  }

  function ChangeSpk(ctx: ConfirmCtx, codec: Codec): Option<Spk> {
    match ctx.expectedChange case None => None case Some(a) => codec.resolve(a)
  }

  predicate IsOpReturn(spk: Spk) {
    spk != [] && spk[0] == OpReturn.OP_RETURN
  }

  /** The first OP_RETURN output decides whether the transaction's notes are encrypted. */
  function PrivateTx(outputs: seq<TxOut>, codec: Codec): bool {
    if outputs == [] then false
    else if IsOpReturn(outputs[0].spk) then
      match OpReturn.Payload(outputs[0].spk) case None => false case Some(p) => codec.isPrivate(p)
    else PrivateTx(outputs[1..], codec)
  }

  function NoteRow(o: TxOut, encrypted: bool): Row {
    var read := OpReturn.Payload(o.spk);
    var p := if read.Some? then read.value else [];
    Row(Glyphs(p, !encrypted), if MAGIC <= p then PnteNote(encrypted, |p|) else Data(|p|),
        if o.value == 0 then Blank else Sats(o.value), Note, Encode(p))
  }

  /** Kind and label of an output that has an address. */
  function Classified(ctx: ConfirmCtx, codec: Codec, o: TxOut): (Kind, Label) {
    var list := RecipientSpks(ctx, codec);
    var i := FindKey(list, o.spk);
    if i < |list| then (Recipient, Pays(list[i].1))
    else if o.spk in ctx.selfSpks then
      if o.spk in ctx.spendingSpks then (Change, SpendingChange)
      else if o.value <= SELF_DUST_CEILING then (Self, NotebookDust)
      else (Change, NotebookChange)
    else if ChangeSpk(ctx, codec) == Some(o.spk) then (Change, ChosenChange)
    else (Other, NotOurs)
  }

  function OutputRow(ctx: ConfirmCtx, codec: Codec, encrypted: bool, o: TxOut): Row {
    if IsOpReturn(o.spk) then NoteRow(o, encrypted)
    else
      match codec.address(o.spk)
      case None => Row(ScriptHex(Encode(o.spk)), Unrenderable, Sats(o.value), Other, "")
      case Some(a) =>
        var (kind, caption) := Classified(ctx, codec, o);
        Row(Address(a), caption, Sats(o.value), kind, "")
  }

  function OutputWarnings(ctx: ConfirmCtx, codec: Codec, o: TxOut): seq<Warning> {
    if IsOpReturn(o.spk) then []
    else if codec.address(o.spk).None? then [UndecodableOutput]
    else if Classified(ctx, codec, o).0 == Other then [UnrecognizedAddress]
    else []
  }

  // ----- The whole transaction -----

  predicate AllKnown(ctx: ConfirmCtx, inputs: seq<OutPoint>) {
    forall op | op in inputs :: op in ctx.prevouts
  }

  /** The known inputs' true total, unbounded. */
  function ValueIn(ctx: ConfirmCtx, inputs: seq<OutPoint>): nat {
    if inputs == [] then 0
    else
      var op := inputs[|inputs| - 1];
      ValueIn(ctx, inputs[..|inputs| - 1]) + (if op in ctx.prevouts then ctx.prevouts[op].value else 0)
  }

  function ValueOut(outputs: seq<TxOut>): nat {
    if outputs == [] then 0 else ValueOut(outputs[..|outputs| - 1]) + outputs[|outputs| - 1].value
  }

  function LockWarnings(ctx: ConfirmCtx, lockTime: nat): seq<Warning> {
    if lockTime < LOCK_TIME_THRESHOLD && ctx.tip.Some? && lockTime > ctx.tip.value
    then [NotFinal(lockTime, ctx.tip.value)] else []
  }

  function AllOutputWarnings(ctx: ConfirmCtx, codec: Codec, outputs: seq<TxOut>): seq<Warning> {
    if outputs == [] then []
    else AllOutputWarnings(ctx, codec, outputs[..|outputs| - 1]) + OutputWarnings(ctx, codec, outputs[|outputs| - 1])
  }

  function MoneyWarnings(ctx: ConfirmCtx, tx: DecodedTx): seq<Warning> {
    if !AllKnown(ctx, tx.inputs) then [FeeUnverified]
    else if ValueOut(tx.outputs) % WORD > ValueIn(ctx, tx.inputs) % WORD then [InputsInconsistent]
    else []
  }

  function Warnings(ctx: ConfirmCtx, codec: Codec, tx: DecodedTx): seq<Warning> {
    LockWarnings(ctx, tx.lockTime) + AllOutputWarnings(ctx, codec, tx.outputs) + MoneyWarnings(ctx, tx)
  }

  function Fee(ctx: ConfirmCtx, tx: DecodedTx): Option<nat> {
    var i, o := ValueIn(ctx, tx.inputs) % WORD, ValueOut(tx.outputs) % WORD;
    if AllKnown(ctx, tx.inputs) && i >= o then Some(i - o) else None
  }

  lemma WrappedSum(a: nat, b: nat)
    ensures (a % WORD + b) % WORD == (a + b) % WORD
  {
  }

  /** One row per input and output, in order; totals and fee in wrapped sums; every warning in turn. */
  ghost predicate Summarizes(s: TxSummary, ctx: ConfirmCtx, codec: Codec, tx: DecodedTx) {
    && |s.inputs| == |tx.inputs| && (forall i | 0 <= i < |tx.inputs| :: s.inputs[i] == InputRow(ctx, tx.inputs[i]))
    && |s.outputs| == |tx.outputs|
    && (forall i | 0 <= i < |tx.outputs| ::
          s.outputs[i] == OutputRow(ctx, codec, PrivateTx(tx.outputs, codec), tx.outputs[i]))
    && s.totalIn == (if AllKnown(ctx, tx.inputs) then Some(ValueIn(ctx, tx.inputs) % WORD) else None)
    && s.totalOut == ValueOut(tx.outputs) % WORD
    && s.fee == Fee(ctx, tx) && s.lockTimeLine == LockTimeLine(tx.lockTime)
    && s.warns == Warnings(ctx, codec, tx)
  }

  /** `summarize_signed_tx` after decoding; text that is no transaction is its only error. */
  method SummarizeSignedTx(decoded: Result<DecodedTx, string>, ctx: ConfirmCtx, codec: Codec)
    returns (r: Result<TxSummary, string>)
    ensures decoded.Err? ==> r == Err(decoded.error)
    ensures decoded.Ok? ==> r.Ok? && Summarizes(r.value, ctx, codec, decoded.value)
  {
    if decoded.Err? {
      return Err(decoded.error);
    }
    var tx := decoded.value;
    var warns := TooEarly(tx.lockTime, ctx.tip);
    var inputs, sumIn, missing := InputRows(tx.inputs, ctx);
    var totalIn := if missing then None else Some(sumIn);
    var outputs, totalOut, found := OutputRows(tx.outputs, ctx, codec);
    warns := warns + found;
    var fee, more := FeeOf(totalIn, totalOut);
    warns := warns + more;
    return Ok(TxSummary(inputs, outputs, totalIn, totalOut, fee, LockTimeLine(tx.lockTime), warns));
  }

  method TooEarly(lockTime: nat, tip: Option<nat>) returns (warns: seq<Warning>)
    ensures warns == if LockTimeLine(lockTime).BlockHeight? && tip.Some? && lockTime > tip.value
                     then [NotFinal(lockTime, tip.value)] else []
  {
    warns := [];
    if lockTime < LOCK_TIME_THRESHOLD {
      if tip.Some? && lockTime > tip.value {
        warns := warns + [NotFinal(lockTime, tip.value)];
      }
    }
  }

  method FeeOf(totalIn: Option<U64>, totalOut: U64) returns (fee: Option<nat>, warns: seq<Warning>)
    ensures fee == (if totalIn.Some? && totalOut <= totalIn.value then Some(totalIn.value - totalOut) else None)
    ensures warns == if totalIn.None? then [FeeUnverified]
                     else if totalOut > totalIn.value then [InputsInconsistent] else []
  {
    fee, warns := None, [];
    if totalIn.Some? && totalOut > totalIn.value {
      warns := warns + [InputsInconsistent];
    }
    if totalIn.Some? && totalOut <= totalIn.value {
      fee := Some(totalIn.value - totalOut);
    } else if totalIn.None? {
      warns := warns + [FeeUnverified];
    }
  }

  method InputRows(inputs: seq<OutPoint>, ctx: ConfirmCtx) returns (rows: seq<Row>, sumIn: U64, missing: bool)
    ensures |rows| == |inputs| && forall i | 0 <= i < |inputs| :: rows[i] == InputRow(ctx, inputs[i])
    ensures sumIn == ValueIn(ctx, inputs) % WORD && missing == !AllKnown(ctx, inputs)
  {
    rows, sumIn, missing := [], 0, false;
    for n := 0 to |inputs|
      invariant |rows| == n && forall i | 0 <= i < n :: rows[i] == InputRow(ctx, inputs[i])
      invariant sumIn == ValueIn(ctx, inputs[..n]) % WORD
      invariant missing == exists i :: 0 <= i < n && inputs[i] !in ctx.prevouts
    {
      var op := inputs[n];
      assert inputs[..n + 1][..n] == inputs[..n];
      if op in ctx.prevouts {
        WrappedSum(ValueIn(ctx, inputs[..n]), ctx.prevouts[op].value);
        sumIn := (sumIn + ctx.prevouts[op].value) % WORD;
      } else {
        missing := true;
      }
      rows := rows + [InputRow(ctx, op)];
    }
    assert inputs[..|inputs|] == inputs;
  }

  ghost predicate RowsOf(outputs: seq<TxOut>, ctx: ConfirmCtx, codec: Codec, encrypted: bool, rows: seq<Row>) {
    |rows| == |outputs| && forall i | 0 <= i < |outputs| :: rows[i] == OutputRow(ctx, codec, encrypted, outputs[i])
  }

  /** What the output loop has once it has seen `outputs`. */
  ghost predicate Shown(outputs: seq<TxOut>, ctx: ConfirmCtx, codec: Codec, encrypted: bool,
                        rows: seq<Row>, totalOut: U64, warns: seq<Warning>) {
    && RowsOf(outputs, ctx, codec, encrypted, rows)
    && totalOut == ValueOut(outputs) % WORD && warns == AllOutputWarnings(ctx, codec, outputs)
  }

  lemma RowsGrow(outputs: seq<TxOut>, o: TxOut, ctx: ConfirmCtx, codec: Codec, encrypted: bool,
                 rows: seq<Row>, row: Row)
    requires RowsOf(outputs, ctx, codec, encrypted, rows) && row == OutputRow(ctx, codec, encrypted, o)
    ensures RowsOf(outputs + [o], ctx, codec, encrypted, rows + [row])
  {
  }

  lemma SumsGrow(outputs: seq<TxOut>, o: TxOut, ctx: ConfirmCtx, codec: Codec, total: U64)
    requires total == ValueOut(outputs) % WORD
    ensures (total + o.value) % WORD == ValueOut(outputs + [o]) % WORD
    ensures AllOutputWarnings(ctx, codec, outputs + [o]) ==
            AllOutputWarnings(ctx, codec, outputs) + OutputWarnings(ctx, codec, o)
  {
    assert (outputs + [o])[..|outputs|] == outputs;
    WrappedSum(ValueOut(outputs), o.value);
  }

  lemma ShownGrows(outputs: seq<TxOut>, o: TxOut, ctx: ConfirmCtx, codec: Codec, encrypted: bool,
                   rows: seq<Row>, totalOut: U64, warns: seq<Warning>)
    requires Shown(outputs, ctx, codec, encrypted, rows, totalOut, warns)
    ensures Shown(outputs + [o], ctx, codec, encrypted, rows + [OutputRow(ctx, codec, encrypted, o)],
                  (totalOut + o.value) % WORD, warns + OutputWarnings(ctx, codec, o))
  {
    SumsGrow(outputs, o, ctx, codec, totalOut);
    RowsGrow(outputs, o, ctx, codec, encrypted, rows, OutputRow(ctx, codec, encrypted, o));
  }

  lemma ShownStep(outputs: seq<TxOut>, n: nat, ctx: ConfirmCtx, codec: Codec, encrypted: bool,
                  rows: seq<Row>, totalOut: U64, warns: seq<Warning>)
    requires n < |outputs| && Shown(outputs[..n], ctx, codec, encrypted, rows, totalOut, warns)
    ensures var o := outputs[n];
            Shown(outputs[..n + 1], ctx, codec, encrypted, rows + [OutputRow(ctx, codec, encrypted, o)],
                  (totalOut + o.value) % WORD, warns + OutputWarnings(ctx, codec, o))
  {
    assert outputs[..n + 1] == outputs[..n] + [outputs[n]];
    ShownGrows(outputs[..n], outputs[n], ctx, codec, encrypted, rows, totalOut, warns);
  }

  method OutputRows(outputs: seq<TxOut>, ctx: ConfirmCtx, codec: Codec)
    returns (rows: seq<Row>, totalOut: U64, warns: seq<Warning>)
    ensures Shown(outputs, ctx, codec, PrivateTx(outputs, codec), rows, totalOut, warns)
  {
    var encrypted := PrivateTx(outputs, codec);
    rows, totalOut, warns := [], 0, [];
    for n := 0 to |outputs|
      invariant Shown(outputs[..n], ctx, codec, encrypted, rows, totalOut, warns)
    {
      ShownStep(outputs, n, ctx, codec, encrypted, rows, totalOut, warns);
      var row, warning := OneOutput(outputs[n], ctx, codec, encrypted);
      totalOut := (totalOut + outputs[n].value) % WORD;
      rows, warns := rows + [row], warns + warning;
    }
    assert outputs[..|outputs|] == outputs;
  }

  method OneOutput(o: TxOut, ctx: ConfirmCtx, codec: Codec, encrypted: bool) returns (row: Row, warning: seq<Warning>)
    ensures row == OutputRow(ctx, codec, encrypted, o) && warning == OutputWarnings(ctx, codec, o)
  {
    if IsOpReturn(o.spk) {
      return NoteRow(o, encrypted), [];
    }
    var address := codec.address(o.spk);
    if address.None? {
      return Row(ScriptHex(Encode(o.spk)), Unrenderable, Sats(o.value), Other, ""), [UndecodableOutput];
    }
    var (kind, caption) := Classified(ctx, codec, o);
    return Row(Address(address.value), caption, Sats(o.value), kind, ""),
           if kind == Other then [UnrecognizedAddress] else [];
  }

  // ----- What silence means -----

  /** An address the user named for this transaction pays to `spk`. */
  ghost predicate PaysRecipient(ctx: ConfirmCtx, codec: Codec, spk: Spk) {
    if ctx.recipients != [] then exists r :: r in ctx.recipients && codec.resolve(r.0) == Some(spk)
    else ctx.recipient.Some? && codec.resolve(ctx.recipient.value) == Some(spk)
  }

  /** The output pays a recipient, this wallet, or the change address that was chosen. */
  ghost predicate Recognized(ctx: ConfirmCtx, codec: Codec, spk: Spk) {
    || PaysRecipient(ctx, codec, spk)
    || spk in ctx.selfSpks
    || (ctx.expectedChange.Some? && codec.resolve(ctx.expectedChange.value) == Some(spk))
  }

  ghost predicate Accounted(ctx: ConfirmCtx, codec: Codec, o: TxOut) {
    IsOpReturn(o.spk) || (codec.address(o.spk).Some? && Recognized(ctx, codec, o.spk))
  }

  /** A height lock is met at the known tip; a time lock, or an unknown tip, is not judged. */
  ghost predicate FinalAtTip(ctx: ConfirmCtx, lockTime: nat) {
    LockTimeLine(lockTime).BlockHeight? && ctx.tip.Some? ==> lockTime <= ctx.tip.value
  }

  lemma {:induction false} ListedFinds(recipients: seq<(string, Option<string>)>, codec: Codec, spk: Spk)
    ensures (exists e :: e in ListedSpks(recipients, codec) && e.0 == spk) <==>
            exists r :: r in recipients && codec.resolve(r.0) == Some(spk)
  {
    if recipients != [] {
      var n := |recipients| - 1;
      ListedFinds(recipients[..n], codec, spk);
      assert recipients == recipients[..n] + [recipients[n]];
      var front, all := ListedSpks(recipients[..n], codec), ListedSpks(recipients, codec);
      if codec.resolve(recipients[n].0) == Some(spk) {
        assert all[|all| - 1].0 == spk;
        assert recipients[n] in recipients;
      }
      if e :| e in front && e.0 == spk {
        assert e in all;
      }
    }
  }

  lemma RecipientFound(ctx: ConfirmCtx, codec: Codec, spk: Spk)
    ensures FindKey(RecipientSpks(ctx, codec), spk) < |RecipientSpks(ctx, codec)| <==> PaysRecipient(ctx, codec, spk)
  {
    var list := RecipientSpks(ctx, codec);
    ListedFinds(ctx.recipients, codec, spk);
    assert (exists e :: e in list && e.0 == spk) <==> FindKey(list, spk) < |list| by {
      if FindKey(list, spk) < |list| {
        assert list[FindKey(list, spk)] in list;
      }
    }
  }

  lemma OutputSilentIff(ctx: ConfirmCtx, codec: Codec, o: TxOut)
    ensures OutputWarnings(ctx, codec, o) == [] <==> Accounted(ctx, codec, o)
  {
    RecipientFound(ctx, codec, o.spk);
  }

  lemma {:induction false} OutputsSilentIff(ctx: ConfirmCtx, codec: Codec, outputs: seq<TxOut>)
    ensures AllOutputWarnings(ctx, codec, outputs) == [] <==> forall o | o in outputs :: Accounted(ctx, codec, o)
  {
    if outputs != [] {
      var n := |outputs| - 1;
      assert outputs == outputs[..n] + [outputs[n]];
      OutputsSilentIff(ctx, codec, outputs[..n]);
      OutputSilentIff(ctx, codec, outputs[n]);
    }
  }

  /** Silence is exact: every input's amount is known, the outputs' sum wrapped to sixty-four
      bits does not exceed the inputs' wrapped sum, every output is accounted for and the
      transaction is final at the tip. */
  lemma SilentIff(ctx: ConfirmCtx, codec: Codec, tx: DecodedTx)
    ensures Warnings(ctx, codec, tx) == [] <==>
            && AllKnown(ctx, tx.inputs)
            && ValueOut(tx.outputs) % WORD <= ValueIn(ctx, tx.inputs) % WORD
            && (forall o | o in tx.outputs :: Accounted(ctx, codec, o))
            && FinalAtTip(ctx, tx.lockTime)
  {
    OutputsSilentIff(ctx, codec, tx.outputs);
  }

  /** Who is paid, said without the order of the tests: a recipient under its first matching
      name or number, this wallet's own note-keeping dust or change, the chosen change address,
      or nobody this app knows. */
  lemma KindExactly(ctx: ConfirmCtx, codec: Codec, encrypted: bool, o: TxOut)
    requires !IsOpReturn(o.spk) && codec.address(o.spk).Some?
    ensures var row := OutputRow(ctx, codec, encrypted, o);
            var paid, own := PaysRecipient(ctx, codec, o.spk), o.spk in ctx.selfSpks;
            && row.amount == Sats(o.value)
            && (row.kind == Recipient <==> paid)
            && (row.kind == Self <==> !paid && own && o.spk !in ctx.spendingSpks && o.value <= SELF_DUST_CEILING)
            && (row.kind == Change <==> !paid && (if own then o.spk in ctx.spendingSpks || o.value > SELF_DUST_CEILING
                                                  else ChangeSpk(ctx, codec) == Some(o.spk)))
            && (row.kind == Other <==> !Recognized(ctx, codec, o.spk))
            && (paid && ctx.recipients != [] ==> row.caption == Pays(FirstPayee(ctx.recipients, codec, o.spk)))
  {
    RecipientFound(ctx, codec, o.spk);
    if PaysRecipient(ctx, codec, o.spk) && ctx.recipients != [] {
      ListedFirst(ctx.recipients, codec, o.spk);
    }
  }

  /** The first address of the list that resolves to `spk`, by its name or its place. */
  function FirstPayee(recipients: seq<(string, Option<string>)>, codec: Codec, spk: Spk): Payee {
    var i := FindAddress(recipients, codec, spk);
    if i == |recipients| then Directed
    else if recipients[i].1.Some? then Named(recipients[i].1.value)
    else Numbered(i + 1)
  }

  function FindAddress(recipients: seq<(string, Option<string>)>, codec: Codec, spk: Spk): (i: nat)
    ensures i <= |recipients|
    ensures i < |recipients| ==> codec.resolve(recipients[i].0) == Some(spk)
    ensures forall j | 0 <= j < i :: codec.resolve(recipients[j].0) != Some(spk)
  {
    if recipients == [] || codec.resolve(recipients[0].0) == Some(spk) then 0
    else 1 + FindAddress(recipients[1..], codec, spk)
  }

  lemma {:induction false} ListedFirst(recipients: seq<(string, Option<string>)>, codec: Codec, spk: Spk)
    ensures var list := ListedSpks(recipients, codec);
            var i := FindKey(list, spk);
            if i < |list|
            then FindAddress(recipients, codec, spk) < |recipients| && list[i].1 == FirstPayee(recipients, codec, spk)
            else FindAddress(recipients, codec, spk) == |recipients|
  {
    if recipients != [] {
      var n := |recipients| - 1;
      var front, last := recipients[..n], recipients[n];
      assert recipients == front + [last];
      ListedFirst(front, codec, spk);
      FindAddressSnoc(front, last, codec, spk);
      var list := ListedSpks(front, codec);
      match codec.resolve(last.0) {
        case None => assert ListedSpks(recipients, codec) == list;
        case Some(x) =>
          var entry := (x, if last.1.Some? then Named(last.1.value) else Numbered(n + 1));
          FindKeySnoc(list, entry, spk);
          assert ListedSpks(recipients, codec) == list + [entry];
      }
    }
  }

  lemma FindAddressSnoc(front: seq<(string, Option<string>)>, last: (string, Option<string>), codec: Codec, spk: Spk)
    ensures var i := FindAddress(front, codec, spk);
            FindAddress(front + [last], codec, spk) ==
            if i < |front| || codec.resolve(last.0) == Some(spk) then i else i + 1
  {
    var all := front + [last];
    var i, j := FindAddress(front, codec, spk), FindAddress(all, codec, spk);
    assert forall k | 0 <= k < |front| :: all[k] == front[k];
    assert all[|front|] == last;
  }

  lemma FindKeySnoc(list: seq<(Spk, Payee)>, entry: (Spk, Payee), spk: Spk)
    ensures var i := FindKey(list, spk);
            FindKey(list + [entry], spk) == if i < |list| || entry.0 == spk then i else i + 1
  {
    var all := list + [entry];
    var i, j := FindKey(list, spk), FindKey(all, spk);
    assert forall k | 0 <= k < |list| :: all[k] == list[k];
    assert all[|list|] == entry;
  }

  // ----- Where the money goes -----

  /** The value of the outputs a row of kind `k` shows. */
  function ValueOfKind(ctx: ConfirmCtx, codec: Codec, encrypted: bool, outputs: seq<TxOut>, k: Kind): nat {
    if outputs == [] then 0
    else
      var o := outputs[|outputs| - 1];
      ValueOfKind(ctx, codec, encrypted, outputs[..|outputs| - 1], k) +
      (if OutputRow(ctx, codec, encrypted, o).kind == k then o.value else 0)
  }

  lemma OneKind(ctx: ConfirmCtx, codec: Codec, encrypted: bool, o: TxOut)
    ensures var k := OutputRow(ctx, codec, encrypted, o).kind;
            k != Input && (k == Other <==> OutputWarnings(ctx, codec, o) != [])
  {
  }

  lemma {:induction false} KindsAddUp(ctx: ConfirmCtx, codec: Codec, encrypted: bool, outputs: seq<TxOut>)
    ensures ValueOut(outputs) ==
            ValueOfKind(ctx, codec, encrypted, outputs, Note) + ValueOfKind(ctx, codec, encrypted, outputs, Recipient)
            + ValueOfKind(ctx, codec, encrypted, outputs, Self) + ValueOfKind(ctx, codec, encrypted, outputs, Change)
            + ValueOfKind(ctx, codec, encrypted, outputs, Other)
    ensures AllOutputWarnings(ctx, codec, outputs) == [] ==> ValueOfKind(ctx, codec, encrypted, outputs, Other) == 0
  {
    if outputs != [] {
      KindsAddUp(ctx, codec, encrypted, outputs[..|outputs| - 1]);
      OneKind(ctx, codec, encrypted, outputs[|outputs| - 1]);
    }
  }

  /** A silent summary shows a fee, and every satoshi that goes in is shown: it is fee, or in a
      note, recipient, self or change row. The books balance exactly when both sums wrapped
      equally often, in particular whenever neither wraps. */
  lemma SilentBooksBalance(ctx: ConfirmCtx, codec: Codec, tx: DecodedTx, encrypted: bool)
    requires Warnings(ctx, codec, tx) == []
    ensures Fee(ctx, tx).Some?
    ensures var shown := ValueOfKind(ctx, codec, encrypted, tx.outputs, Note) +
                         ValueOfKind(ctx, codec, encrypted, tx.outputs, Recipient)
                         + ValueOfKind(ctx, codec, encrypted, tx.outputs, Self) +
                           ValueOfKind(ctx, codec, encrypted, tx.outputs, Change);
            ValueIn(ctx, tx.inputs) == Fee(ctx, tx).value + shown <==>
            ValueIn(ctx, tx.inputs) / WORD == ValueOut(tx.outputs) / WORD
  {
    KindsAddUp(ctx, codec, encrypted, tx.outputs);
  }

  lemma WrappedCompare(a: nat, b: nat)
    requires a % WORD <= b % WORD
    ensures a <= b <==> a / WORD <= b / WORD
  {
    assert a == WORD * (a / WORD) + a % WORD && b == WORD * (b / WORD) + b % WORD;
  }

  /** A silent summary's outputs are covered by its inputs exactly when their sum wrapped no more
      often than the inputs' did; in particular whenever the outputs' sum does not wrap. */
  lemma SilentCoversIff(ctx: ConfirmCtx, codec: Codec, tx: DecodedTx)
    requires Warnings(ctx, codec, tx) == []
    ensures var (paid, spent) := (ValueOut(tx.outputs), ValueIn(ctx, tx.inputs));
            && (paid <= spent <==> paid / WORD <= spent / WORD)
            && (paid < WORD ==> paid <= spent)
  {
    SilentIff(ctx, codec, tx);
    WrappedCompare(ValueOut(tx.outputs), ValueIn(ctx, tx.inputs));
  }

  /** A context that knows one prevout and one own script. */
  function OwnOnly(op: OutPoint, value: U64, spk: Spk): ConfirmCtx {
    ConfirmCtx(map[op := PrevoutInfo(value, None, "")], [spk], [], None, None, None, [], None)
  }

  function TwoOwn(op: OutPoint, a: U64, b: U64, spk: Spk): DecodedTx {
    DecodedTx([op], [TxOut(a, spk), TxOut(b, spk)], 0)
  }

  lemma TwoOwnSums(op: OutPoint, value: U64, a: U64, b: U64, spk: Spk)
    ensures ValueIn(OwnOnly(op, value, spk), TwoOwn(op, a, b, spk).inputs) == value
    ensures ValueOut(TwoOwn(op, a, b, spk).outputs) == a + b
  {
    OneInput(OwnOnly(op, value, spk), op);
    TwoOutputs(TxOut(a, spk), TxOut(b, spk));
  }

  lemma TwoOutputs(a: TxOut, b: TxOut)
    ensures ValueOut([a, b]) == a.value + b.value
  {
    assert [a, b][..1] == [a] && [a][..0] == [];
    assert ValueOut([a]) == a.value;
  }

  lemma OneInput(ctx: ConfirmCtx, op: OutPoint)
    requires op in ctx.prevouts
    ensures ValueIn(ctx, [op]) == ctx.prevouts[op].value
  {
    assert [op][..0] == [];
  }

  lemma TwoOwnSilent(op: OutPoint, value: U64, a: U64, b: U64, spk: Spk, codec: Codec)
    requires codec.address(spk).Some? && (a + b) % WORD <= value
    ensures Warnings(OwnOnly(op, value, spk), codec, TwoOwn(op, a, b, spk)) == []
    ensures Fee(OwnOnly(op, value, spk), TwoOwn(op, a, b, spk)) == Some(value - (a + b) % WORD)
  {
    var ctx, tx := OwnOnly(op, value, spk), TwoOwn(op, a, b, spk);
    TwoOwnSums(op, value, a, b, spk);
    assert Recognized(ctx, codec, spk);
    SilentIff(ctx, codec, tx);
  }

  /** One input of 1000 and two own outputs of 2^64 - 1 and 501: no warning and a fee of 500 are
      shown for outputs that exceed the input. */
  lemma SilentOverspend(op: OutPoint, spk: Spk, codec: Codec)
    requires codec.address(spk).Some?
    ensures var ctx, tx := OwnOnly(op, 1000, spk), TwoOwn(op, WORD - 1, 501, spk);
            && Warnings(ctx, codec, tx) == [] && Fee(ctx, tx) == Some(500)
            && ValueOut(tx.outputs) > ValueIn(ctx, tx.inputs) == 1000
  {
    TwoOwnSums(op, 1000, WORD - 1, 501, spk);
    TwoOwnSilent(op, 1000, WORD - 1, 501, spk, codec);
  }
}
