/**
 * Whole-run safety of the signing device, over every interleaving of sign requests, background
 * ceiling writes, floor seeding, recovery dialogs and their confirmation, I/O failures and power
 * loss: exactly which events keep it from ever signing one level and round twice for a key and an
 * operation type.
 */
module NoDoubleSign {
  import opened Prelude
  import opened HighWatermark

  /** A signature that left the device. */
  datatype Signature = Signature(chain: ChainId, pkh: Pkh, op: nat, mark: Mark)

  /**
   * A level the operator is offered, taken from a refused request; `since` is how much had been
   * signed when it was refused.
   */
  datatype Offer = Offer(pkh: Pkh, level: U32, since: nat)

  /** `queue` holds the alerts on their way to the screen, `dialog` the one shown. */
  datatype Device = Device(cells: Cells, log: seq<Signature>, queue: seq<Offer>, dialog: Option<Offer>)

  /**
   * A queued alert is dropped when another modal page is up. A confirmed level is applied as it
   * was offered; signing goes on while the dialog is open.
   */
  datatype Event =
    | Request(q: SignRequest)
    | Ceiling(pkh: Pkh, op: nat, level: U32, w: WriteOutcome)
    | Seed(pkh: Pkh, level: U32, ws: seq<WriteOutcome>)
    | ShowNext(otherModal: bool)
    | Confirm(ws: seq<WriteOutcome>)
    | Dismiss
    | PowerLoss

  /** The request reaches the watermark check. */
  ghost predicate Served(config: Config, cells: Cells, q: SignRequest) {
    q.pkh in cells && q.op < |cells[q.pkh]| && Precheck(config, cells[q.pkh], q.chain, q.mark.level).None?
  }

  /** The refusal raises one of the two recovery dialogs. */
  ghost predicate Alerts(config: Config, cells: Cells, q: SignRequest) {
    q.pkh in cells && q.op < |cells[q.pkh]| &&
    (Precheck(config, cells[q.pkh], q.chain, q.mark.level) == Some(MissingWatermark)
     || Precheck(config, cells[q.pkh], q.chain, q.mark.level) == Some(LargeLevelGap))
  }

  ghost function RequestStep(config: Config, d: Device, q: SignRequest): Device {
    if Served(config, d.cells, q) then
      var (c, signed) := SignCell(d.cells[q.pkh][q.op], q.mark, q.blsOk, q.write, q.undo);
      d.(cells := Put(d.cells, q.pkh, q.op, c), log := if signed then d.log + [Signature(q.chain, q.pkh, q.op, q.mark)] else d.log)
    else if Alerts(config, d.cells, q) then d.(queue := d.queue + [Offer(q.pkh, q.mark.level, |d.log|)])
    else d
  }

  ghost function Reloaded(row: seq<Cell>): (r: seq<Cell>)
    ensures |r| == |row| && forall i | 0 <= i < |r| :: r[i] == Reload(row[i])
  {
    seq(|row|, i requires 0 <= i < |row| => Reload(row[i]))
  }

  ghost function Step(config: Config, d: Device, e: Event): Device {
    match e
    case Request(q) => RequestStep(config, d, q)
    case Ceiling(k, op, level, w) =>
      if k in d.cells && op < |d.cells[k]|
      then d.(cells := Put(d.cells, k, op, CeilingCell(d.cells[k][op], level, w))) else d
    case Seed(k, level, ws) =>
      if k in d.cells then d.(cells := d.cells[k := SeededCells(d.cells[k], level, ws)]) else d
    case ShowNext(otherModal) =>
      if d.queue == [] then d
      else d.(queue := d.queue[1..], dialog := if d.dialog.None? && !otherModal then Some(d.queue[0]) else d.dialog)
    case Confirm(ws) =>
      if d.dialog.Some? && d.dialog.value.pkh in d.cells
      then d.(cells := d.cells[d.dialog.value.pkh := UpdatedCells(d.cells[d.dialog.value.pkh], d.dialog.value.level, ws)]) else d
    case Dismiss => d.(dialog := None)
    case PowerLoss => Device(map k | k in d.cells :: Reloaded(d.cells[k]), d.log, [], None)
  }

  ghost function Run(config: Config, d: Device, es: seq<Event>): Device
    decreases |es|
  {
    if es == [] then d else Run(config, Step(config, d, es[0]), es[1..])
  }

  /** Every signature is strictly above all earlier ones of the same key and operation type. */
  ghost predicate Increasing(log: seq<Signature>) {
    forall i, j | 0 <= i < j < |log| && log[i].pkh == log[j].pkh && log[i].op == log[j].op ::
      Lt(log[i].mark, log[j].mark)
  }

  ghost function Signed(log: seq<Signature>, pkh: Pkh, op: nat): set<Mark> {
    set s | s in log && s.pkh == pkh && s.op == op :: s.mark
  }

  /** A ceiling the tracker still relies on is really on stable storage. */
  predicate CeilingBacked(c: Cell) {
    c.ceiling.Some? ==> AtMost(c.ceiling.value, c.disk) || AtMost(c.ceiling.value, c.entry)
  }

  /** Both what the device remembers and what it would reload are at or above everything signed. */
  ghost predicate CellSafe(c: Cell, signed: set<Mark>) {
    (forall m | m in signed :: AtMost(m, c.entry) && AtMost(m, c.disk)) && CeilingBacked(c)
  }

  ghost predicate RowSafe(log: seq<Signature>, pkh: Pkh, row: seq<Cell>) {
    |row| == OPS && forall op: nat | op < OPS :: CellSafe(row[op], Signed(log, pkh, op))
  }

  ghost predicate Safe(d: Device) {
    && Increasing(d.log)
    && (forall s | s in d.log :: s.pkh in d.cells && s.op < OPS)
    && (forall k | k in d.cells :: RowSafe(d.log, k, d.cells[k]))
  }

  /** Undoing a ceiling-covered advance reached the file but was reported as failed. */
  predicate TornUndo(c: Cell, m: Mark, blsOk: bool, undo: WriteOutcome) {
    Admits(c, m) && Covers(c, m) && !blsOk && undo.FailedNew?
  }

  /** A mark above the new floor has been signed already. */
  ghost predicate Undercuts(signed: set<Mark>, level: U32) {
    exists m | m in signed :: Lt(Mark(level, 0), m)
  }

  /** A ceiling above the new floor stays in force although the file does not hold it. */
  predicate LeavesCeilingBare(c: Cell, level: U32, reached: bool, w: WriteOutcome) {
    && c.ceiling.Some? && Lt(Mark(level, 0), c.ceiling.value)
    && ((reached && w.FailedNew?) || (!(reached && w.Synced?) && !AtMost(c.ceiling.value, c.disk)))
  }

  ghost predicate FloorsHold(log: seq<Signature>, k: Pkh, row: seq<Cell>, level: U32, ws: seq<WriteOutcome>) {
    forall i: nat | i < |row| ::
      !Undercuts(Signed(log, k, i), level) && !LeavesCeilingBare(row[i], level, Reached(ws, i), OutcomeAt(ws, i))
  }

  /**
   * What an event must not do: undo a covered advance through a torn write, or move a floor below
   * a signed mark or below a ceiling that is no longer on file.
   */
  ghost predicate Harmless(config: Config, d: Device, e: Event) {
    match e
    case Request(q) =>
      Served(config, d.cells, q) ==> !TornUndo(d.cells[q.pkh][q.op], q.mark, q.blsOk, q.undo)
    case Seed(k, level, ws) =>
      k in d.cells && !AtOrAbove(MaxLevel(d.cells[k]), level) ==> FloorsHold(d.log, k, d.cells[k], level, ws)
    case Confirm(ws) =>
      d.dialog.Some? && d.dialog.value.pkh in d.cells ==>
        FloorsHold(d.log, d.dialog.value.pkh, d.cells[d.dialog.value.pkh], d.dialog.value.level, ws)
    case _ => true
  }

  // ---------------------------------------------------------------------------
  // One slot
  // ---------------------------------------------------------------------------

  /** A request keeps the slot safe unless its undo is torn, and never signs at or below a past mark. */
  lemma SignCellExact(c: Cell, signed: set<Mark>, m: Mark, blsOk: bool, write: WriteOutcome, undo: WriteOutcome)
    requires CellSafe(c, signed)
    ensures var (c', ok) := SignCell(c, m, blsOk, write, undo);
            && (CellSafe(c', if ok then signed + {m} else signed) <==> !TornUndo(c, m, blsOk, undo))
            && (ok ==> forall x | x in signed :: Lt(x, m))
  {
  }

  lemma CeilingCellSafe(c: Cell, signed: set<Mark>, level: U32, w: WriteOutcome)
    requires CellSafe(c, signed)
    ensures CellSafe(CeilingCell(c, level, w), signed)
  {
  }

  /** Moving a slot's floor to any level keeps it safe exactly when it neither undercuts nor bares a ceiling. */
  lemma UpdatedCellExact(c: Cell, signed: set<Mark>, level: U32, reached: bool, w: WriteOutcome)
    requires CellSafe(c, signed)
    ensures CellSafe(UpdatedCell(c, level, reached, w), signed) <==>
              !Undercuts(signed, level) && !LeavesCeilingBare(c, level, reached, w)
  {
    var c' := UpdatedCell(c, level, reached, w);
    if !Undercuts(signed, level) {
      forall m | m in signed
        ensures AtMost(m, c'.entry) && AtMost(m, c'.disk)
      {
        assert AtMost(m, c.entry) && AtMost(m, c.disk) && !Lt(Mark(level, 0), m);
      }
    }
  }

  // ---------------------------------------------------------------------------
  // One step
  // ---------------------------------------------------------------------------

  lemma SignedAppend(log: seq<Signature>, s: Signature, pkh: Pkh, op: nat)
    ensures Signed(log + [s], pkh, op) == Signed(log, pkh, op) + if s.pkh == pkh && s.op == op then {s.mark} else {}
  {
  }

  lemma RequestExact(config: Config, d: Device, q: SignRequest)
    requires Safe(d)
    ensures Safe(Step(config, d, Request(q))) <==> Harmless(config, d, Request(q))
  {
    if Served(config, d.cells, q) {
      var d' := Step(config, d, Request(q));
      var c := d.cells[q.pkh][q.op];
      assert RowSafe(d.log, q.pkh, d.cells[q.pkh]);
      var signed := Signed(d.log, q.pkh, q.op);
      SignCellExact(c, signed, q.mark, q.blsOk, q.write, q.undo);
      var (c', ok) := SignCell(c, q.mark, q.blsOk, q.write, q.undo);
      var s := Signature(q.chain, q.pkh, q.op, q.mark);
      forall k, op: nat
        ensures Signed(d'.log, k, op) == Signed(d.log, k, op) + if ok && k == q.pkh && op == q.op then {q.mark} else {}
      {
        SignedAppend(d.log, s, k, op);
      }
      assert d'.cells[q.pkh][q.op] == c';
      if !TornUndo(c, q.mark, q.blsOk, q.undo) {
        forall k | k in d'.cells
          ensures RowSafe(d'.log, k, d'.cells[k])
        {
          assert RowSafe(d.log, k, d.cells[k]);
          forall op: nat | op < OPS
            ensures CellSafe(d'.cells[k][op], Signed(d'.log, k, op))
          {
            assert CellSafe(d.cells[k][op], Signed(d.log, k, op));
          }
        }
        assert Increasing(d'.log) by {
          forall i | 0 <= i < |d.log| && d.log[i].pkh == q.pkh && d.log[i].op == q.op
            ensures ok ==> Lt(d.log[i].mark, q.mark)
          {
            assert d.log[i].mark in signed;
          }
        }
      } else {
        assert !RowSafe(d'.log, q.pkh, d'.cells[q.pkh]);
      }
    }
  }

  lemma CeilingStepSafe(config: Config, d: Device, e: Event)
    requires Safe(d) && e.Ceiling?
    ensures Safe(Step(config, d, e))
  {
  }

  lemma UpdateExact(d: Device, d': Device, k: Pkh, level: U32, ws: seq<WriteOutcome>)
    requires Safe(d) && k in d.cells
    requires d' == d.(cells := d.cells[k := UpdatedCells(d.cells[k], level, ws)])
    ensures Safe(d') <==> FloorsHold(d.log, k, d.cells[k], level, ws)
  {
    var row, row' := d.cells[k], d'.cells[k];
    assert RowSafe(d.log, k, row);
    forall i: nat | i < OPS
      ensures CellSafe(row'[i], Signed(d.log, k, i)) <==>
                !Undercuts(Signed(d.log, k, i), level) && !LeavesCeilingBare(row[i], level, Reached(ws, i), OutcomeAt(ws, i))
    {
      UpdatedCellExact(row[i], Signed(d.log, k, i), level, Reached(ws, i), OutcomeAt(ws, i));
    }
    assert RowSafe(d'.log, k, row') <==> FloorsHold(d.log, k, row, level, ws);
    assert forall j | j in d.cells && j != k :: RowSafe(d.log, j, d.cells[j]);
  }

  lemma PowerLossSafe(config: Config, d: Device)
    requires Safe(d)
    ensures Safe(Step(config, d, PowerLoss))
  {
  }

  /** Safety is kept by exactly the harmless events, whatever the signer, the storage and the operator do. */
  lemma StepExact(config: Config, d: Device, e: Event)
    requires Safe(d)
    ensures Safe(Step(config, d, e)) <==> Harmless(config, d, e)
  {
    match e
    case Request(q) => RequestExact(config, d, q);
    case Ceiling(_, _, _, _) => CeilingStepSafe(config, d, e);
    case Seed(k, level, ws) =>
      if k in d.cells {
        if AtOrAbove(MaxLevel(d.cells[k]), level) {
          assert d.cells[k := d.cells[k]] == d.cells;
        } else {
          UpdateExact(d, Step(config, d, e), k, level, ws);
        }
      }
    case Confirm(ws) =>
      if d.dialog.Some? && d.dialog.value.pkh in d.cells {
        UpdateExact(d, Step(config, d, e), d.dialog.value.pkh, d.dialog.value.level, ws);
      }
    case ShowNext(_) =>
    case Dismiss =>
    case PowerLoss => PowerLossSafe(config, d);
  }

  /** Seeding never undercuts: only a ceiling left bare by a torn write can hurt. */
  lemma SeedExact(config: Config, d: Device, k: Pkh, level: U32, ws: seq<WriteOutcome>)
    requires Safe(d) && k in d.cells && !AtOrAbove(MaxLevel(d.cells[k]), level)
    ensures Harmless(config, d, Seed(k, level, ws)) <==>
              forall i: nat | i < OPS && Reached(ws, i) && OutcomeAt(ws, i).FailedNew? ::
                d.cells[k][i].ceiling.Some? ==> Le(d.cells[k][i].ceiling.value, Mark(level, 0))
  {
    var row := d.cells[k];
    assert RowSafe(d.log, k, row);
    forall i: nat | i < OPS
      ensures !Undercuts(Signed(d.log, k, i), level)
      ensures LeavesCeilingBare(row[i], level, Reached(ws, i), OutcomeAt(ws, i)) <==>
                (Reached(ws, i) && OutcomeAt(ws, i).FailedNew? && row[i].ceiling.Some? && Lt(Mark(level, 0), row[i].ceiling.value))
    {
      assert CellSafe(row[i], Signed(d.log, k, i));
    }
  }

  // ---------------------------------------------------------------------------
  // When a confirmation is stale
  // ---------------------------------------------------------------------------

  /** Everything of the key that was signed before the offer lies below it. */
  ghost predicate DatedOffer(log: seq<Signature>, o: Offer) {
    o.since <= |log| && forall i | 0 <= i < o.since && log[i].pkh == o.pkh :: Lt(log[i].mark, Mark(o.level, 0))
  }

  ghost predicate Dated(d: Device) {
    (forall o | o in d.queue :: DatedOffer(d.log, o)) && (d.dialog.Some? ==> DatedOffer(d.log, d.dialog.value))
  }

  /** A refused request offers a level above everything its key has signed. */
  lemma OfferIsAbove(config: Config, d: Device, q: SignRequest)
    requires Safe(d) && Alerts(config, d.cells, q)
    ensures DatedOffer(d.log, Offer(q.pkh, q.mark.level, |d.log|))
  {
    var row := d.cells[q.pkh];
    assert RowSafe(d.log, q.pkh, row);
    forall i | 0 <= i < |d.log| && d.log[i].pkh == q.pkh
      ensures Lt(d.log[i].mark, Mark(q.mark.level, 0))
    {
      var s := d.log[i];
      assert s in d.log && s.mark in Signed(d.log, q.pkh, s.op);
      assert CellSafe(row[s.op], Signed(d.log, q.pkh, s.op));
      assert row[s.op].entry.Some?;
    }
  }

  lemma StepDates(config: Config, d: Device, e: Event)
    requires Safe(d) && Dated(d)
    ensures Dated(Step(config, d, e))
  {
    var d' := Step(config, d, e);
    if e.Request? && Alerts(config, d.cells, e.q) {
      OfferIsAbove(config, d, e.q);
    }
    assert d.log <= d'.log;
    forall o | DatedOffer(d.log, o)
      ensures DatedOffer(d'.log, o)
    {
    }
  }

  /** Nothing signed for the key lies above the level, slot by slot or over the log. */
  lemma NothingUndercut(log: seq<Signature>, k: Pkh, level: U32)
    requires forall s | s in log && s.pkh == k :: s.op < OPS
    ensures (forall op: nat | op < OPS :: !Undercuts(Signed(log, k, op), level)) <==>
              forall i | 0 <= i < |log| && log[i].pkh == k :: Le(log[i].mark, Mark(level, 0))
  {
    if forall op: nat | op < OPS :: !Undercuts(Signed(log, k, op), level) {
      forall i | 0 <= i < |log| && log[i].pkh == k
        ensures Le(log[i].mark, Mark(level, 0))
      {
        assert log[i] in log && log[i].mark in Signed(log, k, log[i].op);
      }
    }
  }

  lemma SyncedFloorsHold(log: seq<Signature>, k: Pkh, row: seq<Cell>, level: U32, ws: seq<WriteOutcome>)
    requires |row| == OPS && Reached(ws, OPS)
    ensures FloorsHold(log, k, row, level, ws) <==> forall op: nat | op < OPS :: !Undercuts(Signed(log, k, op), level)
  {
    assert forall i: nat | i < OPS :: Reached(ws, i) && OutcomeAt(ws, i).Synced?;
  }

  /**
   * A confirmation whose writes succeed is safe exactly when, since the offered request was
   * refused, its key has signed nothing above the offered level.
   */
  lemma ConfirmExact(config: Config, d: Device, ws: seq<WriteOutcome>)
    requires Safe(d) && Dated(d) && d.dialog.Some? && d.dialog.value.pkh in d.cells && Reached(ws, OPS)
    ensures var o := d.dialog.value;
            Safe(Step(config, d, Confirm(ws))) <==>
              forall i | o.since <= i < |d.log| && d.log[i].pkh == o.pkh :: Le(d.log[i].mark, Mark(o.level, 0))
  {
    var o := d.dialog.value;
    assert RowSafe(d.log, o.pkh, d.cells[o.pkh]);
    StepExact(config, d, Confirm(ws));
    SyncedFloorsHold(d.log, o.pkh, d.cells[o.pkh], o.level, ws);
    NothingUndercut(d.log, o.pkh, o.level);
    assert DatedOffer(d.log, o);
  }

  // ---------------------------------------------------------------------------
  // Whole runs
  // ---------------------------------------------------------------------------

  /** Every event of the run is harmless where it happens. */
  ghost predicate Clean(config: Config, d: Device, es: seq<Event>)
    decreases |es|
  {
    es == [] || (Harmless(config, d, es[0]) && Clean(config, Step(config, d, es[0]), es[1..]))
  }

  /** A device that has signed nothing and was just loaded from any stored marks. */
  ghost predicate Fresh(d: Device) {
    d.log == [] && d.queue == [] && d.dialog.None? && forall k | k in d.cells :: |d.cells[k]| == OPS && forall c | c in d.cells[k] :: c == Reload(c)
  }

  lemma FreshIsSafe(d: Device)
    requires Fresh(d)
    ensures Safe(d)
  {
    forall k | k in d.cells
      ensures RowSafe(d.log, k, d.cells[k])
    {
      forall op: nat | op < OPS
        ensures CellSafe(d.cells[k][op], Signed(d.log, k, op))
      {
        assert d.cells[k][op] in d.cells[k];
      }
    }
  }

  lemma {:induction false} RunSafe(config: Config, d: Device, es: seq<Event>)
    requires Safe(d) && Dated(d) && Clean(config, d, es)
    ensures Safe(Run(config, d, es)) && Dated(Run(config, d, es))
    decreases |es|
  {
    if es != [] {
      StepExact(config, d, es[0]);
      StepDates(config, d, es[0]);
      RunSafe(config, Step(config, d, es[0]), es[1..]);
    }
  }

  /** No level and round is ever signed twice for the same key and operation type. */
  lemma NeverSignsTwice(config: Config, d: Device, es: seq<Event>, i: nat, j: nat)
    requires Fresh(d) && Clean(config, d, es)
    requires i < j < |Run(config, d, es).log|
    ensures var log := Run(config, d, es).log;
            log[i].pkh == log[j].pkh && log[i].op == log[j].op ==> Lt(log[i].mark, log[j].mark)
  {
    FreshIsSafe(d);
    RunSafe(config, d, es);
  }

  /** Every signature of a run, whatever fails and whatever the operator does, is for the device's own chain. */
  lemma {:induction false} OnlyOwnChain(config: Config, d: Device, es: seq<Event>)
    requires forall s | s in d.log :: s.chain == config.chain
    ensures forall s | s in Run(config, d, es).log :: s.chain == config.chain
    decreases |es|
  {
    if es != [] {
      if es[0].Request? && es[0].q.pkh in d.cells {
        PrecheckExact(config, d.cells[es[0].q.pkh], es[0].q.chain, es[0].q.mark.level);
      }
      OnlyOwnChain(config, Step(config, d, es[0]), es[1..]);
    }
  }

  /** A request whose mark is above the entry, on the device's chain and near enough to it. */
  ghost predicate Acceptable(config: Config, d: Device, q: SignRequest) {
    q.pkh in d.cells && q.op < |d.cells[q.pkh]| && Screened(config, d.cells, q) && Above(q.mark, d.cells[q.pkh][q.op].entry) && q.blsOk
  }

  /** What a ceiling is for: a mark it covers is signed without waiting for storage, whatever a write would have done. */
  lemma CeilingSpeedsUp(config: Config, d: Device, level: U32, q: SignRequest)
    requires Acceptable(config, d, q) && q.mark.level <= level && d.cells[q.pkh][q.op].entry.value.level < level
    requires d.cells[q.pkh][q.op].ceiling.Some? ==> d.cells[q.pkh][q.op].ceiling.value.round == U32_MAX
    ensures Step(config, Step(config, d, Ceiling(q.pkh, q.op, level, Synced)), Request(q)).log == d.log + [Signature(q.chain, q.pkh, q.op, q.mark)]
  {
    var d1 := Step(config, d, Ceiling(q.pkh, q.op, level, Synced));
    var row, row1 := d.cells[q.pkh], d1.cells[q.pkh];
    assert |row1| == |row| && forall i | 0 <= i < |row| :: row1[i].entry == row[i].entry;
    PrecheckExact(config, row, q.chain, q.mark.level);
    PrecheckExact(config, row1, q.chain, q.mark.level);
  }

  /** And what it costs: after a power loss nothing at or below its level is signed any more. */
  lemma CeilingBlocksItsLevel(config: Config, d: Device, level: U32, q: SignRequest)
    requires q.pkh in d.cells && q.op < |d.cells[q.pkh]| && q.mark.level <= level
    requires var c := d.cells[q.pkh][q.op]; c.entry.Some? && c.entry.value.level < level && c.ceiling.None?
    ensures var d' := Step(config, Step(config, d, Ceiling(q.pkh, q.op, level, Synced)), PowerLoss);
            Step(config, d', Request(q)).log == d.log
  {
  }

  /** An alert is raised exactly by a request of a known key on the device's chain that no mark, or none near enough, admits. */
  lemma OffersIff(config: Config, d: Device, q: SignRequest)
    requires q.pkh in d.cells ==> q.op < |d.cells[q.pkh]|
    ensures Step(config, d, Request(q)).queue ==
              if && q.pkh in d.cells && q.chain == config.chain
                 && ((config.missingAlert && Unmarked(d.cells[q.pkh])) || TooFarAhead(config, d.cells[q.pkh], q.mark.level))
              then d.queue + [Offer(q.pkh, q.mark.level, |d.log|)] else d.queue
  {
    if q.pkh in d.cells {
      PrecheckExact(config, d.cells[q.pkh], q.chain, q.mark.level);
    }
  }

  /** What is shown is the oldest alert, and once dismissed or after a power loss there is nothing to confirm. */
  lemma NothingToConfirm(config: Config, d: Device, e: Event, ws: seq<WriteOutcome>)
    ensures d.dialog.None? && d.queue != [] && e == ShowNext(false) ==> Step(config, d, e).dialog == Some(d.queue[0])
    ensures e.Dismiss? || e.PowerLoss? ==>
              Step(config, Step(config, d, e), Confirm(ws)) == Step(config, d, e)
    ensures e.PowerLoss? ==> forall more :: Step(config, Step(config, d, e), ShowNext(more)).dialog.None?
  {
  }

  /** An open dialog stays, with the level it was raised with, until it is dismissed or power is lost. */
  lemma DialogStays(config: Config, d: Device, e: Event)
    requires d.dialog.Some? && !e.Dismiss? && !e.PowerLoss?
    ensures Step(config, d, e).dialog == d.dialog
  {
  }

  // ---------------------------------------------------------------------------
  // The condition is needed: each kind of harmful event can repeat a signature
  // ---------------------------------------------------------------------------

  /** A request for a slot with nothing failing. */
  ghost function PlainRequest(config: Config, k: Pkh, op: nat, m: Mark): Event {
    Request(SignRequest(config.chain, k, op, m, true, Synced, Synced))
  }

  /** The prechecks let the level through, with whichever alerts are installed. */
  ghost predicate Passes(config: Config, row: seq<Cell>, level: U32) {
    Precheck(config, row, config.chain, level).None?
  }

  lemma RunTwo(config: Config, d: Device, a: Event, b: Event)
    ensures Run(config, d, [a, b]) == Step(config, Step(config, d, a), b)
  {
    assert [a, b][1..] == [b] && [b][1..] == [];
    assert Run(config, Step(config, d, a), [b]) == Run(config, Step(config, Step(config, d, a), b), []);
  }

  lemma RunThree(config: Config, d: Device, a: Event, b: Event, c: Event)
    ensures Run(config, d, [a, b, c]) == Step(config, Step(config, Step(config, d, a), b), c)
  {
    assert [a, b, c][1..] == [b, c];
    RunTwo(config, Step(config, d, a), b, c);
  }

  /** A ceiling that neither memory nor storage backs: request, power loss, request sign one mark twice. */
  lemma UnbackedCeilingRepeats(config: Config, d: Device, k: Pkh, op: nat)
    requires k in d.cells && op < |d.cells[k]| && !CeilingBacked(d.cells[k][op])
    requires d.cells[k][op].entry.Some? && d.cells[k][op].disk.Some?
    requires Passes(config, d.cells[k], d.cells[k][op].ceiling.value.level)
    requires Passes(config, Reloaded(d.cells[k]), d.cells[k][op].ceiling.value.level)
    ensures var m := d.cells[k][op].ceiling.value;
            var request := PlainRequest(config, k, op, m);
            Run(config, d, [request, PowerLoss, request]).log
              == d.log + [Signature(config.chain, k, op, m), Signature(config.chain, k, op, m)]
  {
    var m := d.cells[k][op].ceiling.value;
    var request := PlainRequest(config, k, op, m);
    var d1 := Step(config, d, request);
    assert d1.log == d.log + [Signature(config.chain, k, op, m)];
    var d2 := Step(config, d1, PowerLoss);
    assert d2.cells[k] == Reloaded(d.cells[k]);
    assert Step(config, d2, request).log == d1.log + [Signature(config.chain, k, op, m)];
    RunThree(config, d, request, PowerLoss, request);
  }

  lemma UnbackedCeilingBreaks(config: Config, d: Device, k: Pkh, op: nat)
    requires k in d.cells && op < |d.cells[k]| && !CeilingBacked(d.cells[k][op])
    requires d.cells[k][op].entry.Some? && d.cells[k][op].disk.Some?
    requires Passes(config, d.cells[k], d.cells[k][op].ceiling.value.level)
    requires Passes(config, Reloaded(d.cells[k]), d.cells[k][op].ceiling.value.level)
    ensures exists more: seq<Event> :: !Increasing(Run(config, d, more).log)
  {
    UnbackedCeilingRepeats(config, d, k, op);
    var request := PlainRequest(config, k, op, d.cells[k][op].ceiling.value);
    var log := Run(config, d, [request, PowerLoss, request]).log;
    assert log[|log| - 2] == log[|log| - 1] && !Lt(log[|log| - 1].mark, log[|log| - 1].mark);
  }

  /** Every torn undo, from every safe state, has a continuation that signs one mark twice. */
  lemma TornUndoRepeats(config: Config, d: Device, q: SignRequest)
    requires Safe(d) && Served(config, d.cells, q) && !Harmless(config, d, Request(q))
    requires var row := Step(config, d, Request(q)).cells[q.pkh];
             Passes(config, row, row[q.op].ceiling.value.level) && Passes(config, Reloaded(row), row[q.op].ceiling.value.level)
    ensures exists more: seq<Event> :: !Increasing(Run(config, Step(config, d, Request(q)), more).log)
  {
    var d' := Step(config, d, Request(q));
    assert !CeilingBacked(d'.cells[q.pkh][q.op]);
    UnbackedCeilingBreaks(config, d', q.pkh, q.op);
  }

  /** So has every floor, seeded or confirmed, that leaves a ceiling bare. */
  lemma BareCeilingRepeats(config: Config, d: Device, k: Pkh, op: nat, level: U32, ws: seq<WriteOutcome>, d': Device)
    requires k in d.cells && op < |d.cells[k]| && LeavesCeilingBare(d.cells[k][op], level, Reached(ws, op), OutcomeAt(ws, op))
    requires d' == d.(cells := d.cells[k := UpdatedCells(d.cells[k], level, ws)]) && d'.cells[k][op].disk.Some?
    requires var row, top := d'.cells[k], d.cells[k][op].ceiling.value.level;
             Passes(config, row, top) && Passes(config, Reloaded(row), top)
    ensures exists more: seq<Event> :: !Increasing(Run(config, d', more).log)
  {
    assert !CeilingBacked(d'.cells[k][op]);
    UnbackedCeilingBreaks(config, d', k, op);
  }

  /** And every confirmation below a signed mark: that mark is signed again. */
  lemma StaleConfirmRepeats(config: Config, d: Device, op: nat, ws: seq<WriteOutcome>, m: Mark)
    requires d.dialog.Some? && d.dialog.value.pkh in d.cells && op < |d.cells[d.dialog.value.pkh]|
    requires m in Signed(d.log, d.dialog.value.pkh, op) && Lt(Mark(d.dialog.value.level, 0), m)
    requires Passes(config, UpdatedCells(d.cells[d.dialog.value.pkh], d.dialog.value.level, ws), m.level)
    ensures !Increasing(Run(config, d, [Confirm(ws), PlainRequest(config, d.dialog.value.pkh, op, m)]).log)
  {
    var k, request := d.dialog.value.pkh, PlainRequest(config, d.dialog.value.pkh, op, m);
    var d1 := Step(config, d, Confirm(ws));
    assert d1.cells[k][op].entry == Some(Mark(d.dialog.value.level, 0));
    var d2 := Step(config, d1, request);
    assert d2.log == d.log + [Signature(config.chain, k, op, m)];
    RunTwo(config, d, Confirm(ws), request);
    var i :| 0 <= i < |d.log| && d.log[i].pkh == k && d.log[i].op == op && d.log[i].mark == m;
    assert d2.log[i] == d.log[i] && d2.log[|d.log|].mark == m && !Lt(m, m);
  }

  // ---------------------------------------------------------------------------
  // A dialog that goes stale
  // ---------------------------------------------------------------------------

  lemma MaxIs(row: seq<Cell>, i: nat, level: U32)
    requires i < |row| && row[i].entry.Some? && row[i].entry.value.level == level
    requires forall j | 0 <= j < |row| && row[j].entry.Some? :: row[j].entry.value.level <= level
    ensures MaxLevel(row) == Some(level)
  {
  }

  function At(level: U32): Cell {
    Cell(Some(Mark(level, 0)), None, Some(Mark(level, 0)))
  }

  function Threshold(blocksPerCycle: U32): nat {
    (LARGE_GAP_CYCLES * blocksPerCycle) % (U32_MAX + 1)
  }

  /** With the gap alert installed, a request above the key's highest level by at most the threshold is signed. */
  lemma SignsWithin(config: Config, d: Device, k: Pkh, top: U32, level: U32)
    requires config.gapAlert && config.blocksPerCycle.Some? && config.blocksPerCycle.value > 0
    requires k in d.cells && |d.cells[k]| == OPS && d.cells[k][0] == At(top)
    requires forall j | 0 <= j < OPS :: d.cells[k][j].entry.Some? && d.cells[k][j].entry.value.level <= top
    requires top < level && level - top <= Threshold(config.blocksPerCycle.value)
    ensures Step(config, d, PlainRequest(config, k, 0, Mark(level, 0))) ==
              d.(cells := Put(d.cells, k, 0, At(level)), log := d.log + [Signature(config.chain, k, 0, Mark(level, 0))])
  {
    MaxIs(d.cells[k], 0, top);
  }

  ghost function Floored(k: Pkh, floor: U32): Device {
    Device(map[k := [At(floor), At(floor), At(floor)]], [], [], None)
  }

  /** A request too far ahead ends up in the dialog. */
  lemma DialogOpens(config: Config, k: Pkh, floor: U32, offered: U32)
    requires config.gapAlert && config.blocksPerCycle.Some? && config.blocksPerCycle.value > 0
    requires floor < offered && offered - floor > Threshold(config.blocksPerCycle.value)
    ensures Run(config, Floored(k, floor), [PlainRequest(config, k, 0, Mark(offered, 0)), ShowNext(false)])
         == Floored(k, floor).(dialog := Some(Offer(k, offered, 0)))
  {
    var d, ask := Floored(k, floor), PlainRequest(config, k, 0, Mark(offered, 0));
    MaxIs(d.cells[k], 0, floor);
    assert Step(config, d, ask) == d.(queue := [Offer(k, offered, 0)]);
    RunTwo(config, d, ask, ShowNext(false));
  }

  /** Confirming resets all three slots to the offered level. */
  lemma ConfirmResets(config: Config, d: Device, k: Pkh, offered: U32)
    requires d.dialog.Some? && d.dialog.value.pkh == k && d.dialog.value.level == offered && k in d.cells
    ensures var d' := Step(config, d, Confirm([]));
            k in d'.cells && |d'.cells[k]| == |d.cells[k]| && d'.log == d.log
            && forall j | 0 <= j < |d.cells[k]| :: d'.cells[k][j] == At(offered)
  {
  }

  /**
   * With both alerts on and no write failing: a request too far ahead raises the dialog, the baker
   * catches up past the offered level while it is open, and confirming it lets the last mark be
   * signed again.
   */
  lemma StaleDialogRun(config: Config, k: Pkh, floor: U32, offered: U32, near: U32, far: U32)
    requires config.gapAlert && config.missingAlert && config.blocksPerCycle.Some? && config.blocksPerCycle.value > 0
    requires floor < near < far && floor < offered < far
    requires var t := Threshold(config.blocksPerCycle.value);
             offered - floor > t && near - floor <= t && far - near <= t && far - offered <= t
    ensures var sign1, sign2 := PlainRequest(config, k, 0, Mark(near, 0)), PlainRequest(config, k, 0, Mark(far, 0));
            var shown := Run(config, Floored(k, floor), [PlainRequest(config, k, 0, Mark(offered, 0)), ShowNext(false)]);
            Run(config, Run(config, shown, [sign1, sign2]), [Confirm([]), sign2]).log
              == [Signature(config.chain, k, 0, Mark(near, 0)), Signature(config.chain, k, 0, Mark(far, 0)), Signature(config.chain, k, 0, Mark(far, 0))]
  {
    var sign1, sign2 := PlainRequest(config, k, 0, Mark(near, 0)), PlainRequest(config, k, 0, Mark(far, 0));
    DialogOpens(config, k, floor, offered);
    var d2 := Floored(k, floor).(dialog := Some(Offer(k, offered, 0)));
    SignsWithin(config, d2, k, floor, near);
    var d3 := Step(config, d2, sign1);
    SignsWithin(config, d3, k, near, far);
    var d4 := Step(config, d3, sign2);
    RunTwo(config, d2, sign1, sign2);
    ConfirmResets(config, d4, k, offered);
    var d5 := Step(config, d4, Confirm([]));
    SignsWithin(config, d5, k, offered, far);
    RunTwo(config, d4, Confirm([]), sign2);
  }

  lemma RepeatIsNotIncreasing(log: seq<Signature>, i: nat, j: nat)
    requires i < j < |log| && log[i] == log[j]
    ensures !Increasing(log)
  {
    assert !Lt(log[i].mark, log[j].mark);
  }

  /** For instance, with ten blocks per cycle. */
  lemma StaleDialogExists(config: Config, k: Pkh)
    requires config.gapAlert && config.missingAlert && config.blocksPerCycle == Some(10)
    ensures exists d: Device, es: seq<Event> :: Fresh(d) && !Increasing(Run(config, d, es).log)
  {
    StaleDialogRun(config, k, 100, 141, 130, 165);
    var d := Floored(k, 100);
    var sign1, sign2 := PlainRequest(config, k, 0, Mark(130, 0)), PlainRequest(config, k, 0, Mark(165, 0));
    var opening := [PlainRequest(config, k, 0, Mark(141, 0)), ShowNext(false)];
    RunConcat(config, d, opening, [sign1, sign2]);
    RunConcat(config, d, opening + [sign1, sign2], [Confirm([]), sign2]);
    RepeatIsNotIncreasing(Run(config, d, opening + [sign1, sign2] + [Confirm([]), sign2]).log, 1, 2);
    assert Fresh(d);
  }

  lemma {:induction false} RunConcat(config: Config, d: Device, es: seq<Event>, more: seq<Event>)
    ensures Run(config, d, es + more) == Run(config, Run(config, d, es), more)
    decreases |es|
  {
    if es == [] {
      assert es + more == more;
    } else {
      assert (es + more)[1..] == es[1..] + more;
      RunConcat(config, Step(config, d, es[0]), es[1..], more);
    }
  }
}
