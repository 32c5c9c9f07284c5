/**
 * The device's high-watermark tracker and the signing request that drives it
 * (libs/signer/src/high_watermark.rs, libs/signer/src/server.rs).
 *
 * Functions describe one watermark slot (one key, one operation type) and one key's three
 * slots; the classes at the end update them in place and are proved against these functions.
 */
module HighWatermark {
  import opened Prelude

  type Pkh = string
  type ChainId = string

  /** A watermark entry, ordered by level and then round. */
  datatype Mark = Mark(level: U32, round: U32)

  predicate Lt(a: Mark, b: Mark) {
    a.level < b.level || (a.level == b.level && a.round < b.round)
  }

  predicate Le(a: Mark, b: Mark) {
    a == b || Lt(a, b)
  }

  /** `Le` lifted to a possibly absent upper bound: an absent mark is above nothing. */
  predicate AtMost(a: Mark, b: Option<Mark>) {
    b.Some? && Le(a, b.value)
  }

  /**
   * One slot: the in-memory entry, the ceiling believed to be on stable storage, and the mark
   * that stable storage really holds (`None` for an empty or unauthenticated file).
   */
  datatype Cell = Cell(entry: Option<Mark>, ceiling: Option<Mark>, disk: Option<Mark>)

  /**
   * How one pwrite + fdatasync ends. A mark is 72 bytes at offset 0 and is replaced as a whole;
   * a failed call may leave the old mark or the new one.
   */
  datatype WriteOutcome = Synced | FailedOld | FailedNew

  /** Persisting a mark: on success the tracker also drops its ceiling. */
  function Persist(c: Cell, m: Mark, w: WriteOutcome): Cell {
    match w
    case Synced => c.(disk := Some(m), ceiling := None)
    case FailedOld => c
    case FailedNew => c.(disk := Some(m))
  }

  predicate Admits(c: Cell, m: Mark) {
    c.entry.Some? && Lt(c.entry.value, m)
  }

  predicate Covers(c: Cell, m: Mark) {
    AtMost(m, c.ceiling)
  }

  /** One admitted or refused signing request on a slot; the flag says whether a signature left the device. */
  function SignCell(c: Cell, m: Mark, blsOk: bool, write: WriteOutcome, undo: WriteOutcome): (Cell, bool) {
    if !Admits(c, m) then (c, false)
    else
      var advanced := c.(entry := Some(m));
      var covered := Covers(c, m);
      var written := if covered then advanced else Persist(advanced, m, write);
      var writeOk := covered || write.Synced?;
      if blsOk && writeOk then (written, true)
      else
        var restored := written.(entry := c.entry);
        if !blsOk && writeOk then (Persist(restored, c.entry.value, undo), false) else (restored, false)
  }

  /** The background write of the ceiling `(level, u32::MAX)`. */
  function CeilingCell(c: Cell, level: U32, w: WriteOutcome): Cell {
    if c.entry.Some? && c.entry.value.level >= level then c
    else if c.ceiling.Some? && c.ceiling.value.level >= level then c
    else
      var top := Mark(level, U32_MAX);
      match w
      case Synced => c.(disk := Some(top), ceiling := Some(top))
      case FailedOld => c
      case FailedNew => c.(disk := Some(top))
  }

  /** Power loss and restart: memory is rebuilt from stable storage, with no ceiling. */
  function Reload(c: Cell): Cell {
    Cell(c.disk, None, c.disk)
  }

  /** The three operation types a key is tracked for. */
  const OPS: nat := 3

  function OutcomeAt(ws: seq<WriteOutcome>, i: nat): WriteOutcome {
    if i < |ws| then ws[i] else Synced
  }

  /** Whether the write for slot `i` is attempted: the first failing write ends the update. */
  predicate Reached(ws: seq<WriteOutcome>, i: nat) {
    forall j: nat | j < i :: OutcomeAt(ws, j).Synced?
  }

  function UpdatedCell(c: Cell, level: U32, reached: bool, w: WriteOutcome): Cell {
    var raised := c.(entry := Some(Mark(level, 0)));
    if reached then Persist(raised, Mark(level, 0), w) else raised
  }

  /** `update_to_level`: every entry moves first, then the files are written in order. */
  ghost function UpdatedCells(cells: seq<Cell>, level: U32, ws: seq<WriteOutcome>): (r: seq<Cell>)
    ensures |r| == |cells|
    ensures forall i | 0 <= i < |r| :: r[i] == UpdatedCell(cells[i], level, Reached(ws, i), OutcomeAt(ws, i))
  {
    seq(|cells|, i requires 0 <= i < |cells| => UpdatedCell(cells[i], level, Reached(ws, i), OutcomeAt(ws, i)))
  }

  /** The highest level among a key's in-memory entries. */
  function MaxLevel(cells: seq<Cell>): (r: Option<U32>)
    ensures r.None? ==> forall i | 0 <= i < |cells| :: cells[i].entry.None?
    ensures r.Some? ==> exists i | 0 <= i < |cells| :: cells[i].entry.Some? && cells[i].entry.value.level == r.value
    ensures r.Some? ==> forall i | 0 <= i < |cells| && cells[i].entry.Some? :: cells[i].entry.value.level <= r.value
  {
    if cells == [] then None
    else
      var rest := MaxLevel(cells[1..]);
      var head := cells[0].entry;
      assert forall i | 0 < i < |cells| :: cells[i] == cells[1..][i - 1];
      if head.None? then rest
      else if rest.Some? && rest.value > head.value.level then rest
      else assert cells[0].entry.value.level == head.value.level; Some(head.value.level)
  }

  predicate AtOrAbove(floor: Option<U32>, level: U32) {
    floor.Some? && floor.value >= level
  }

  /** `seed_floor`: a staged level is applied only above everything the key already holds. */
  ghost function SeededCells(cells: seq<Cell>, level: U32, ws: seq<WriteOutcome>): (r: seq<Cell>)
    ensures |r| == |cells|
  {
    if AtOrAbove(MaxLevel(cells), level) then cells else UpdatedCells(cells, level, ws)
  }

  /** What the request handler is configured with. */
  datatype Config = Config(chain: ChainId, blocksPerCycle: Option<U32>, gapAlert: bool, missingAlert: bool)

  /** The refusals of a signing request, in the order the handler checks them. */
  datatype Refusal =
    | ChainMismatch
    | UnknownKey
    | MissingWatermark
    | LargeLevelGap
    | NotInitialized
    | LevelTooLow
    | RoundTooLow
    | WriteFailed
    | BlsFailed

  /** The prechecks that run before the tracker's write lock is taken. */
  function Precheck(config: Config, cells: seq<Cell>, chain: ChainId, level: U32): Option<Refusal> {
    if chain != config.chain then Some(ChainMismatch)
    else
      var current := MaxLevel(cells);
      if current.None? then (if config.missingAlert then Some(MissingWatermark) else None)
      else if config.gapAlert && config.blocksPerCycle.Some? && config.blocksPerCycle.value > 0
              // u32 multiplication, wrapping in a release build
              && SaturatingSub(level, current.value) > (LARGE_GAP_CYCLES * config.blocksPerCycle.value) % (U32_MAX + 1)
      then Some(LargeLevelGap)
      else None
  }

  /** The key holds no mark at all. */
  ghost predicate Unmarked(row: seq<Cell>) {
    forall i | 0 <= i < |row| :: row[i].entry.None?
  }

  /** With the gap alert installed: every mark of the key lies more than four cycles below the level. */
  ghost predicate TooFarAhead(config: Config, row: seq<Cell>, level: U32) {
    && config.gapAlert && config.blocksPerCycle.Some? && config.blocksPerCycle.value > 0 && !Unmarked(row)
    && forall i | 0 <= i < |row| && row[i].entry.Some? ::
         level - row[i].entry.value.level > (4 * config.blocksPerCycle.value) % 0x1_0000_0000
  }

  /** Each precheck refuses exactly its own case, the foreign chain before anything else. */
  lemma PrecheckExact(config: Config, row: seq<Cell>, chain: ChainId, level: U32)
    ensures var r := Precheck(config, row, chain, level);
            && (r == Some(ChainMismatch) <==> chain != config.chain)
            && (r == Some(MissingWatermark) <==> chain == config.chain && config.missingAlert && Unmarked(row))
            && (r == Some(LargeLevelGap) <==> chain == config.chain && TooFarAhead(config, row, level))
            && (r.Some? ==> r.value == ChainMismatch || r.value == MissingWatermark || r.value == LargeLevelGap)
  {
    var current := MaxLevel(row);
    if current.Some? {
      var i :| 0 <= i < |row| && row[i].entry.Some? && row[i].entry.value.level == current.value;
      assert !Unmarked(row);
    }
  }

  /** A parsed consensus payload together with how the signer and the storage behave while it is served. */
  datatype SignRequest = SignRequest(
    chain: ChainId, pkh: Pkh, op: nat, mark: Mark, blsOk: bool, write: WriteOutcome, undo: WriteOutcome)

  type Cells = map<Pkh, seq<Cell>>

  /** The request is for a known key on the device's chain and raises no alert. */
  ghost predicate Screened(config: Config, cells: Cells, q: SignRequest) {
    && q.pkh in cells && q.chain == config.chain
    && !(config.missingAlert && Unmarked(cells[q.pkh])) && !TooFarAhead(config, cells[q.pkh], q.mark.level)
  }

  /** Strictly above the entry: a higher level, or a higher round at the same level. */
  ghost predicate Above(m: Mark, entry: Option<Mark>) {
    entry.Some? && (m.level > entry.value.level || (m.level == entry.value.level && m.round > entry.value.round))
  }

  ghost predicate UnderCeiling(m: Mark, ceiling: Option<Mark>) {
    ceiling.Some? && (ceiling.value.level > m.level || (ceiling.value.level == m.level && ceiling.value.round >= m.round))
  }

  /** The answer to a request, in terms of the request, the installed alerts and the marks alone. */
  ghost predicate Answers(config: Config, cells: Cells, q: SignRequest, r: Result<Mark, Refusal>)
    requires q.pkh in cells ==> q.op < |cells[q.pkh]|
  {
    match r
    case Err(UnknownKey) => q.pkh !in cells
    case Err(ChainMismatch) => q.pkh in cells && q.chain != config.chain
    case Err(MissingWatermark) => q.pkh in cells && q.chain == config.chain && config.missingAlert && Unmarked(cells[q.pkh])
    case Err(LargeLevelGap) => q.pkh in cells && q.chain == config.chain && TooFarAhead(config, cells[q.pkh], q.mark.level)
    case Err(NotInitialized) => Screened(config, cells, q) && cells[q.pkh][q.op].entry.None?
    case Err(LevelTooLow) =>
      Screened(config, cells, q) && cells[q.pkh][q.op].entry.Some? && q.mark.level < cells[q.pkh][q.op].entry.value.level
    case Err(RoundTooLow) =>
      && Screened(config, cells, q) && cells[q.pkh][q.op].entry.Some?
      && q.mark.level == cells[q.pkh][q.op].entry.value.level && q.mark.round <= cells[q.pkh][q.op].entry.value.round
    case Err(WriteFailed) =>
      && Screened(config, cells, q) && Above(q.mark, cells[q.pkh][q.op].entry)
      && !UnderCeiling(q.mark, cells[q.pkh][q.op].ceiling) && q.write != Synced
    case Err(BlsFailed) =>
      && Screened(config, cells, q) && Above(q.mark, cells[q.pkh][q.op].entry)
      && (UnderCeiling(q.mark, cells[q.pkh][q.op].ceiling) || q.write == Synced) && !q.blsOk
    case Ok(m) =>
      && Screened(config, cells, q) && Above(q.mark, cells[q.pkh][q.op].entry) && m == q.mark
      && (UnderCeiling(q.mark, cells[q.pkh][q.op].ceiling) || q.write == Synced) && q.blsOk
  }

  /** Every request has exactly one answer, so each case above is an if-and-only-if. */
  lemma AnswerUnique(config: Config, cells: Cells, q: SignRequest, r: Result<Mark, Refusal>, r': Result<Mark, Refusal>)
    requires q.pkh in cells ==> q.op < |cells[q.pkh]|
    requires Answers(config, cells, q, r) && Answers(config, cells, q, r')
    ensures r == r'
  {
    if q.pkh in cells && cells[q.pkh][q.op].entry.Some? {
      assert !Unmarked(cells[q.pkh]);
    }
  }

  /** A request that signs nothing leaves the entry as it was, ready for the same requests. */
  lemma RefusedKeepsEntry(c: Cell, m: Mark, blsOk: bool, write: WriteOutcome, undo: WriteOutcome)
    ensures var (c', signed) := SignCell(c, m, blsOk, write, undo); c'.entry == if signed then Some(m) else c.entry
  {
  }

  // ---------------------------------------------------------------------------
  // The tracker and the request handler, updated in place
  // ---------------------------------------------------------------------------

  function Put(cells: Cells, pkh: Pkh, op: nat, c: Cell): (r: Cells)
    requires pkh in cells && op < |cells[pkh]|
  {
    cells[pkh := cells[pkh][op := c]]
  }

  lemma PutSame(cells: Cells, pkh: Pkh, op: nat)
    requires pkh in cells && op < |cells[pkh]|
    ensures Put(cells, pkh, op, cells[pkh][op]) == cells
  {
    assert cells[pkh][op := cells[pkh][op]] == cells[pkh];
  }

  lemma PutTwice(cells: Cells, pkh: Pkh, op: nat, c: Cell, d: Cell)
    requires pkh in cells && op < |cells[pkh]|
    ensures Put(Put(cells, pkh, op, c), pkh, op, d) == Put(cells, pkh, op, d)
  {
    assert cells[pkh][op := c][op := d] == cells[pkh][op := d];
  }

  datatype Update = Update(pkh: Pkh, op: nat, mark: Mark, prev: Mark)

  class Tracker {
    /** Per-key slots; the key set is fixed at construction. */
    var cells: Cells

    ghost predicate Valid()
      reads this
    {
      forall k | k in cells :: |cells[k]| == OPS
    }

    ghost predicate Holds(u: Update)
      reads this
    {
      Valid() && u.pkh in cells && u.op < OPS
    }

    /** Loading from storage: `None` marks stand for new, forged, corrupt or legacy files. */
    constructor (stored: map<Pkh, seq<Option<Mark>>>)
      requires forall k | k in stored :: |stored[k]| == OPS
      ensures Valid()
      ensures cells.Keys == stored.Keys
      ensures forall k, i | k in stored && 0 <= i < OPS :: cells[k][i] == Cell(stored[k][i], None, stored[k][i])
    {
      cells := map k | k in stored ::
        seq(OPS, i requires 0 <= i < OPS => Cell(stored[k][i], None, stored[k][i]));
    }

    /** The in-memory half of admission; the update carries the previous entry for rollback. */
    method CheckAndUpdate(pkh: Pkh, op: nat, mark: Mark) returns (r: Result<Update, Refusal>)
      requires Valid() && op < OPS
      modifies this
      ensures Valid()
      ensures r.Ok? <==> pkh in old(cells) && Admits(old(cells)[pkh][op], mark)
      ensures r.Ok? ==> r.value == Update(pkh, op, mark, old(cells)[pkh][op].entry.value)
      ensures r.Ok? ==> cells == Put(old(cells), pkh, op, old(cells)[pkh][op].(entry := Some(mark)))
      ensures r.Err? ==> cells == old(cells)
      ensures r == Err(UnknownKey) <==> pkh !in old(cells)
      ensures r == Err(NotInitialized) <==> pkh in old(cells) && old(cells)[pkh][op].entry.None?
      ensures r == Err(LevelTooLow) <==>
                pkh in old(cells) && old(cells)[pkh][op].entry.Some? && mark.level < old(cells)[pkh][op].entry.value.level
      ensures r == Err(RoundTooLow) <==>
                pkh in old(cells) && old(cells)[pkh][op].entry.Some? && mark.level == old(cells)[pkh][op].entry.value.level
                && mark.round <= old(cells)[pkh][op].entry.value.round
    {
      if pkh !in cells {
        return Err(UnknownKey);
      }
      var cell := cells[pkh][op];
      if cell.entry.None? {
        return Err(NotInitialized);
      }
      if mark.level < cell.entry.value.level {
        return Err(LevelTooLow);
      }
      if mark.level == cell.entry.value.level && mark.round <= cell.entry.value.round {
        return Err(RoundTooLow);
      }
      cells := Put(cells, pkh, op, cell.(entry := Some(mark)));
      return Ok(Update(pkh, op, mark, cell.entry.value));
    }

    method RollbackUpdate(u: Update)
      requires Holds(u)
      modifies this
      ensures Valid()
      ensures cells == Put(old(cells), u.pkh, u.op, old(cells)[u.pkh][u.op].(entry := Some(u.prev)))
    {
      cells := Put(cells, u.pkh, u.op, cells[u.pkh][u.op].(entry := Some(u.prev)));
    }

    method CeilingCovers(u: Update) returns (b: bool)
      requires Holds(u)
      ensures b == Covers(cells[u.pkh][u.op], u.mark)
    {
      var c := cells[u.pkh][u.op].ceiling;
      b := c.Some? && (c.value.level > u.mark.level || (c.value.level == u.mark.level && c.value.round >= u.mark.round));
    }

    /** pwrite, fdatasync, then the bookkeeping; each step is skipped once an earlier one failed. */
    method WriteMark(pkh: Pkh, op: nat, mark: Mark, w: WriteOutcome) returns (ok: bool)
      requires Valid() && pkh in cells && op < OPS
      modifies this
      ensures Valid()
      ensures ok == w.Synced?
      ensures cells == Put(old(cells), pkh, op, Persist(old(cells)[pkh][op], mark, w))
    {
      var cell := cells[pkh][op];
      if w != FailedOld {
        cell := cell.(disk := Some(mark));
      }
      if w == Synced {
        cell := cell.(ceiling := None);
      }
      cells := Put(cells, pkh, op, cell);
      ok := w == Synced;
    }

    method WriteCeiling(pkh: Pkh, op: nat, level: U32, w: WriteOutcome)
      requires Valid() && pkh in cells && op < OPS
      modifies this
      ensures Valid()
      ensures cells == Put(old(cells), pkh, op, CeilingCell(old(cells)[pkh][op], level, w))
    {
      PutSame(cells, pkh, op);
      var cell := cells[pkh][op];
      if cell.entry.Some? && cell.entry.value.level >= level {
        return;
      }
      if cell.ceiling.Some? && cell.ceiling.value.level >= level {
        return;
      }
      var top := Mark(level, U32_MAX);
      if w != FailedOld {
        cell := cell.(disk := Some(top));
      }
      if w == Synced {
        cell := cell.(ceiling := Some(top));
      }
      cells := Put(cells, pkh, op, cell);
    }

    /** All three entries move before the first file is written. */
    method UpdateToLevel(pkh: Pkh, level: U32, ws: seq<WriteOutcome>) returns (ok: bool)
      requires Valid() && pkh in cells
      modifies this
      ensures Valid()
      ensures cells == old(cells)[pkh := UpdatedCells(old(cells)[pkh], level, ws)]
      ensures ok == Reached(ws, OPS)
    {
      ghost var was := cells[pkh];
      var row := cells[pkh];
      for i := 0 to OPS
        invariant |row| == OPS
        invariant forall j | 0 <= j < i :: row[j] == was[j].(entry := Some(Mark(level, 0)))
        invariant forall j | i <= j < OPS :: row[j] == was[j]
      {
        row := row[i := row[i].(entry := Some(Mark(level, 0)))];
      }
      cells := cells[pkh := row];
      ok := true;
      var i := 0;
      while i < OPS && ok
        invariant i <= OPS && Valid()
        invariant pkh in cells && |row| == OPS && cells == old(cells)[pkh := row]
        invariant ok <==> Reached(ws, i)
        invariant ok ==> forall j | 0 <= j < i :: row[j] == UpdatedCell(was[j], level, true, OutcomeAt(ws, j))
        invariant !ok ==> 0 < i && !OutcomeAt(ws, i - 1).Synced? && Reached(ws, i - 1)
        invariant !ok ==> forall j | 0 <= j < i :: row[j] == UpdatedCell(was[j], level, true, OutcomeAt(ws, j))
        invariant forall j | i <= j < OPS :: row[j] == was[j].(entry := Some(Mark(level, 0)))
      {
        var written := WriteMark(pkh, i, Mark(level, 0), OutcomeAt(ws, i));
        row := cells[pkh];
        ok := written;
        i := i + 1;
      }
      assert row == UpdatedCells(was, level, ws);
    }

    method SeedFloor(pkh: Pkh, level: U32, ws: seq<WriteOutcome>)
      requires Valid() && pkh in cells
      modifies this
      ensures Valid()
      ensures cells == old(cells)[pkh := SeededCells(old(cells)[pkh], level, ws)]
    {
      if AtOrAbove(MaxLevel(cells[pkh]), level) {
        return;
      }
      var _ := UpdateToLevel(pkh, level, ws);
    }

    /** A restart of the device. */
    method PowerCycle()
      requires Valid()
      modifies this
      ensures Valid()
      ensures cells.Keys == old(cells).Keys
      ensures forall k, i | k in cells && 0 <= i < OPS :: cells[k][i] == Reload(old(cells)[k][i])
    {
      var was := cells;
      cells := map k | k in was :: seq(OPS, i requires 0 <= i < OPS => Reload(was[k][i]));
    }

    /**
     * One sign request, from the prechecks to the returned signature. The write lock is held
     * from the admission check to the end of the rollback, so a request is one step.
     */
    method HandleSign(config: Config, q: SignRequest) returns (r: Result<Mark, Refusal>)
      requires Valid() && q.op < OPS
      modifies this
      ensures Valid()
      ensures cells == if q.pkh in old(cells) && Precheck(config, old(cells)[q.pkh], q.chain, q.mark.level).None?
                       then Put(old(cells), q.pkh, q.op, SignCell(old(cells)[q.pkh][q.op], q.mark, q.blsOk, q.write, q.undo).0)
                       else old(cells)
      ensures r.Ok? <==> q.pkh in old(cells)
                         && Precheck(config, old(cells)[q.pkh], q.chain, q.mark.level).None?
                         && SignCell(old(cells)[q.pkh][q.op], q.mark, q.blsOk, q.write, q.undo).1
      ensures r.Ok? ==> r.value == q.mark
      ensures Answers(config, old(cells), q, r)
    {
      if q.pkh !in cells {
        return Err(UnknownKey);
      }
      PrecheckExact(config, cells[q.pkh], q.chain, q.mark.level);
      var pre := Precheck(config, cells[q.pkh], q.chain, q.mark.level);
      if pre.Some? {
        return Err(pre.value);
      }
      var update := CheckAndUpdate(q.pkh, q.op, q.mark);
      if update.Err? {
        PutSame(cells, q.pkh, q.op);
        return Err(update.error);
      }
      var u := update.value;
      ghost var cell := old(cells)[q.pkh][q.op].(entry := Some(q.mark));
      var covered := CeilingCovers(u);
      var writeOk := true;
      if !covered {
        writeOk := WriteMark(u.pkh, u.op, u.mark, q.write);
        PutTwice(old(cells), q.pkh, q.op, cell, Persist(cell, q.mark, q.write));
        cell := Persist(cell, q.mark, q.write);
      }
      if !q.blsOk || !writeOk {
        RollbackUpdate(u);
        PutTwice(old(cells), q.pkh, q.op, cell, cell.(entry := Some(u.prev)));
        cell := cell.(entry := Some(u.prev));
        if !q.blsOk && writeOk {
          var _ := WriteMark(u.pkh, u.op, u.prev, q.undo);
          PutTwice(old(cells), q.pkh, q.op, cell, Persist(cell, u.prev, q.undo));
          cell := Persist(cell, u.prev, q.undo);
        }
      }
      assert cells == Put(old(cells), q.pkh, q.op, cell);
      if !writeOk {
        return Err(WriteFailed);
      }
      if !q.blsOk {
        return Err(BlsFailed);
      }
      return Ok(q.mark);
    }
  }
}
