/** Promoting pending keys with a backup and hand-written rollback (host-utility/src/rotate_keys.rs). */
module Promotion {
  import opened Wallet

  const CONSENSUS := "russignol-consensus"
  const COMPANION := "russignol-companion"
  const CONSENSUS_PENDING := "russignol-consensus-pending"
  const COMPANION_PENDING := "russignol-companion-pending"
  const CONSENSUS_OLD := "russignol-consensus-old"
  const COMPANION_OLD := "russignol-companion-old"

  lemma AliasesDiffer()
    ensures CONSENSUS != COMPANION && CONSENSUS != CONSENSUS_PENDING && CONSENSUS != COMPANION_PENDING
    ensures CONSENSUS != CONSENSUS_OLD && CONSENSUS != COMPANION_OLD
    ensures COMPANION != CONSENSUS_PENDING && COMPANION != COMPANION_PENDING
    ensures COMPANION != CONSENSUS_OLD && COMPANION != COMPANION_OLD
    ensures CONSENSUS_PENDING != COMPANION_PENDING && CONSENSUS_PENDING != CONSENSUS_OLD && CONSENSUS_PENDING != COMPANION_OLD
    ensures COMPANION_PENDING != CONSENSUS_OLD && COMPANION_PENDING != COMPANION_OLD
    ensures CONSENSUS_OLD != COMPANION_OLD
  {
    assert CONSENSUS[12] == 'n' && COMPANION[12] == 'm';
    assert CONSENSUS_PENDING[12] == 'n' && COMPANION_PENDING[12] == 'm';
    assert CONSENSUS_OLD[12] == 'n' && COMPANION_OLD[12] == 'm';
    assert |CONSENSUS| == 19 && |COMPANION| == 19 && |CONSENSUS_OLD| == 23 && |COMPANION_OLD| == 23;
    assert |CONSENSUS_PENDING| == 27 && |COMPANION_PENDING| == 27;
  }

  /** One rename of a promotion: the files before and after it, and what it reported. */
  datatype RenameStep = RenameStep(before: Files, after: Files, ok: bool)

  datatype PromoteResult =
    | Promoted
    | Unprobed
    | Failed(step: nat, forward: RenameStep, undo: seq<RenameStep>, unrestored: seq<string>)

  /** What the operator is told. */
  datatype Report = Success | AliasNotFound | Error(step: nat, unrestored: seq<string>)

  function ReportOf(r: PromoteResult): Report {
    match r
    case Promoted => Success
    case Unprobed => AliasNotFound
    case Failed(step, _, _, unrestored) => Error(step, unrestored)
  }

  datatype PromotionRun = PromotionRun(files: Files, result: PromoteResult, tick: nat)

  function StepOf(files: Files, o: Outcome): RenameStep {
    RenameStep(files, o.files, o.ok)
  }

  function Unrestored(o: Outcome, alias: string): seq<string> {
    if o.ok then [] else [alias]
  }

  /** The promotion under a fault schedule; `probed` says that all four aliases resolved. */
  function Promote(files: Files, probed: bool, fails: nat -> bool, tick: nat): PromotionRun {
    if !probed then PromotionRun(files, Unprobed, tick)
    else
      var r1 := Rename(files, CONSENSUS, CONSENSUS_OLD, fails, tick);
      if !r1.ok then PromotionRun(r1.files, Failed(1, StepOf(files, r1), [], []), r1.tick)
      else
        var r2 := Rename(r1.files, COMPANION, COMPANION_OLD, fails, r1.tick);
        if !r2.ok then UndoBackup(r1, r2, fails)
        else
          var r3 := Rename(r2.files, CONSENSUS_PENDING, CONSENSUS, fails, r2.tick);
          if !r3.ok then UndoBackups(r2, r3, fails)
          else
            var r4 := Rename(r3.files, COMPANION_PENDING, COMPANION, fails, r3.tick);
            if !r4.ok then UndoPromotion(r3, r4, fails)
            else PromotionRun(r4.files, Promoted, r4.tick)
  }

  function UndoBackup(r1: Outcome, r2: Outcome, fails: nat -> bool): PromotionRun {
    var b := Rename(r2.files, CONSENSUS_OLD, CONSENSUS, fails, r2.tick);
    PromotionRun(b.files, Failed(2, StepOf(r1.files, r2), [StepOf(r2.files, b)], Unrestored(b, CONSENSUS)), b.tick)
  }

  function UndoBackups(r2: Outcome, r3: Outcome, fails: nat -> bool): PromotionRun {
    var b1 := Rename(r3.files, CONSENSUS_OLD, CONSENSUS, fails, r3.tick);
    var b2 := Rename(b1.files, COMPANION_OLD, COMPANION, fails, b1.tick);
    PromotionRun(b2.files,
      Failed(3, StepOf(r2.files, r3), [StepOf(r3.files, b1), StepOf(b1.files, b2)],
        Unrestored(b1, CONSENSUS) + Unrestored(b2, COMPANION)), b2.tick)
  }

  function UndoPromotion(r3: Outcome, r4: Outcome, fails: nat -> bool): PromotionRun {
    var b0 := Rename(r4.files, CONSENSUS, CONSENSUS_PENDING, fails, r4.tick);
    var b1 := Rename(b0.files, CONSENSUS_OLD, CONSENSUS, fails, b0.tick);
    var b2 := Rename(b1.files, COMPANION_OLD, COMPANION, fails, b1.tick);
    PromotionRun(b2.files,
      Failed(4, StepOf(r3.files, r4), [StepOf(r4.files, b0), StepOf(b0.files, b1), StepOf(b1.files, b2)],
        Unrestored(b0, CONSENSUS_PENDING) + Unrestored(b1, CONSENSUS) + Unrestored(b2, COMPANION)), b2.tick)
  }

  // ---------------------------------------------------------------------------
  // The wallet directory, updated in place
  // ---------------------------------------------------------------------------

  class Store {
    var files: Files
    var tick: nat
    const fails: nat -> bool

    ghost predicate Valid()
      reads this
    {
      |files| == FILE_COUNT
    }

    constructor (files: Files, fails: nat -> bool)
      requires |files| == FILE_COUNT
      ensures Valid() && this.files == files && this.fails == fails && tick == 0
    {
      this.files, this.fails, tick := files, fails, 0;
    }

    /** Whether the next read or write fails. */
    method Io() returns (ok: bool)
      modifies this`tick
      ensures ok == !fails(old(tick)) && tick == old(tick) + 1
    {
      ok := !fails(tick);
      tick := tick + 1;
    }

    method RenameAliasLocally(from: string, to: string) returns (ok: bool)
      requires Valid()
      modifies this
      ensures Valid()
      ensures Outcome(files, ok, tick) == Rename(old(files), from, to, fails, old(tick))
    {
      var foundInPrimary := false;
      ghost var was, t0 := files, tick;
      var i := 0;
      while i < FILE_COUNT
        invariant i <= FILE_COUNT && Valid()
        invariant Outcome(files, true, tick) == RenameUpTo(was, i, from, to, fails, t0)
        invariant forall j | i <= j < FILE_COUNT :: files[j] == was[j]
        invariant foundInPrimary <==> i > 0 && InPrimary(was, from, to)
      {
        if files[i].Absent? {
          i := i + 1;
          continue;
        }
        var readOk := Io();
        if !readOk || files[i].Garbled? {
          Aborted(was, i, from, to, fails, t0);
          return false;
        }
        var entries := Drop(files[i].entries, to);
        var found := Has(entries, from);
        if i == 0 {
          foundInPrimary := found;
        }
        if !found {
          i := i + 1;
          continue;
        }
        var writeOk := Io();
        if !writeOk {
          Aborted(was, i, from, to, fails, t0);
          return false;
        }
        files := files[i := Entries(RenameFirst(entries, from, to))];
        i := i + 1;
      }
      ok := foundInPrimary;
    }

    /** Back up the live aliases, promote the pending ones, and undo what was done when a rename fails. */
    method PromoteWithBackup(probed: bool) returns (r: Report)
      requires Valid()
      modifies this
      ensures Valid()
      ensures var run := Promote(old(files), probed, fails, old(tick));
              files == run.files && tick == run.tick && r == ReportOf(run.result)
    {
      if !probed {
        return AliasNotFound;
      }
      var ok := RenameAliasLocally(CONSENSUS, CONSENSUS_OLD);
      if !ok {
        return Error(1, []);
      }
      ok := RenameAliasLocally(COMPANION, COMPANION_OLD);
      var unrestored := [];
      if !ok {
        var restored := RenameAliasLocally(CONSENSUS_OLD, CONSENSUS);
        if !restored {
          unrestored := unrestored + [CONSENSUS];
        }
        return Error(2, unrestored);
      }
      ok := RenameAliasLocally(CONSENSUS_PENDING, CONSENSUS);
      if !ok {
        unrestored := RestoreBackups(unrestored);
        return Error(3, unrestored);
      }
      ok := RenameAliasLocally(COMPANION_PENDING, COMPANION);
      if !ok {
        var restored := RenameAliasLocally(CONSENSUS, CONSENSUS_PENDING);
        if !restored {
          unrestored := unrestored + [CONSENSUS_PENDING];
        }
        unrestored := RestoreBackups(unrestored);
        return Error(4, unrestored);
      }
      return Success;
    }

    method RestoreBackups(before: seq<string>) returns (unrestored: seq<string>)
      requires Valid()
      modifies this
      ensures Valid()
      ensures var b1 := Rename(old(files), CONSENSUS_OLD, CONSENSUS, fails, old(tick));
              var b2 := Rename(b1.files, COMPANION_OLD, COMPANION, fails, b1.tick);
              files == b2.files && tick == b2.tick
              && unrestored == before + Unrestored(b1, CONSENSUS) + Unrestored(b2, COMPANION)
    {
      unrestored := before;
      var restored := RenameAliasLocally(CONSENSUS_OLD, CONSENSUS);
      if !restored {
        unrestored := unrestored + [CONSENSUS];
      }
      restored := RenameAliasLocally(COMPANION_OLD, COMPANION);
      if !restored {
        unrestored := unrestored + [COMPANION];
      }
    }

    method RollbackAliases() returns (ok: bool)
      requires Valid()
      modifies this
      ensures Valid()
      ensures Outcome(files, ok, tick) == RollbackRun(old(files), fails, old(tick))
    {
      ok := RenameAliasLocally(CONSENSUS_OLD, CONSENSUS);
      if ok {
        ok := RenameAliasLocally(COMPANION_OLD, COMPANION);
      }
    }
  }

  /** Restoring the old keys on request, which stops at the first failure. */
  function RollbackRun(files: Files, fails: nat -> bool, tick: nat): Outcome {
    var r := Rename(files, CONSENSUS_OLD, CONSENSUS, fails, tick);
    if r.ok then Rename(r.files, COMPANION_OLD, COMPANION, fails, r.tick) else r
  }

  /** A rename that fails at file `i` ends there. */
  lemma {:induction false} Aborted(files: Files, i: nat, from: string, to: string, fails: nat -> bool, tick: nat)
    requires i < |files|
    requires !RenameUpTo(files, i + 1, from, to, fails, tick).ok
    ensures RenameUpTo(files, |files|, from, to, fails, tick) == RenameUpTo(files, i + 1, from, to, fails, tick)
  {
    AbortedAt(files, |files|, i + 1, from, to, fails, tick);
  }

  lemma {:induction false} AbortedAt(files: Files, n: nat, i: nat, from: string, to: string, fails: nat -> bool, tick: nat)
    requires i <= n <= |files|
    requires !RenameUpTo(files, i, from, to, fails, tick).ok
    ensures RenameUpTo(files, n, from, to, fails, tick) == RenameUpTo(files, i, from, to, fails, tick)
  {
    if n > i {
      AbortedAt(files, n - 1, i, from, to, fails, tick);
    }
  }
}
