/** The workflow's alias map is the primary wallet file: renames on files refine renames on the map. */
module WalletView {
  import opened Prelude
  import opened Wallet
  import opened Promotion
  import opened PromotionSafety
  import Rotation

  function NameOf(a: Rotation.Alias): string {
    match a
    case Live(Consensus) => CONSENSUS
    case Live(Companion) => COMPANION
    case Pending(Consensus) => CONSENSUS_PENDING
    case Pending(Companion) => COMPANION_PENDING
    case Old(Consensus) => CONSENSUS_OLD
    case Old(Companion) => COMPANION_OLD
  }

  lemma NamesDiffer(a: Rotation.Alias, b: Rotation.Alias)
    requires a != b
    ensures NameOf(a) != NameOf(b)
  {
  }

  /** What an exact probe of the file answers for each alias. */
  ghost predicate IsView(m: Rotation.Aliases, f: WalletFile) {
    && (forall a :: a in m <==> Lists(f, NameOf(a)))
    && (forall a | a in m :: Maps(f, NameOf(a), m[a]))
  }

  /** A completed rename of the file is the rename of the map. */
  lemma RenamedView(m: Rotation.Aliases, f: WalletFile, r: Rotation.Rename)
    requires DistinctFile(f) && IsView(m, f) && r.from != r.to
    ensures IsView(Rotation.Renamed(m, r), Renamed(f, NameOf(r.from), NameOf(r.to)))
  {
    var from, to := NameOf(r.from), NameOf(r.to);
    var g, m' := Renamed(f, from, to), Rotation.Renamed(m, r);
    NamesDiffer(r.from, r.to);
    RenamedMaps(f, from, to);
    if r.from in m {
      assert Maps(f, from, m[r.from]);
      assert Maps(g, to, m[r.from]);
      assert Lists(g, to) by {
        assert Entry(Some(to), m[r.from]) in g.entries;
      }
      forall a
        ensures a in m' <==> Lists(g, NameOf(a))
        ensures a in m' ==> Maps(g, NameOf(a), m'[a])
      {
        if a != r.from && a != r.to {
          NamesDiffer(a, r.from);
          NamesDiffer(a, r.to);
          Keeps(f, g, from, to, NameOf(a));
        }
      }
    }
  }

  /**
   * Under every fault schedule, what a rename does to the primary file is one of the outcomes the
   * workflow model allows, and it reports success exactly when that outcome succeeds.
   */
  lemma RenameRefinesWorkflow(files: Files, m: Rotation.Aliases, r: Rotation.Rename, fails: nat -> bool, tick: nat)
    requires files != [] && DistinctFile(files[0]) && IsView(m, files[0]) && r.from != r.to
    ensures exists o: Rotation.RenameOutcome ::
              var after := Rename(files, NameOf(r.from), NameOf(r.to), fails, tick);
              IsView(Rotation.AfterTry(m, r, o), after.files[0]) && after.ok == Rotation.Succeeds(m, r, o)
  {
    var from, to := NameOf(r.from), NameOf(r.to);
    var after := Rename(files, from, to, fails, tick);
    AfterRename(files, from, to, fails, tick);
    FileOfRename(files, 0, from, to, fails, tick);
    RenamedView(m, files[0], r);
    var o: Rotation.RenameOutcome :=
      if after.ok then Rotation.Applied else if after.files[0] == files[0] then Rotation.FailedUnchanged else Rotation.FailedChanged;
    if after.ok {
      PrimaryLists(files, from, to);
    }
    assert IsView(Rotation.AfterTry(m, r, o), after.files[0]) && after.ok == Rotation.Succeeds(m, r, o);
  }

  // ---------------------------------------------------------------------------
  // The whole promotion
  // ---------------------------------------------------------------------------

  /** The primary file is there, names are distinct, and the map is what probes of it answer. */
  ghost predicate Viewed(files: Files, m: Rotation.Aliases) {
    files != [] && DistinctFile(files[0]) && IsView(m, files[0])
  }

  function RenameBy(files: Files, r: Rotation.Rename, fails: nat -> bool, tick: nat): Outcome {
    Rename(files, NameOf(r.from), NameOf(r.to), fails, tick)
  }

  lemma TryRefines(files: Files, m: Rotation.Aliases, r: Rotation.Rename, fails: nat -> bool, tick: nat) returns (o: Rotation.RenameOutcome)
    requires Viewed(files, m) && r.from != r.to
    ensures var after := RenameBy(files, r, fails, tick);
            Viewed(after.files, Rotation.AfterTry(m, r, o)) && after.ok == Rotation.Succeeds(m, r, o)
  {
    RenameRefinesWorkflow(files, m, r, fails, tick);
    NamesDiffer(r.from, r.to);
    FileOfRename(files, 0, NameOf(r.from), NameOf(r.to), fails, tick);
    RenamedMaps(files[0], NameOf(r.from), NameOf(r.to));
    o :| var after := RenameBy(files, r, fails, tick);
         IsView(Rotation.AfterTry(m, r, o), after.files[0]) && after.ok == Rotation.Succeeds(m, r, o);
  }

  /** Renames one after the other, whatever each of them reports. */
  function UndoAll(files: Files, ops: seq<Rotation.Rename>, fails: nat -> bool, tick: nat): Files
    decreases |ops|
  {
    if ops == [] then files
    else
      var r := RenameBy(files, ops[0], fails, tick);
      UndoAll(r.files, ops[1..], fails, r.tick)
  }

  ghost predicate OnlyRenames(ls: seq<Rotation.Label>) {
    forall l | l in ls :: l.TryRename?
  }

  ghost predicate Proper(ops: seq<Rotation.Rename>) {
    forall r | r in ops :: r.from != r.to
  }

  lemma {:induction false} UndoRefines(files: Files, w: Rotation.World, ops: seq<Rotation.Rename>, fails: nat -> bool, tick: nat)
    returns (ls: seq<Rotation.Label>)
    requires Viewed(files, w.aliases) && w.pc == Rotation.Undoing(ops) && Proper(ops)
    ensures OnlyRenames(ls)
    ensures var w' := Rotation.Run(w, ls);
            w'.pc == Rotation.Undoing([]) && w'.log == w.log && Viewed(UndoAll(files, ops, fails, tick), w'.aliases)
    decreases |ops|
  {
    ls := [];
    if ops != [] {
      assert ops[0] in ops;
      var o := TryRefines(files, w.aliases, ops[0], fails, tick);
      var r := RenameBy(files, ops[0], fails, tick);
      var l := Rotation.TryRename(o);
      var rest := UndoRefines(r.files, Rotation.Step(w, l), ops[1..], fails, r.tick);
      Rotation.RunCons(w, l, rest);
      ls := [l] + rest;
    }
  }

  /** The promotion from step `step` on, and whether it went through. */
  function PromoteFrom(files: Files, step: nat, fails: nat -> bool, tick: nat): (Files, bool)
    decreases 5 - step
  {
    if step > 4 then (files, true)
    else
      var r := RenameBy(files, Rotation.Forward(step), fails, tick);
      if r.ok then PromoteFrom(r.files, step + 1, fails, r.tick)
      else (UndoAll(r.files, Rotation.UndoAfter(step), fails, r.tick), false)
  }

  lemma UndoThree(files: Files, a: Rotation.Rename, b: Rotation.Rename, c: Rotation.Rename, fails: nat -> bool, tick: nat)
    ensures var r1 := RenameBy(files, a, fails, tick);
            var r2 := RenameBy(r1.files, b, fails, r1.tick);
            && UndoAll(files, [a], fails, tick) == r1.files
            && UndoAll(files, [a, b], fails, tick) == r2.files
            && UndoAll(files, [a, b, c], fails, tick) == RenameBy(r2.files, c, fails, r2.tick).files
  {
    assert [a][1..] == [] && [a, b][1..] == [b] && [b][1..] == [] && [a, b, c][1..] == [b, c] && [b, c][1..] == [c] && [c][1..] == [];
    var r1 := RenameBy(files, a, fails, tick);
    var r2 := RenameBy(r1.files, b, fails, r1.tick);
    assert UndoAll(r2.files, [c], fails, r2.tick) == UndoAll(RenameBy(r2.files, c, fails, r2.tick).files, [], fails, RenameBy(r2.files, c, fails, r2.tick).tick);
    assert UndoAll(r1.files, [b, c], fails, r1.tick) == UndoAll(r2.files, [c], fails, r2.tick);
    assert UndoAll(r1.files, [b], fails, r1.tick) == UndoAll(r2.files, [], fails, r2.tick);
  }

  /** The promotion of the wallet model, step by step. */
  lemma PromoteUnrolled(files: Files, fails: nat -> bool, tick: nat)
    ensures var run := Promote(files, true, fails, tick);
            PromoteFrom(files, 1, fails, tick) == (run.files, run.result.Promoted?)
  {
    var r1 := RenameBy(files, Rotation.Forward(1), fails, tick);
    var r2 := RenameBy(r1.files, Rotation.Forward(2), fails, r1.tick);
    var r3 := RenameBy(r2.files, Rotation.Forward(3), fails, r2.tick);
    var r4 := RenameBy(r3.files, Rotation.Forward(4), fails, r3.tick);
    UndoThree(r2.files, Rotation.RESTORE_CONSENSUS, Rotation.RESTORE_COMPANION, Rotation.RESTORE_COMPANION, fails, r2.tick);
    UndoThree(r3.files, Rotation.RESTORE_CONSENSUS, Rotation.RESTORE_COMPANION, Rotation.RESTORE_COMPANION, fails, r3.tick);
    UndoThree(r4.files, Rotation.DEMOTE_CONSENSUS, Rotation.RESTORE_CONSENSUS, Rotation.RESTORE_COMPANION, fails, r4.tick);
    assert PromoteFrom(r4.files, 5, fails, r4.tick) == (r4.files, true);
    assert r3.ok ==> PromoteFrom(r2.files, 3, fails, r2.tick) == PromoteFrom(r3.files, 4, fails, r3.tick);
    assert r2.ok ==> PromoteFrom(r1.files, 2, fails, r1.tick) == PromoteFrom(r2.files, 3, fails, r2.tick);
  }

  lemma {:induction false} PromoteFromRefines(files: Files, w: Rotation.World, step: nat, fails: nat -> bool, tick: nat)
    returns (ls: seq<Rotation.Label>)
    requires 1 <= step <= 4 && Viewed(files, w.aliases) && w.pc == Rotation.Promoting(step)
    ensures OnlyRenames(ls)
    ensures var w' := Rotation.Run(w, ls);
            var (after, ok) := PromoteFrom(files, step, fails, tick);
            w'.pc == (if ok then Rotation.Starting(false) else Rotation.Undoing([])) && w'.log == w.log && Viewed(after, w'.aliases)
    decreases 5 - step
  {
    var r := RenameBy(files, Rotation.Forward(step), fails, tick);
    var o := TryRefines(files, w.aliases, Rotation.Forward(step), fails, tick);
    var l := Rotation.TryRename(o);
    var w1 := Rotation.Step(w, l);
    var rest: seq<Rotation.Label> := [];
    if !r.ok {
      rest := UndoRefines(r.files, w1, Rotation.UndoAfter(step), fails, r.tick);
    } else if step < 4 {
      rest := PromoteFromRefines(r.files, w1, step + 1, fails, r.tick);
    }
    Rotation.RunCons(w, l, rest);
    ls := [l] + rest;
  }

  /**
   * Under every fault schedule the whole promotion, with its compensation, is a run of the
   * workflow's promoting and undoing steps on the primary file.
   */
  lemma PromoteRefinesWorkflow(files: Files, w: Rotation.World, fails: nat -> bool, tick: nat) returns (ls: seq<Rotation.Label>)
    requires Viewed(files, w.aliases) && w.pc == Rotation.Promoting(1)
    ensures OnlyRenames(ls)
    ensures var w' := Rotation.Run(w, ls);
            var run := Promote(files, true, fails, tick);
            && Viewed(run.files, w'.aliases) && w'.log == w.log
            && w'.pc == (if run.result.Promoted? then Rotation.Starting(false) else Rotation.Undoing([]))
  {
    PromoteUnrolled(files, fails, tick);
    ls := PromoteFromRefines(files, w, 1, fails, tick);
  }

  lemma RollStep(w: Rotation.World, op: Rotation.Rename, more: seq<Rotation.Rename>, o: Rotation.RenameOutcome)
    requires w.pc == Rotation.RollingBack([op] + more)
    ensures var w' := Rotation.Step(w, Rotation.TryRename(o));
            && w'.aliases == Rotation.AfterTry(w.aliases, op, o)
            && w'.pc == if Rotation.Succeeds(w.aliases, op, o) then Rotation.RollingBack(more) else Rotation.Idle
  {
    assert ([op] + more)[1..] == more;
  }

  /** Renames one after the other until one fails. */
  function RollAll(files: Files, ops: seq<Rotation.Rename>, fails: nat -> bool, tick: nat): Outcome
    decreases |ops|
  {
    if ops == [] then Outcome(files, true, tick)
    else
      var r := RenameBy(files, ops[0], fails, tick);
      if r.ok then RollAll(r.files, ops[1..], fails, r.tick) else r
  }

  lemma RollbackUnrolled(files: Files, fails: nat -> bool, tick: nat)
    ensures RollAll(files, [Rotation.RESTORE_CONSENSUS, Rotation.RESTORE_COMPANION], fails, tick) == RollbackRun(files, fails, tick)
  {
    var first, second := Rotation.RESTORE_CONSENSUS, Rotation.RESTORE_COMPANION;
    assert [first, second][1..] == [second] && [second][1..] == [];
    var r := RenameBy(files, first, fails, tick);
    var r' := RenameBy(r.files, second, fails, r.tick);
    assert RollAll(r'.files, [], fails, r'.tick) == Outcome(r'.files, true, r'.tick);
    assert RollAll(r.files, [second], fails, r.tick) == r';
  }

  lemma {:induction false} RollRefines(files: Files, w: Rotation.World, ops: seq<Rotation.Rename>, fails: nat -> bool, tick: nat)
    returns (ls: seq<Rotation.Label>)
    requires Viewed(files, w.aliases) && w.pc == Rotation.RollingBack(ops) && Proper(ops)
    ensures OnlyRenames(ls)
    ensures var w' := Rotation.Run(w, ls);
            var r := RollAll(files, ops, fails, tick);
            Viewed(r.files, w'.aliases) && w'.pc == (if r.ok then Rotation.RollingBack([]) else Rotation.Idle)
    decreases |ops|
  {
    ls := [];
    if ops != [] {
      assert ops[0] in ops && [ops[0]] + ops[1..] == ops;
      var o := TryRefines(files, w.aliases, ops[0], fails, tick);
      var r := RenameBy(files, ops[0], fails, tick);
      RollStep(w, ops[0], ops[1..], o);
      var l := Rotation.TryRename(o);
      var rest: seq<Rotation.Label> := [];
      if r.ok {
        rest := RollRefines(r.files, Rotation.Step(w, l), ops[1..], fails, r.tick);
      }
      Rotation.RunCons(w, l, rest);
      ls := [l] + rest;
    }
  }

  /** A requested rollback, too, is a run of the workflow's steps; it ends the invocation when a rename fails. */
  lemma RollbackRefinesWorkflow(files: Files, w: Rotation.World, fails: nat -> bool, tick: nat) returns (ls: seq<Rotation.Label>)
    requires Viewed(files, w.aliases) && w.pc == Rotation.RollingBack([Rotation.RESTORE_CONSENSUS, Rotation.RESTORE_COMPANION])
    ensures OnlyRenames(ls)
    ensures var w' := Rotation.Run(w, ls);
            var r := RollbackRun(files, fails, tick);
            Viewed(r.files, w'.aliases) && w'.pc == (if r.ok then Rotation.RollingBack([]) else Rotation.Idle)
  {
    RollbackUnrolled(files, fails, tick);
    ls := RollRefines(files, w, [Rotation.RESTORE_CONSENSUS, Rotation.RESTORE_COMPANION], fails, tick);
  }
}
