/**
 * What a failed promotion leaves in each file and what its report is worth, exactly, over the
 * files and the fault schedule (host-utility/src/rotate_keys.rs).
 */
module Rollback {
  import opened Prelude
  import opened Wallet
  import opened Promotion
  import opened PromotionSafety

  // ---------------------------------------------------------------------------
  // One file through a failed promotion
  // ---------------------------------------------------------------------------

  /** A rename that may or may not have reached the file. */
  function Maybe(f: WalletFile, reached: bool, from: string, to: string): WalletFile {
    if reached then Renamed(f, from, to) else f
  }

  lemma ListsMaps(f: WalletFile, a: string)
    ensures Lists(f, a) <==> exists v :: Maps(f, a, v)
  {
    if Lists(f, a) {
      var e :| e in f.entries && e.name == Some(a);
      assert Maps(f, a, e.value);
    }
  }

  lemma MaybeMaps(f: WalletFile, reached: bool, from: string, to: string)
    requires from != to && DistinctFile(f)
    ensures var g := Maybe(f, reached, from, to);
            && DistinctFile(g)
            && (reached && Lists(f, from) ==> !Lists(g, from) && g != f && forall v :: Maps(g, to, v) <==> Maps(f, from, v))
            && (!(reached && Lists(f, from)) ==> g == f)
            && (reached && Lists(f, from) ==> Lists(g, to))
            && (forall a, v :: a != from && a != to ==> (Maps(g, a, v) <==> Maps(f, a, v)))
            && (forall a :: a != from && a != to ==> (Lists(g, a) <==> Lists(f, a)))
  {
    var g := Maybe(f, reached, from, to);
    RenamedMaps(f, from, to);
    if reached && Lists(f, from) {
      ListedFileChanges(f, from, to);
    }
    forall a | a != from && a != to
      ensures Lists(g, a) <==> Lists(f, a)
    {
      Keeps(f, g, from, to, a);
    }
  }

  /** The values a file holds under each of the six aliases. */
  ghost predicate Holds(f: WalletFile, v: string, c: bool, co: bool, cp: bool, k: bool, ko: bool, kp: bool) {
    && Maps(f, CONSENSUS, v) == c && Maps(f, CONSENSUS_OLD, v) == co && Maps(f, CONSENSUS_PENDING, v) == cp
    && Maps(f, COMPANION, v) == k && Maps(f, COMPANION_OLD, v) == ko && Maps(f, COMPANION_PENDING, v) == kp
  }

  /** A file a promotion may start from. */
  ghost predicate Initial(f: WalletFile) {
    DistinctFile(f) && NoBackups(f)
  }

  /** A value is only held under a listed alias. */
  lemma MapsLists(f: WalletFile, v: string)
    ensures forall a :: Maps(f, a, v) ==> Lists(f, a)
  {
    forall a | Maps(f, a, v)
      ensures Lists(f, a)
    {
      ListsMaps(f, a);
    }
  }

  lemma InitialHolds(f: WalletFile, v: string)
    requires Initial(f)
    ensures Holds(f, v, Maps(f, CONSENSUS, v), false, Maps(f, CONSENSUS_PENDING, v), Maps(f, COMPANION, v), false, Maps(f, COMPANION_PENDING, v))
  {
    ListsMaps(f, CONSENSUS_OLD);
    ListsMaps(f, COMPANION_OLD);
  }

  /** A value in one file after a failed second step: `x` and `y` say whether the rename and the undo reached it. */
  lemma SecondFile(f: WalletFile, x: bool, y: bool, v: string)
    requires Initial(f)
    ensures var g := Maybe(Maybe(Renamed(f, CONSENSUS, CONSENSUS_OLD), x, COMPANION, COMPANION_OLD), y, CONSENSUS_OLD, CONSENSUS);
            var c, k := Maps(f, CONSENSUS, v), Maps(f, COMPANION, v);
            Holds(g, v, c && y, c && !y, Maps(f, CONSENSUS_PENDING, v), k && !x, k && x, Maps(f, COMPANION_PENDING, v))
  {
    AliasesDiffer();
    InitialHolds(f, v);
    MapsLists(f, v);
    var f1 := Renamed(f, CONSENSUS, CONSENSUS_OLD);
    var f2 := Maybe(f1, x, COMPANION, COMPANION_OLD);
    var g := Maybe(f2, y, CONSENSUS_OLD, CONSENSUS);
    MaybeMaps(f, true, CONSENSUS, CONSENSUS_OLD);
    MaybeMaps(f1, x, COMPANION, COMPANION_OLD);
    MaybeMaps(f2, y, CONSENSUS_OLD, CONSENSUS);
  }

  /** The two restores, from any file; each replaces what its target held. */
  lemma RestoresHold(f: WalletFile, y1: bool, y2: bool, v: string)
    requires DistinctFile(f)
    ensures var g := Maybe(Maybe(f, y1, CONSENSUS_OLD, CONSENSUS), y2, COMPANION_OLD, COMPANION);
            var co, ko := Maps(f, CONSENSUS_OLD, v), Maps(f, COMPANION_OLD, v);
            Holds(g, v, if y1 && Lists(f, CONSENSUS_OLD) then co else Maps(f, CONSENSUS, v), co && !y1, Maps(f, CONSENSUS_PENDING, v),
                  if y2 && Lists(f, COMPANION_OLD) then ko else Maps(f, COMPANION, v), ko && !y2, Maps(f, COMPANION_PENDING, v))
  {
    AliasesDiffer();
    var g1 := Maybe(f, y1, CONSENSUS_OLD, CONSENSUS);
    MaybeMaps(f, y1, CONSENSUS_OLD, CONSENSUS);
    MaybeMaps(g1, y2, COMPANION_OLD, COMPANION);
    MapsLists(f, v);
    MapsLists(g1, v);
    MapsLists(Maybe(g1, y2, COMPANION_OLD, COMPANION), v);
  }

  /** After a failed third step; the restore of the consensus alias replaces a key promoted over it. */
  lemma ThirdFile(f: WalletFile, x: bool, y1: bool, y2: bool, v: string)
    requires Initial(f)
    ensures var g := Maybe(Maybe(Maybe(BackedUp(f), x, CONSENSUS_PENDING, CONSENSUS), y1, CONSENSUS_OLD, CONSENSUS), y2, COMPANION_OLD, COMPANION);
            var c, k, cp := Maps(f, CONSENSUS, v), Maps(f, COMPANION, v), Maps(f, CONSENSUS_PENDING, v);
            Holds(g, v, if y1 && Lists(f, CONSENSUS) then c else x && cp, c && !y1, cp && !x, k && y2, k && !y2, Maps(f, COMPANION_PENDING, v))
  {
    AliasesDiffer();
    BackedUpHolds(f);
    MapsLists(f, v);
    var f3 := Maybe(BackedUp(f), x, CONSENSUS_PENDING, CONSENSUS);
    MaybeMaps(BackedUp(f), x, CONSENSUS_PENDING, CONSENSUS);
    MapsLists(f3, v);
    RestoresHold(f3, y1, y2, v);
  }

  lemma BackedUpHolds(f: WalletFile)
    requires Initial(f)
    ensures var g := BackedUp(f);
            && DistinctFile(g) && !Lists(g, CONSENSUS) && !Lists(g, COMPANION)
            && (Lists(g, CONSENSUS_OLD) <==> Lists(f, CONSENSUS)) && (Lists(g, COMPANION_OLD) <==> Lists(f, COMPANION))
            && (Lists(g, CONSENSUS_PENDING) <==> Lists(f, CONSENSUS_PENDING)) && (Lists(g, COMPANION_PENDING) <==> Lists(f, COMPANION_PENDING))
    ensures forall v :: Holds(BackedUp(f), v, false, Maps(f, CONSENSUS, v), Maps(f, CONSENSUS_PENDING, v),
                              false, Maps(f, COMPANION, v), Maps(f, COMPANION_PENDING, v))
  {
    AliasesDiffer();
    BackedUpFacts(f);
    MaybeMaps(f, true, CONSENSUS, CONSENSUS_OLD);
    MaybeMaps(Renamed(f, CONSENSUS, CONSENSUS_OLD), true, COMPANION, COMPANION_OLD);
    forall v
      ensures Holds(BackedUp(f), v, false, Maps(f, CONSENSUS, v), Maps(f, CONSENSUS_PENDING, v),
                    false, Maps(f, COMPANION, v), Maps(f, COMPANION_PENDING, v))
    {
      SecondFile(f, true, false, v);
    }
  }

  /** A file in which the companion promotion failed, before anything is undone. */
  lemma FourthForward(f: WalletFile, x: bool, v: string)
    requires Initial(f)
    ensures var g := Maybe(Renamed(BackedUp(f), CONSENSUS_PENDING, CONSENSUS), x, COMPANION_PENDING, COMPANION);
            var cp, kp := Maps(f, CONSENSUS_PENDING, v), Maps(f, COMPANION_PENDING, v);
            && DistinctFile(g) && !Lists(g, CONSENSUS_PENDING) && (Lists(g, CONSENSUS) <==> Lists(f, CONSENSUS_PENDING))
            && (Lists(g, CONSENSUS_OLD) <==> Lists(f, CONSENSUS)) && (Lists(g, COMPANION_OLD) <==> Lists(f, COMPANION))
            && Holds(g, v, cp, Maps(f, CONSENSUS, v), false, x && kp, Maps(f, COMPANION, v), kp && !x)
  {
    AliasesDiffer();
    BackedUpHolds(f);
    MapsLists(f, v);
    var f3 := Renamed(BackedUp(f), CONSENSUS_PENDING, CONSENSUS);
    MaybeMaps(BackedUp(f), true, CONSENSUS_PENDING, CONSENSUS);
    MapsLists(f3, v);
    MaybeMaps(f3, x, COMPANION_PENDING, COMPANION);
    MapsLists(Maybe(f3, x, COMPANION_PENDING, COMPANION), v);
  }

  /** After a failed fourth step: the consensus promotion is taken back first, then both backups. */
  lemma FourthFile(f: WalletFile, x: bool, y0: bool, y1: bool, y2: bool, v: string)
    requires Initial(f)
    ensures var f4 := Maybe(Renamed(BackedUp(f), CONSENSUS_PENDING, CONSENSUS), x, COMPANION_PENDING, COMPANION);
            var g := Maybe(Maybe(Maybe(f4, y0, CONSENSUS, CONSENSUS_PENDING), y1, CONSENSUS_OLD, CONSENSUS), y2, COMPANION_OLD, COMPANION);
            var c, k, cp, kp := Maps(f, CONSENSUS, v), Maps(f, COMPANION, v), Maps(f, CONSENSUS_PENDING, v), Maps(f, COMPANION_PENDING, v);
            Holds(g, v, if y1 && Lists(f, CONSENSUS) then c else cp && !y0, c && !y1, cp && y0,
                  if y2 && Lists(f, COMPANION) then k else x && kp, k && !y2, kp && !x)
  {
    AliasesDiffer();
    FourthForward(f, x, v);
    MapsLists(f, v);
    var f4 := Maybe(Renamed(BackedUp(f), CONSENSUS_PENDING, CONSENSUS), x, COMPANION_PENDING, COMPANION);
    var g0 := Maybe(f4, y0, CONSENSUS, CONSENSUS_PENDING);
    MaybeMaps(f4, y0, CONSENSUS, CONSENSUS_PENDING);
    MapsLists(g0, v);
    RestoresHold(g0, y1, y2, v);
  }

  /** The second step is undone in a file when its rename did not reach a companion there and the undo reached the consensus. */
  lemma SecondRestored(f: WalletFile, x: bool, y: bool)
    requires Initial(f)
    ensures Maybe(Maybe(Renamed(f, CONSENSUS, CONSENSUS_OLD), x, COMPANION, COMPANION_OLD), y, CONSENSUS_OLD, CONSENSUS) == f <==>
              !(x && Lists(f, COMPANION)) && (Lists(f, CONSENSUS) ==> y)
  {
    AliasesDiffer();
    var f1 := Renamed(f, CONSENSUS, CONSENSUS_OLD);
    MaybeMaps(f, true, CONSENSUS, CONSENSUS_OLD);
    MaybeMaps(f1, x, COMPANION, COMPANION_OLD);
    if x && Lists(f, COMPANION) {
      var w := Value(f, COMPANION);
      SecondFile(f, x, y, w);
    } else if Lists(f, CONSENSUS) && !y {
      var w := Value(f, CONSENSUS);
      SecondFile(f, x, y, w);
    } else {
      RenameBackUndoes(f, CONSENSUS, CONSENSUS_OLD);
    }
  }

  lemma Value(f: WalletFile, a: string) returns (v: string)
    requires Lists(f, a)
    ensures Maps(f, a, v)
  {
    ListsMaps(f, a);
    v :| Maps(f, a, v);
  }

  lemma ThirdRestored(f: WalletFile, x: bool, y1: bool, y2: bool)
    requires Initial(f)
    ensures Maybe(Maybe(Maybe(BackedUp(f), x, CONSENSUS_PENDING, CONSENSUS), y1, CONSENSUS_OLD, CONSENSUS), y2, COMPANION_OLD, COMPANION) == f <==>
              !(x && Lists(f, CONSENSUS_PENDING)) && (Lists(f, CONSENSUS) ==> y1) && (Lists(f, COMPANION) ==> y2)
  {
    AliasesDiffer();
    InitialLists(f);
    if x && Lists(f, CONSENSUS_PENDING) {
      var w := Value(f, CONSENSUS_PENDING);
      ThirdFile(f, x, y1, y2, w);
    } else if Lists(f, CONSENSUS) && !y1 {
      var w := Value(f, CONSENSUS);
      ThirdFile(f, x, y1, y2, w);
    } else if Lists(f, COMPANION) && !y2 {
      var w := Value(f, COMPANION);
      ThirdFile(f, x, y1, y2, w);
    } else {
      BackedUpHolds(f);
      MaybeMaps(BackedUp(f), x, CONSENSUS_PENDING, CONSENSUS);
      RestoresUndo(f, y1, y2);
    }
  }

  /** No value is held under a backup name. */
  lemma InitialLists(f: WalletFile)
    requires Initial(f)
    ensures forall v :: !Maps(f, CONSENSUS_OLD, v) && !Maps(f, COMPANION_OLD, v)
  {
    ListsMaps(f, CONSENSUS_OLD);
    ListsMaps(f, COMPANION_OLD);
  }

  /** Restores that reach every backup undo both backups. */
  lemma RestoresUndo(f: WalletFile, y1: bool, y2: bool)
    requires Initial(f) && (Lists(f, CONSENSUS) ==> y1) && (Lists(f, COMPANION) ==> y2)
    ensures Maybe(Maybe(BackedUp(f), y1, CONSENSUS_OLD, CONSENSUS), y2, COMPANION_OLD, COMPANION) == f
  {
    AliasesDiffer();
    BackedUpHolds(f);
    var g1 := Renamed(BackedUp(f), CONSENSUS_OLD, CONSENSUS);
    MaybeMaps(BackedUp(f), true, CONSENSUS_OLD, CONSENSUS);
    MaybeMaps(g1, true, COMPANION_OLD, COMPANION);
    RestoreUndoesBackups(f);
  }

  lemma FourthRestored(f: WalletFile, x: bool, y0: bool, y1: bool, y2: bool)
    requires Initial(f)
    ensures var f4 := Maybe(Renamed(BackedUp(f), CONSENSUS_PENDING, CONSENSUS), x, COMPANION_PENDING, COMPANION);
            Maybe(Maybe(Maybe(f4, y0, CONSENSUS, CONSENSUS_PENDING), y1, CONSENSUS_OLD, CONSENSUS), y2, COMPANION_OLD, COMPANION) == f <==>
              && !(x && Lists(f, COMPANION_PENDING)) && (Lists(f, CONSENSUS_PENDING) ==> y0)
              && (Lists(f, CONSENSUS) ==> y1) && (Lists(f, COMPANION) ==> y2)
  {
    AliasesDiffer();
    InitialLists(f);
    if x && Lists(f, COMPANION_PENDING) {
      var w := Value(f, COMPANION_PENDING);
      FourthFile(f, x, y0, y1, y2, w);
    } else if Lists(f, CONSENSUS_PENDING) && !y0 {
      var w := Value(f, CONSENSUS_PENDING);
      FourthFile(f, x, y0, y1, y2, w);
    } else if Lists(f, CONSENSUS) && !y1 {
      var w := Value(f, CONSENSUS);
      FourthFile(f, x, y0, y1, y2, w);
    } else if Lists(f, COMPANION) && !y2 {
      var w := Value(f, COMPANION);
      FourthFile(f, x, y0, y1, y2, w);
    } else {
      DemotionUndoes(f, x, y0);
      RestoresUndo(f, y1, y2);
    }
  }

  /** A consensus promotion that is taken back leaves the backed-up file. */
  lemma DemotionUndoes(f: WalletFile, x: bool, y0: bool)
    requires Initial(f) && !(x && Lists(f, COMPANION_PENDING)) && (Lists(f, CONSENSUS_PENDING) ==> y0)
    ensures Maybe(Maybe(Renamed(BackedUp(f), CONSENSUS_PENDING, CONSENSUS), x, COMPANION_PENDING, COMPANION), y0, CONSENSUS, CONSENSUS_PENDING)
         == BackedUp(f)
  {
    AliasesDiffer();
    BackedUpHolds(f);
    var f3 := Renamed(BackedUp(f), CONSENSUS_PENDING, CONSENSUS);
    MaybeMaps(BackedUp(f), true, CONSENSUS_PENDING, CONSENSUS);
    MaybeMaps(f3, x, COMPANION_PENDING, COMPANION);
    RenameBackUndoes(BackedUp(f), CONSENSUS_PENDING, CONSENSUS);
  }

  // ---------------------------------------------------------------------------
  // The failed promotion over files and fault schedule
  // ---------------------------------------------------------------------------

  /** What each of the four renames moves, and what undoes a failure of each. */
  function StepNames(step: nat): (string, string) {
    if step == 1 then (CONSENSUS, CONSENSUS_OLD)
    else if step == 2 then (COMPANION, COMPANION_OLD)
    else if step == 3 then (CONSENSUS_PENDING, CONSENSUS)
    else (COMPANION_PENDING, COMPANION)
  }

  function UndoNames(step: nat): seq<(string, string)> {
    if step <= 1 then []
    else if step == 2 then [(CONSENSUS_OLD, CONSENSUS)]
    else if step == 3 then [(CONSENSUS_OLD, CONSENSUS), (COMPANION_OLD, COMPANION)]
    else [(CONSENSUS, CONSENSUS_PENDING), (CONSENSUS_OLD, CONSENSUS), (COMPANION_OLD, COMPANION)]
  }

  /** The wallet and the schedule when step `step` of the promotion begins. */
  ghost function Before(files: Files, step: nat, fails: nat -> bool, tick: nat): (r: Outcome)
    ensures |r.files| == |files|
    decreases step
  {
    if step <= 1 then Outcome(files, true, tick)
    else
      var p := Before(files, step - 1, fails, tick);
      Rename(p.files, StepNames(step - 1).0, StepNames(step - 1).1, fails, p.tick)
  }

  /** The wallet and the schedule when `k` undo renames of a failed step have been tried. */
  ghost function Undoing(files: Files, step: nat, k: nat, fails: nat -> bool, tick: nat): (r: Outcome)
    requires k <= |UndoNames(step)|
    ensures |r.files| == |files|
    decreases k
  {
    if k == 0 then Before(files, step + 1, fails, tick)
    else
      var p := Undoing(files, step, k - 1, fails, tick);
      Rename(p.files, UndoNames(step)[k - 1].0, UndoNames(step)[k - 1].1, fails, p.tick)
  }

  /** Step `step` gets past file `i`: no read, parse or write up to there fails. */
  ghost predicate Reaches(files: Files, step: nat, i: nat, fails: nat -> bool, tick: nat)
    requires i < |files|
  {
    var p := Before(files, step, fails, tick);
    Completes(p.files, i + 1, StepNames(step).0, StepNames(step).1, fails, p.tick)
  }

  /** So does undo rename `k` of a failed step. */
  ghost predicate UndoReaches(files: Files, step: nat, k: nat, i: nat, fails: nat -> bool, tick: nat)
    requires i < |files| && k < |UndoNames(step)|
  {
    var p := Undoing(files, step, k, fails, tick);
    Completes(p.files, i + 1, UndoNames(step)[k].0, UndoNames(step)[k].1, fails, p.tick)
  }

  /** Undo rename `k` reports success. */
  ghost predicate UndoOk(files: Files, step: nat, k: nat, fails: nat -> bool, tick: nat)
    requires k < |UndoNames(step)|
  {
    Undoing(files, step, k + 1, fails, tick).ok
  }

  lemma FileAfter(files: Files, i: nat, from: string, to: string, fails: nat -> bool, tick: nat)
    requires i < |files|
    ensures var r := Rename(files, from, to, fails, tick);
            && r.files[i] == Maybe(files[i], Completes(files, i + 1, from, to, fails, tick), from, to)
            && (r.ok ==> Completes(files, i + 1, from, to, fails, tick))
  {
    RenameUpToExact(files, |files|, from, to, fails, tick);
  }

  /** No file before the first blocking one lists the alias. */
  ghost predicate TouchesNone(files: Files, from: string, to: string, fails: nat -> bool, tick: nat) {
    forall i: nat | i < |files| && Completes(files, i + 1, from, to, fails, tick) :: !Lists(files[i], from)
  }

  lemma TouchesNoneIff(files: Files, from: string, to: string, fails: nat -> bool, tick: nat)
    requires from != to && DistinctNames(files)
    ensures Rename(files, from, to, fails, tick).files == files <==> TouchesNone(files, from, to, fails, tick)
  {
    var r := Rename(files, from, to, fails, tick);
    forall i: nat | i < |files|
      ensures r.files[i] == files[i] <==> !(Completes(files, i + 1, from, to, fails, tick) && Lists(files[i], from))
    {
      FileAfter(files, i, from, to, fails, tick);
      MaybeMaps(files[i], Completes(files, i + 1, from, to, fails, tick), from, to);
    }
  }

  /** The run of a failed promotion, rename by rename. */
  lemma PromoteTrace(files: Files, fails: nat -> bool, tick: nat)
    requires Promote(files, true, fails, tick).result.Failed?
    ensures var run := Promote(files, true, fails, tick);
            var (step, n) := (run.result.step, |UndoNames(run.result.step)|);
            && 1 <= step <= 4 && run.files == Undoing(files, step, n, fails, tick).files && |run.result.undo| == n
            && (forall s: nat | 1 < s <= step :: Before(files, s, fails, tick).ok) && !Before(files, step + 1, fails, tick).ok
            && run.result.forward == StepOf(Before(files, step, fails, tick).files, Before(files, step + 1, fails, tick))
            && (forall k: nat | k < n ::
                  run.result.undo[k] == StepOf(Undoing(files, step, k, fails, tick).files, Undoing(files, step, k + 1, fails, tick)))
            && (run.result.unrestored == [] <==> forall k: nat | k < n :: UndoOk(files, step, k, fails, tick))
  {
    var p2 := Before(files, 2, fails, tick);
    assert p2 == Rename(files, CONSENSUS, CONSENSUS_OLD, fails, tick);
    var p3 := Before(files, 3, fails, tick);
    assert p3 == Rename(p2.files, COMPANION, COMPANION_OLD, fails, p2.tick);
    var p4 := Before(files, 4, fails, tick);
    assert p4 == Rename(p3.files, CONSENSUS_PENDING, CONSENSUS, fails, p3.tick);
    var p5 := Before(files, 5, fails, tick);
    assert p5 == Rename(p4.files, COMPANION_PENDING, COMPANION, fails, p4.tick);
    var step := Promote(files, true, fails, tick).result.step;
    if step >= 2 {
      UndoStep(files, step, 0, fails, tick);
      if step >= 3 {
        UndoStep(files, step, 1, fails, tick);
        if step == 4 {
          UndoStep(files, step, 2, fails, tick);
          assert UndoOk(files, step, 0, fails, tick) && UndoOk(files, step, 1, fails, tick) && UndoOk(files, step, 2, fails, tick)
              <==> forall k: nat | k < 3 :: UndoOk(files, step, k, fails, tick);
        }
      }
    }
  }

  lemma UndoStep(files: Files, step: nat, k: nat, fails: nat -> bool, tick: nat)
    requires k < |UndoNames(step)|
    ensures var u, u' := Undoing(files, step, k, fails, tick), Undoing(files, step, k + 1, fails, tick);
            u' == Rename(u.files, UndoNames(step)[k].0, UndoNames(step)[k].1, fails, u.tick) && UndoOk(files, step, k, fails, tick) == u'.ok
  {
  }

  /** A file when step `step` begins, all earlier ones having succeeded. */
  ghost function Ready(f: WalletFile, step: nat): WalletFile {
    if step <= 1 then f
    else if step == 2 then Renamed(f, CONSENSUS, CONSENSUS_OLD)
    else if step == 3 then BackedUp(f)
    else Renamed(BackedUp(f), CONSENSUS_PENDING, CONSENSUS)
  }

  lemma {:induction false} ForwardFile(files: Files, step: nat, i: nat, fails: nat -> bool, tick: nat)
    requires 1 <= step <= 4 && i < |files| && forall s: nat | 1 < s <= step :: Before(files, s, fails, tick).ok
    ensures Before(files, step, fails, tick).files[i] == Ready(files[i], step)
    ensures Before(files, step + 1, fails, tick).files[i]
         == Maybe(Ready(files[i], step), Reaches(files, step, i, fails, tick), StepNames(step).0, StepNames(step).1)
    decreases step
  {
    var p := Before(files, step, fails, tick);
    if step > 1 {
      ForwardFile(files, step - 1, i, fails, tick);
      var q := Before(files, step - 1, fails, tick);
      FileAfter(q.files, i, StepNames(step - 1).0, StepNames(step - 1).1, fails, q.tick);
      assert p.ok;
    }
    FileAfter(p.files, i, StepNames(step).0, StepNames(step).1, fails, p.tick);
  }

  lemma UndoneFile(files: Files, step: nat, k: nat, i: nat, fails: nat -> bool, tick: nat)
    requires i < |files| && k < |UndoNames(step)|
    ensures Undoing(files, step, k + 1, fails, tick).files[i]
         == Maybe(Undoing(files, step, k, fails, tick).files[i], UndoReaches(files, step, k, i, fails, tick), UndoNames(step)[k].0, UndoNames(step)[k].1)
    ensures UndoOk(files, step, k, fails, tick) ==> UndoReaches(files, step, k, i, fails, tick)
  {
    var u := Undoing(files, step, k, fails, tick);
    UndoStep(files, step, k, fails, tick);
    FileAfter(u.files, i, UndoNames(step)[k].0, UndoNames(step)[k].1, fails, u.tick);
  }

  ghost predicate FailedAt(files: Files, step: nat, fails: nat -> bool, tick: nat) {
    var r := Promote(files, true, fails, tick).result;
    r.Failed? && r.step == step
  }

  ghost function Final(files: Files, i: nat, fails: nat -> bool, tick: nat): WalletFile
    requires i < |files|
  {
    var run := Promote(files, true, fails, tick);
    if i < |run.files| then run.files[i] else Absent
  }

  lemma SecondTrace(files: Files, i: nat, fails: nat -> bool, tick: nat)
    requires i < |files| && FailedAt(files, 2, fails, tick)
    ensures Final(files, i, fails, tick) ==
              Maybe(Maybe(Renamed(files[i], CONSENSUS, CONSENSUS_OLD), Reaches(files, 2, i, fails, tick), COMPANION, COMPANION_OLD),
                    UndoReaches(files, 2, 0, i, fails, tick), CONSENSUS_OLD, CONSENSUS)
  {
    PromoteTrace(files, fails, tick);
    ForwardFile(files, 2, i, fails, tick);
    UndoneFile(files, 2, 0, i, fails, tick);
  }

  lemma ThirdTrace(files: Files, i: nat, fails: nat -> bool, tick: nat)
    requires i < |files| && FailedAt(files, 3, fails, tick)
    ensures Final(files, i, fails, tick) ==
              Maybe(Maybe(Maybe(BackedUp(files[i]), Reaches(files, 3, i, fails, tick), CONSENSUS_PENDING, CONSENSUS),
                          UndoReaches(files, 3, 0, i, fails, tick), CONSENSUS_OLD, CONSENSUS),
                    UndoReaches(files, 3, 1, i, fails, tick), COMPANION_OLD, COMPANION)
  {
    PromoteTrace(files, fails, tick);
    ForwardFile(files, 3, i, fails, tick);
    UndoneFile(files, 3, 0, i, fails, tick);
    UndoneFile(files, 3, 1, i, fails, tick);
  }

  lemma FourthTrace(files: Files, i: nat, fails: nat -> bool, tick: nat)
    requires i < |files| && FailedAt(files, 4, fails, tick)
    ensures var f4 := Maybe(Renamed(BackedUp(files[i]), CONSENSUS_PENDING, CONSENSUS), Reaches(files, 4, i, fails, tick), COMPANION_PENDING, COMPANION);
            Final(files, i, fails, tick) ==
              Maybe(Maybe(Maybe(f4, UndoReaches(files, 4, 0, i, fails, tick), CONSENSUS, CONSENSUS_PENDING),
                          UndoReaches(files, 4, 1, i, fails, tick), CONSENSUS_OLD, CONSENSUS),
                    UndoReaches(files, 4, 2, i, fails, tick), COMPANION_OLD, COMPANION)
  {
    PromoteTrace(files, fails, tick);
    ForwardFile(files, 4, i, fails, tick);
    UndoneFile(files, 4, 0, i, fails, tick);
    UndoneFile(files, 4, 1, i, fails, tick);
    UndoneFile(files, 4, 2, i, fails, tick);
  }

  // ---------------------------------------------------------------------------
  // When everything is restored
  // ---------------------------------------------------------------------------

  /**
   * In this file the failing rename did not get to the alias it moves, and every undo got to the
   * alias it brings back.
   */
  ghost predicate UndoneAt(files: Files, step: nat, i: nat, fails: nat -> bool, tick: nat)
    requires i < |files|
  {
    && !(Reaches(files, step, i, fails, tick) && Lists(files[i], StepNames(step).0))
    && forall k: nat | k < |UndoNames(step)| :: Lists(files[i], UndoNames(step)[k].1) ==> UndoReaches(files, step, k, i, fails, tick)
  }

  ghost predicate AllUndone(files: Files, step: nat, fails: nat -> bool, tick: nat) {
    forall i: nat | i < |files| :: UndoneAt(files, step, i, fails, tick)
  }

  lemma FinalIs(files: Files, fails: nat -> bool, tick: nat)
    requires Promote(files, true, fails, tick).result.Failed?
    ensures Promote(files, true, fails, tick).files == files <==> forall i: nat | i < |files| :: Final(files, i, fails, tick) == files[i]
  {
    PromoteTrace(files, fails, tick);
  }

  /** A failure while backing up the consensus alias. */
  lemma FirstStepReport(files: Files, i: nat, fails: nat -> bool, tick: nat)
    requires Startable(files) && i < |files| && FailedAt(files, 1, fails, tick)
    ensures Final(files, i, fails, tick) == files[i] <==> UndoneAt(files, 1, i, fails, tick)
  {
    AliasesDiffer();
    PromoteTrace(files, fails, tick);
    ForwardFile(files, 1, i, fails, tick);
    MaybeMaps(files[i], Reaches(files, 1, i, fails, tick), CONSENSUS, CONSENSUS_OLD);
  }

  /** A failure while backing up the companion alias. */
  lemma SecondStepReport(files: Files, i: nat, fails: nat -> bool, tick: nat)
    requires Startable(files) && i < |files| && FailedAt(files, 2, fails, tick)
    ensures Final(files, i, fails, tick) == files[i] <==> UndoneAt(files, 2, i, fails, tick)
  {
    SecondTrace(files, i, fails, tick);
    SecondRestored(files[i], Reaches(files, 2, i, fails, tick), UndoReaches(files, 2, 0, i, fails, tick));
  }

  /** A failure while promoting the consensus alias. */
  lemma ThirdStepReport(files: Files, i: nat, fails: nat -> bool, tick: nat)
    requires Startable(files) && i < |files| && FailedAt(files, 3, fails, tick)
    ensures Final(files, i, fails, tick) == files[i] <==> UndoneAt(files, 3, i, fails, tick)
  {
    ThirdTrace(files, i, fails, tick);
    var y1, y2 := UndoReaches(files, 3, 0, i, fails, tick), UndoReaches(files, 3, 1, i, fails, tick);
    ThirdRestored(files[i], Reaches(files, 3, i, fails, tick), y1, y2);
    assert UndoNames(3)[0].1 == CONSENSUS && UndoNames(3)[1].1 == COMPANION;
  }

  /** A failure while promoting the companion alias. */
  lemma FourthStepReport(files: Files, i: nat, fails: nat -> bool, tick: nat)
    requires Startable(files) && i < |files| && FailedAt(files, 4, fails, tick)
    ensures Final(files, i, fails, tick) == files[i] <==> UndoneAt(files, 4, i, fails, tick)
  {
    FourthTrace(files, i, fails, tick);
    var y0, y1, y2 := UndoReaches(files, 4, 0, i, fails, tick), UndoReaches(files, 4, 1, i, fails, tick), UndoReaches(files, 4, 2, i, fails, tick);
    FourthRestored(files[i], Reaches(files, 4, i, fails, tick), y0, y1, y2);
    assert UndoNames(4)[0].1 == CONSENSUS_PENDING && UndoNames(4)[1].1 == CONSENSUS && UndoNames(4)[2].1 == COMPANION;
  }

  /**
   * Whatever it reports, a failed promotion has restored all three wallet files, order included,
   * exactly when in every file the failing rename moved nothing and the undos reached what they
   * had to bring back.
   */
  lemma RestoredIff(files: Files, fails: nat -> bool, tick: nat)
    requires Startable(files) && Promote(files, true, fails, tick).result.Failed?
    ensures var run := Promote(files, true, fails, tick);
            run.files == files <==> AllUndone(files, run.result.step, fails, tick)
  {
    var step := Promote(files, true, fails, tick).result.step;
    PromoteTrace(files, fails, tick);
    FinalIs(files, fails, tick);
    forall i: nat | i < |files|
      ensures Final(files, i, fails, tick) == files[i] <==> UndoneAt(files, step, i, fails, tick)
    {
      if step == 1 {
        FirstStepReport(files, i, fails, tick);
      } else if step == 2 {
        SecondStepReport(files, i, fails, tick);
      } else if step == 3 {
        ThirdStepReport(files, i, fails, tick);
      } else {
        FourthStepReport(files, i, fails, tick);
      }
    }
  }

  /** The failing rename had moved nothing: no file it got past lists the alias. */
  ghost predicate ForwardClean(files: Files, step: nat, fails: nat -> bool, tick: nat) {
    forall i: nat | i < |files| && Reaches(files, step, i, fails, tick) :: !Lists(files[i], StepNames(step).0)
  }

  /** A failed promotion that names no unrestored alias has restored everything exactly when its failing rename was clean. */
  lemma SilentReportExact(files: Files, fails: nat -> bool, tick: nat)
    requires Startable(files)
    requires var r := Promote(files, true, fails, tick).result; r.Failed? && r.unrestored == []
    ensures var run := Promote(files, true, fails, tick);
            run.files == files <==> ForwardClean(files, run.result.step, fails, tick)
  {
    var step := Promote(files, true, fails, tick).result.step;
    RestoredIff(files, fails, tick);
    PromoteTrace(files, fails, tick);
    forall i: nat | i < |files|
      ensures UndoneAt(files, step, i, fails, tick) <==> !(Reaches(files, step, i, fails, tick) && Lists(files[i], StepNames(step).0))
    {
      forall k: nat | k < |UndoNames(step)|
        ensures UndoReaches(files, step, k, i, fails, tick)
      {
        assert UndoOk(files, step, k, fails, tick);
        UndoneFile(files, step, k, i, fails, tick);
      }
    }
  }

  /** Every failing rename of the run left all files as they were. */
  ghost predicate Atomic(r: PromoteResult) {
    r.Failed? && r.forward.after == r.forward.before && forall s | s in r.undo && !s.ok :: s.after == s.before
  }

  /** Before its undo, the primary file lists what the undo moves, and listed what it brings back. */
  lemma SourceListed(files: Files, step: nat, k: nat, fails: nat -> bool, tick: nat)
    requires Startable(files) && FailedAt(files, step, fails, tick) && k < |UndoNames(step)|
    ensures |files| > 0 && Lists(files[0], UndoNames(step)[k].1) && Lists(Undoing(files, step, k, fails, tick).files[0], UndoNames(step)[k].0)
  {
    PromoteTrace(files, fails, tick);
    PrimaryAliases(files, step, fails, tick);
    if step == 2 {
      SecondSource(files, fails, tick);
    } else if step == 3 {
      ThirdSource(files, fails, tick);
    } else {
      FourthSource(files, fails, tick);
    }
  }

  lemma StepsOk(files: Files, step: nat, fails: nat -> bool, tick: nat)
    requires FailedAt(files, step, fails, tick)
    ensures 1 <= step <= 4 && forall s: nat | 1 < s <= step :: Before(files, s, fails, tick).ok
  {
    PromoteTrace(files, fails, tick);
  }

  lemma SecondSource(files: Files, fails: nat -> bool, tick: nat)
    requires Startable(files) && FailedAt(files, 2, fails, tick) && |files| > 0 && Lists(files[0], CONSENSUS)
    ensures Lists(Undoing(files, 2, 0, fails, tick).files[0], CONSENSUS_OLD)
  {
    AliasesDiffer();
    StepsOk(files, 2, fails, tick);
    ForwardFile(files, 2, 0, fails, tick);
    MaybeMaps(files[0], true, CONSENSUS, CONSENSUS_OLD);
    MaybeMaps(Ready(files[0], 2), Reaches(files, 2, 0, fails, tick), COMPANION, COMPANION_OLD);
  }

  lemma ThirdSource(files: Files, fails: nat -> bool, tick: nat)
    requires Startable(files) && FailedAt(files, 3, fails, tick) && |files| > 0 && Lists(files[0], CONSENSUS) && Lists(files[0], COMPANION)
    ensures Lists(Undoing(files, 3, 0, fails, tick).files[0], CONSENSUS_OLD) && Lists(Undoing(files, 3, 1, fails, tick).files[0], COMPANION_OLD)
  {
    AliasesDiffer();
    StepsOk(files, 3, fails, tick);
    ForwardFile(files, 3, 0, fails, tick);
    BackedUpHolds(files[0]);
    MaybeMaps(BackedUp(files[0]), Reaches(files, 3, 0, fails, tick), CONSENSUS_PENDING, CONSENSUS);
    UndoneFile(files, 3, 0, 0, fails, tick);
    MaybeMaps(Undoing(files, 3, 0, fails, tick).files[0], UndoReaches(files, 3, 0, 0, fails, tick), CONSENSUS_OLD, CONSENSUS);
  }

  lemma FourthSource(files: Files, fails: nat -> bool, tick: nat)
    requires Startable(files) && FailedAt(files, 4, fails, tick) && |files| > 0
    requires Lists(files[0], CONSENSUS) && Lists(files[0], COMPANION) && Lists(files[0], CONSENSUS_PENDING)
    ensures Lists(Undoing(files, 4, 0, fails, tick).files[0], CONSENSUS) && Lists(Undoing(files, 4, 1, fails, tick).files[0], CONSENSUS_OLD)
    ensures Lists(Undoing(files, 4, 2, fails, tick).files[0], COMPANION_OLD)
  {
    AliasesDiffer();
    StepsOk(files, 4, fails, tick);
    ForwardFile(files, 4, 0, fails, tick);
    FourthForward(files[0], Reaches(files, 4, 0, fails, tick), "");
    var (g, y0, y1) := (Undoing(files, 4, 0, fails, tick).files[0], UndoReaches(files, 4, 0, 0, fails, tick), UndoReaches(files, 4, 1, 0, fails, tick));
    UndoneFile(files, 4, 0, 0, fails, tick);
    UndoneFile(files, 4, 1, 0, fails, tick);
    BackupsStayListed(g, y0, y1);
  }

  /** Taking back the consensus promotion and restoring the consensus backup leave the companion backup alone. */
  lemma BackupsStayListed(f: WalletFile, y0: bool, y1: bool)
    requires DistinctFile(f) && Lists(f, CONSENSUS_OLD) && Lists(f, COMPANION_OLD)
    ensures Lists(Maybe(f, y0, CONSENSUS, CONSENSUS_PENDING), CONSENSUS_OLD)
    ensures Lists(Maybe(Maybe(f, y0, CONSENSUS, CONSENSUS_PENDING), y1, CONSENSUS_OLD, CONSENSUS), COMPANION_OLD)
  {
    AliasesDiffer();
    MaybeMaps(f, y0, CONSENSUS, CONSENSUS_PENDING);
    MaybeMaps(Maybe(f, y0, CONSENSUS, CONSENSUS_PENDING), y1, CONSENSUS_OLD, CONSENSUS);
  }

  /** The aliases the completed steps found in the primary file were there from the start. */
  lemma PrimaryAliases(files: Files, step: nat, fails: nat -> bool, tick: nat)
    requires Startable(files) && FailedAt(files, step, fails, tick) && step >= 2
    ensures |files| > 0 && Lists(files[0], CONSENSUS)
    ensures step >= 3 ==> Lists(files[0], COMPANION)
    ensures step >= 4 ==> Lists(files[0], CONSENSUS_PENDING)
  {
    AliasesDiffer();
    PromoteTrace(files, fails, tick);
    assert Before(files, 2, fails, tick).ok;
    PrimaryLists(files, CONSENSUS, CONSENSUS_OLD);
    MaybeMaps(files[0], true, CONSENSUS, CONSENSUS_OLD);
    if step >= 3 {
      assert Before(files, 3, fails, tick).ok;
      ForwardFile(files, 2, 0, fails, tick);
      PrimaryLists(Before(files, 2, fails, tick).files, COMPANION, COMPANION_OLD);
    }
    if step >= 4 {
      assert Before(files, 4, fails, tick).ok;
      ForwardFile(files, 3, 0, fails, tick);
      BackedUpHolds(files[0]);
      PrimaryLists(Before(files, 3, fails, tick).files, CONSENSUS_PENDING, CONSENSUS);
    }
  }

  /** If failing renames touch nothing, the report is exact in both directions. */
  lemma RollbackReportExact(files: Files, fails: nat -> bool, tick: nat)
    requires Startable(files) && Atomic(Promote(files, true, fails, tick).result)
    ensures var run := Promote(files, true, fails, tick);
            run.result.unrestored == [] <==> run.files == files
  {
    var run := Promote(files, true, fails, tick);
    var step := run.result.step;
    PromoteTrace(files, fails, tick);
    if run.result.unrestored == [] {
      SilentReportExact(files, fails, tick);
      CleanForward(files, fails, tick);
    } else if run.files == files {
      RestoredIff(files, fails, tick);
      var k: nat :| k < |UndoNames(step)| && !UndoOk(files, step, k, fails, tick);
      UndoStep(files, step, k, fails, tick);
      assert run.result.undo[k] in run.result.undo;
      SourceListed(files, step, k, fails, tick);
      assert UndoneAt(files, step, 0, fails, tick);
      UndoneFile(files, step, k, 0, fails, tick);
      ReachedSourceMoves(files, step, k, fails, tick);
    }
  }

  lemma {:induction false} UndoingDistinct(files: Files, step: nat, k: nat, fails: nat -> bool, tick: nat)
    requires DistinctNames(files) && k <= |UndoNames(step)|
    ensures DistinctNames(Undoing(files, step, k, fails, tick).files)
    decreases k
  {
    AliasesDiffer();
    if k == 0 {
      BeforeDistinct(files, step + 1, fails, tick);
    } else {
      UndoingDistinct(files, step, k - 1, fails, tick);
      var p := Undoing(files, step, k - 1, fails, tick);
      RenameKeepsDistinct(p.files, UndoNames(step)[k - 1].0, UndoNames(step)[k - 1].1, fails, p.tick);
    }
  }

  lemma RenameKeepsDistinct(files: Files, from: string, to: string, fails: nat -> bool, tick: nat)
    requires from != to && DistinctNames(files)
    ensures DistinctNames(Rename(files, from, to, fails, tick).files)
  {
    forall i: nat | i < |files|
      ensures DistinctFile(Rename(files, from, to, fails, tick).files[i])
    {
      FileAfter(files, i, from, to, fails, tick);
      MaybeMaps(files[i], Completes(files, i + 1, from, to, fails, tick), from, to);
    }
  }

  lemma {:induction false} BeforeDistinct(files: Files, step: nat, fails: nat -> bool, tick: nat)
    requires DistinctNames(files)
    ensures DistinctNames(Before(files, step, fails, tick).files)
    decreases step
  {
    if step > 1 {
      AliasesDiffer();
      BeforeDistinct(files, step - 1, fails, tick);
      var p := Before(files, step - 1, fails, tick);
      RenameKeepsDistinct(p.files, StepNames(step - 1).0, StepNames(step - 1).1, fails, p.tick);
    }
  }

  /** An undo that reaches the alias it moves changes the file. */
  lemma ReachedSourceMoves(files: Files, step: nat, k: nat, fails: nat -> bool, tick: nat)
    requires DistinctNames(files) && |files| > 0 && k < |UndoNames(step)| && UndoReaches(files, step, k, 0, fails, tick)
    requires Lists(Undoing(files, step, k, fails, tick).files[0], UndoNames(step)[k].0)
    ensures Undoing(files, step, k + 1, fails, tick).files != Undoing(files, step, k, fails, tick).files
  {
    AliasesDiffer();
    UndoingDistinct(files, step, k, fails, tick);
    UndoneFile(files, step, k, 0, fails, tick);
    MaybeMaps(Undoing(files, step, k, fails, tick).files[0], true, UndoNames(step)[k].0, UndoNames(step)[k].1);
  }

  /** A failing rename that changed nothing was clean. */
  lemma CleanForward(files: Files, fails: nat -> bool, tick: nat)
    requires Startable(files) && Promote(files, true, fails, tick).result.Failed?
    requires var r := Promote(files, true, fails, tick).result; r.forward.after == r.forward.before
    ensures ForwardClean(files, Promote(files, true, fails, tick).result.step, fails, tick)
  {
    AliasesDiffer();
    var step := Promote(files, true, fails, tick).result.step;
    PromoteTrace(files, fails, tick);
    forall i: nat | i < |files| && Reaches(files, step, i, fails, tick)
      ensures !Lists(files[i], StepNames(step).0)
    {
      ForwardFile(files, step, i, fails, tick);
      BeforeDistinct(files, step, fails, tick);
      MaybeMaps(Ready(files[i], step), true, StepNames(step).0, StepNames(step).1);
      ReadyLists(files[i], step);
    }
  }

  lemma ReadyLists(f: WalletFile, step: nat)
    requires Initial(f) && 1 <= step <= 4
    ensures Lists(Ready(f, step), StepNames(step).0) <==> Lists(f, StepNames(step).0)
  {
    AliasesDiffer();
    MaybeMaps(f, true, CONSENSUS, CONSENSUS_OLD);
    BackedUpHolds(f);
    MaybeMaps(BackedUp(f), true, CONSENSUS_PENDING, CONSENSUS);
  }

  // ---------------------------------------------------------------------------
  // Which aliases are restored, whatever the report names
  // ---------------------------------------------------------------------------

  /** The place of the consensus restore among the undos; the companion's follows it. */
  function ConsensusUndo(step: nat): nat {
    if step == 4 then 1 else 0
  }

  /** An outgoing consensus key is back under its name in a file exactly when its restore reached the file. */
  lemma ConsensusRestoredIff(files: Files, step: nat, i: nat, fails: nat -> bool, tick: nat, v: string)
    requires Startable(files) && i < |files| && FailedAt(files, step, fails, tick) && 2 <= step <= 4
    requires Maps(files[i], CONSENSUS, v) && !Maps(files[i], CONSENSUS_PENDING, v)
    ensures Maps(Final(files, i, fails, tick), CONSENSUS, v) <==> UndoReaches(files, step, ConsensusUndo(step), i, fails, tick)
  {
    MapsLists(files[i], v);
    FinalHolds(files, step, i, fails, tick, v);
  }

  /** So is an outgoing companion key, once its backup had succeeded. */
  lemma CompanionRestoredIff(files: Files, step: nat, i: nat, fails: nat -> bool, tick: nat, v: string)
    requires Startable(files) && i < |files| && FailedAt(files, step, fails, tick) && 3 <= step <= 4
    requires Maps(files[i], COMPANION, v) && !Maps(files[i], COMPANION_PENDING, v)
    ensures Maps(Final(files, i, fails, tick), COMPANION, v) <==> UndoReaches(files, step, ConsensusUndo(step) + 1, i, fails, tick)
  {
    MapsLists(files[i], v);
    FinalHolds(files, step, i, fails, tick, v);
  }

  /** Where a value is in one file after a failed promotion. */
  lemma FinalHolds(files: Files, step: nat, i: nat, fails: nat -> bool, tick: nat, v: string)
    requires Startable(files) && i < |files| && FailedAt(files, step, fails, tick) && 2 <= step <= 4
    ensures var (f, x) := (files[i], Reaches(files, step, i, fails, tick));
            var c, k, cp, kp := Maps(f, CONSENSUS, v), Maps(f, COMPANION, v), Maps(f, CONSENSUS_PENDING, v), Maps(f, COMPANION_PENDING, v);
            var y1 := UndoReaches(files, step, ConsensusUndo(step), i, fails, tick);
            var g := Final(files, i, fails, tick);
            && (step == 2 ==> Holds(g, v, c && y1, c && !y1, cp, k && !x, k && x, kp))
            && (step == 3 ==>
                  var y2 := UndoReaches(files, 3, 1, i, fails, tick);
                  Holds(g, v, if y1 && Lists(f, CONSENSUS) then c else x && cp, c && !y1, cp && !x, k && y2, k && !y2, kp))
            && (step == 4 ==>
                  var y0, y2 := UndoReaches(files, 4, 0, i, fails, tick), UndoReaches(files, 4, 2, i, fails, tick);
                  Holds(g, v, if y1 && Lists(f, CONSENSUS) then c else cp && !y0, c && !y1, cp && y0,
                        if y2 && Lists(f, COMPANION) then k else x && kp, k && !y2, kp && !x))
  {
    var f, x := files[i], Reaches(files, step, i, fails, tick);
    if step == 2 {
      SecondTrace(files, i, fails, tick);
      SecondFile(f, x, UndoReaches(files, 2, 0, i, fails, tick), v);
    } else if step == 3 {
      ThirdTrace(files, i, fails, tick);
      ThirdFile(f, x, UndoReaches(files, 3, 0, i, fails, tick), UndoReaches(files, 3, 1, i, fails, tick), v);
    } else {
      FourthTrace(files, i, fails, tick);
      FourthFile(f, x, UndoReaches(files, 4, 0, i, fails, tick), UndoReaches(files, 4, 1, i, fails, tick), UndoReaches(files, 4, 2, i, fails, tick), v);
    }
  }

  // ---------------------------------------------------------------------------
  // When an incoming key is lost
  // ---------------------------------------------------------------------------

  /** The key is in the file under neither of the names an incoming key can have. */
  ghost predicate Lost(f: WalletFile, pending: string, live: string, v: string) {
    !Maps(f, pending, v) && !Maps(f, live, v)
  }

  /** A failed promotion restored the consensus backup over the incoming key in this file. */
  ghost predicate ConsensusOverwritten(files: Files, step: nat, i: nat, fails: nat -> bool, tick: nat)
    requires i < |files|
  {
    && Lists(files[i], CONSENSUS)
    && ((step == 3 && Reaches(files, 3, i, fails, tick) && UndoReaches(files, 3, 0, i, fails, tick))
        || (step == 4 && !UndoReaches(files, 4, 0, i, fails, tick) && UndoReaches(files, 4, 1, i, fails, tick)))
  }

  ghost predicate CompanionOverwritten(files: Files, step: nat, i: nat, fails: nat -> bool, tick: nat)
    requires i < |files|
  {
    Lists(files[i], COMPANION) && step == 4 && Reaches(files, 4, i, fails, tick) && UndoReaches(files, 4, 2, i, fails, tick)
  }

  /**
   * An incoming consensus key is lost from a file exactly when a failed promotion restored another
   * key over it: after a third step that had reached the file, or after a fourth whose demotion
   * had not.
   */
  lemma ConsensusLostIff(files: Files, i: nat, fails: nat -> bool, tick: nat, v: string)
    requires Startable(files) && i < |files| && Maps(files[i], CONSENSUS_PENDING, v)
    ensures var r := Promote(files, true, fails, tick).result;
            Lost(Final(files, i, fails, tick), CONSENSUS_PENDING, CONSENSUS, v) <==>
              r.Failed? && !Maps(files[i], CONSENSUS, v) && ConsensusOverwritten(files, r.step, i, fails, tick)
  {
    var r := Promote(files, true, fails, tick).result;
    MapsLists(files[i], v);
    if r.Promoted? {
      PromotedMeansSwapped(files, fails, tick, i);
    } else if r.step == 1 {
      FirstStepHolds(files, i, fails, tick, v);
    } else {
      PromoteTrace(files, fails, tick);
      FinalHolds(files, r.step, i, fails, tick, v);
    }
  }

  /** So is an incoming companion key, after a fourth step that had reached the file. */
  lemma CompanionLostIff(files: Files, i: nat, fails: nat -> bool, tick: nat, v: string)
    requires Startable(files) && i < |files| && Maps(files[i], COMPANION_PENDING, v)
    ensures var r := Promote(files, true, fails, tick).result;
            Lost(Final(files, i, fails, tick), COMPANION_PENDING, COMPANION, v) <==>
              r.Failed? && !Maps(files[i], COMPANION, v) && CompanionOverwritten(files, r.step, i, fails, tick)
  {
    var r := Promote(files, true, fails, tick).result;
    MapsLists(files[i], v);
    if r.Promoted? {
      PromotedMeansSwapped(files, fails, tick, i);
    } else if r.step == 1 {
      FirstStepHolds(files, i, fails, tick, v);
    } else {
      PromoteTrace(files, fails, tick);
      FinalHolds(files, r.step, i, fails, tick, v);
    }
  }

  lemma FirstStepHolds(files: Files, i: nat, fails: nat -> bool, tick: nat, v: string)
    requires Startable(files) && i < |files| && FailedAt(files, 1, fails, tick)
    ensures Maps(Final(files, i, fails, tick), CONSENSUS_PENDING, v) <==> Maps(files[i], CONSENSUS_PENDING, v)
    ensures Maps(Final(files, i, fails, tick), COMPANION_PENDING, v) <==> Maps(files[i], COMPANION_PENDING, v)
  {
    AliasesDiffer();
    PromoteTrace(files, fails, tick);
    ForwardFile(files, 1, i, fails, tick);
    MaybeMaps(files[i], Reaches(files, 1, i, fails, tick), CONSENSUS, CONSENSUS_OLD);
  }

  /** A silent report after a third step that had reached a file: the incoming key is gone from it. */
  lemma SilentThirdStepLosesKey(files: Files, i: nat, fails: nat -> bool, tick: nat, v: string)
    requires Startable(files) && i < |files| && FailedAt(files, 3, fails, tick) && Promote(files, true, fails, tick).result.unrestored == []
    requires Maps(files[i], CONSENSUS_PENDING, v) && Lists(files[i], CONSENSUS) && !Maps(files[i], CONSENSUS, v)
    requires Reaches(files, 3, i, fails, tick)
    ensures Lost(Final(files, i, fails, tick), CONSENSUS_PENDING, CONSENSUS, v)
  {
    PromoteTrace(files, fails, tick);
    assert UndoOk(files, 3, 0, fails, tick);
    UndoneFile(files, 3, 0, i, fails, tick);
    ConsensusLostIff(files, i, fails, tick, v);
  }

  // ---------------------------------------------------------------------------
  // Restoring the old keys on request
  // ---------------------------------------------------------------------------

  /**
   * What a requested rollback does to a file: the consensus backup replaces the live key where its
   * rename got to it, and the companion's only if the whole consensus rename had succeeded.
   */
  lemma RequestedRollback(files: Files, i: nat, fails: nat -> bool, tick: nat, v: string)
    requires DistinctNames(files) && i < |files|
    ensures var r := Rename(files, CONSENSUS_OLD, CONSENSUS, fails, tick);
            var f := files[i];
            var y1 := Completes(files, i + 1, CONSENSUS_OLD, CONSENSUS, fails, tick);
            var y2 := r.ok && Completes(r.files, i + 1, COMPANION_OLD, COMPANION, fails, r.tick);
            var co, ko := Maps(f, CONSENSUS_OLD, v), Maps(f, COMPANION_OLD, v);
            Holds(RollbackRun(files, fails, tick).files[i], v, if y1 && Lists(f, CONSENSUS_OLD) then co else Maps(f, CONSENSUS, v), co && !y1,
                  Maps(f, CONSENSUS_PENDING, v), if y2 && Lists(f, COMPANION_OLD) then ko else Maps(f, COMPANION, v), ko && !y2, Maps(f, COMPANION_PENDING, v))
  {
    AliasesDiffer();
    var r := Rename(files, CONSENSUS_OLD, CONSENSUS, fails, tick);
    var y1 := Completes(files, i + 1, CONSENSUS_OLD, CONSENSUS, fails, tick);
    var y2 := r.ok && Completes(r.files, i + 1, COMPANION_OLD, COMPANION, fails, r.tick);
    FileAfter(files, i, CONSENSUS_OLD, CONSENSUS, fails, tick);
    FileAfter(r.files, i, COMPANION_OLD, COMPANION, fails, r.tick);
    RestoresHold(files[i], y1, y2, v);
  }

  // ---------------------------------------------------------------------------
  // Instances
  // ---------------------------------------------------------------------------

  lemma ListsHas(f: WalletFile, from: string, to: string)
    requires f.Entries? && from != to
    ensures Has(Drop(f.entries, to), from) <==> Lists(f, from)
  {
    DropFacts(f.entries, to);
  }

  /** The reads and writes of a rename that finds two files. */
  ghost predicate PastFirst(files: Files, from: string, fails: nat -> bool, tick: nat)
    requires |files| == 3
  {
    !fails(tick) && (Lists(files[0], from) ==> !fails(tick + 1))
  }

  ghost function SecondTick(files: Files, from: string, tick: nat): nat
    requires |files| == 3
  {
    tick + if Lists(files[0], from) then 2 else 1
  }

  ghost predicate PastSecond(files: Files, from: string, fails: nat -> bool, tick: nat)
    requires |files| == 3
  {
    !fails(SecondTick(files, from, tick)) && (Lists(files[1], from) ==> !fails(SecondTick(files, from, tick) + 1))
  }

  /** Two readable files and no third. */
  ghost predicate TwoFiles(files: Files) {
    |files| == 3 && files[0].Entries? && files[1].Entries? && files[2].Absent?
  }

  lemma TwoBlocks(files: Files, from: string, to: string, fails: nat -> bool, tick: nat)
    requires TwoFiles(files) && from != to
    ensures Completes(files, 1, from, to, fails, tick) <==> PastFirst(files, from, fails, tick)
    ensures Completes(files, 2, from, to, fails, tick) <==> PastFirst(files, from, fails, tick) && PastSecond(files, from, fails, tick)
    ensures Completes(files, 3, from, to, fails, tick) <==> Completes(files, 2, from, to, fails, tick)
    ensures TickAt(files, 3, from, to, tick) == SecondTick(files, from, tick) + if Lists(files[1], from) then 2 else 1
  {
    ListsHas(files[0], from, to);
    ListsHas(files[1], from, to);
    assert TickAt(files, 0, from, to, tick) == tick;
    assert TickAt(files, 1, from, to, tick) == SecondTick(files, from, tick);
    assert TickAt(files, 2, from, to, tick) == TickAt(files, 3, from, to, tick);
    assert Blocks(files, 0, from, to, fails, tick) <==> !PastFirst(files, from, fails, tick);
    assert Blocks(files, 1, from, to, fails, tick) <==> !PastSecond(files, from, fails, tick);
    assert !Blocks(files, 2, from, to, fails, tick);
  }

  /** A rename over two files, in terms of which of them list the alias. */
  lemma RenameTwo(files: Files, from: string, to: string, fails: nat -> bool, tick: nat)
    requires TwoFiles(files) && from != to
    ensures var r := Rename(files, from, to, fails, tick);
            && TwoFiles(r.files)
            && (r.ok <==> PastFirst(files, from, fails, tick) && PastSecond(files, from, fails, tick) && Lists(files[0], from))
            && (PastFirst(files, from, fails, tick) && PastSecond(files, from, fails, tick) ==>
                  r.tick == SecondTick(files, from, tick) + if Lists(files[1], from) then 2 else 1)
            && (fails(tick) ==> r.tick == tick + 1)
            && (PastFirst(files, from, fails, tick) && fails(SecondTick(files, from, tick)) ==> r.tick == SecondTick(files, from, tick) + 1)
  {
    TwoBlocks(files, from, to, fails, tick);
    RenameUpToExact(files, 3, from, to, fails, tick);
    ListsHas(files[0], from, to);
    BlockedTick(files, from, to, fails, tick);
  }

  /** When a failing read ends the rename. */
  lemma BlockedTick(files: Files, from: string, to: string, fails: nat -> bool, tick: nat)
    requires TwoFiles(files) && from != to
    ensures fails(tick) ==> Rename(files, from, to, fails, tick).tick == tick + 1
    ensures PastFirst(files, from, fails, tick) && fails(SecondTick(files, from, tick)) ==>
              Rename(files, from, to, fails, tick).tick == SecondTick(files, from, tick) + 1
  {
    ListsHas(files[0], from, to);
    var p0 := RenameUpTo(files, 0, from, to, fails, tick);
    var p1 := RenameUpTo(files, 1, from, to, fails, tick);
    assert p1 == RenameOne(p0, 0, from, to, fails);
    var p2 := RenameUpTo(files, 2, from, to, fails, tick);
    assert p2 == if p1.ok then RenameOne(p1, 1, from, to, fails) else p1;
  }

  /** A promotion that gets through its first step on such a wallet, the alias being in the primary file only. */
  lemma FirstPasses(files: Files, fails: nat -> bool)
    requires Startable(files) && TwoFiles(files) && Lists(files[0], CONSENSUS) && !Lists(files[1], CONSENSUS)
    requires !fails(0) && !fails(1) && !fails(2)
    ensures var p := Before(files, 2, fails, 0);
            p.ok && p.tick == 3 && TwoFiles(p.files) && p.files[1] == files[1] && p.files[0] == Renamed(files[0], CONSENSUS, CONSENSUS_OLD)
  {
    AliasesDiffer();
    RenameTwo(files, CONSENSUS, CONSENSUS_OLD, fails, 0);
    var p := Before(files, 2, fails, 0);
    assert p == Rename(files, CONSENSUS, CONSENSUS_OLD, fails, 0);
    FileAfter(files, 0, CONSENSUS, CONSENSUS_OLD, fails, 0);
    FileAfter(files, 1, CONSENSUS, CONSENSUS_OLD, fails, 0);
    MaybeMaps(files[1], true, CONSENSUS, CONSENSUS_OLD);
  }

  /**
   * The report can be wrong in one way: a companion backup that fails between the two files is
   * reported as fully rolled back.
   */
  lemma HalfwayFailureIsSilent(files: Files, fails: nat -> bool)
    requires Startable(files) && TwoFiles(files) && Lists(files[0], CONSENSUS) && !Lists(files[1], CONSENSUS) && Lists(files[0], COMPANION)
    requires forall t: nat :: fails(t) <==> t == 5
    ensures var run := Promote(files, true, fails, 0);
            run.result.Failed? && run.result.unrestored == [] && run.files != files
  {
    AliasesDiffer();
    FirstPasses(files, fails);
    var p, q := Before(files, 2, fails, 0), Before(files, 3, fails, 0);
    MaybeMaps(files[0], true, CONSENSUS, CONSENSUS_OLD);
    RenameTwo(p.files, COMPANION, COMPANION_OLD, fails, 3);
    TwoBlocks(p.files, COMPANION, COMPANION_OLD, fails, 3);
    assert q == Rename(p.files, COMPANION, COMPANION_OLD, fails, 3);
    assert !q.ok && q.tick == 6 && Reaches(files, 2, 0, fails, 0);
    FileAfter(p.files, 0, COMPANION, COMPANION_OLD, fails, 3);
    MaybeMaps(p.files[0], true, COMPANION, COMPANION_OLD);
    RenameTwo(q.files, CONSENSUS_OLD, CONSENSUS, fails, 6);
    SilentReportExact(files, fails, 0);
  }

  /** A companion backup whose very first read fails. */
  lemma SecondBlocked(files: Files, fails: nat -> bool)
    requires Startable(files) && TwoFiles(files) && Lists(files[0], CONSENSUS) && !Lists(files[1], CONSENSUS)
    requires !fails(0) && !fails(1) && !fails(2) && fails(3)
    ensures var q := Before(files, 3, fails, 0);
            && Before(files, 2, fails, 0).ok && !q.ok && q.tick == 4 && TwoFiles(q.files)
            && q.files[0] == Renamed(files[0], CONSENSUS, CONSENSUS_OLD) && q.files[1] == files[1]
    ensures forall i: nat | i < 3 :: !Reaches(files, 2, i, fails, 0)
  {
    AliasesDiffer();
    FirstPasses(files, fails);
    var p := Before(files, 2, fails, 0);
    RenameTwo(p.files, COMPANION, COMPANION_OLD, fails, 3);
    TwoBlocks(p.files, COMPANION, COMPANION_OLD, fails, 3);
    assert Before(files, 3, fails, 0) == Rename(p.files, COMPANION, COMPANION_OLD, fails, 3);
    FileAfter(p.files, 0, COMPANION, COMPANION_OLD, fails, 3);
    FileAfter(p.files, 1, COMPANION, COMPANION_OLD, fails, 3);
  }

  /** And in the other: an undo that restored the alias, then failed to read a file without it, is named as not restored. */
  lemma RestoredButNamed(files: Files, fails: nat -> bool)
    requires Startable(files) && TwoFiles(files) && Lists(files[0], CONSENSUS) && !Lists(files[1], CONSENSUS)
    requires forall t: nat :: fails(t) <==> t == 3 || t == 6
    ensures var run := Promote(files, true, fails, 0);
            run.result.Failed? && run.result.unrestored == [CONSENSUS] && run.files == files
  {
    SecondBlocked(files, fails);
    NamedInSecond(files, fails);
    RestoredIff(files, fails, 0);
    assert UndoneAt(files, 2, 0, fails, 0) && UndoneAt(files, 2, 1, fails, 0) && UndoneAt(files, 2, 2, fails, 0);
  }

  lemma NamedInSecond(files: Files, fails: nat -> bool)
    requires Startable(files) && TwoFiles(files) && Lists(files[0], CONSENSUS) && !Lists(files[1], CONSENSUS)
    requires forall t: nat :: fails(t) <==> t == 3 || t == 6
    ensures FailedAt(files, 2, fails, 0) && Promote(files, true, fails, 0).result.unrestored == [CONSENSUS]
    ensures UndoReaches(files, 2, 0, 0, fails, 0)
  {
    AliasesDiffer();
    SecondBlocked(files, fails);
    var q := Before(files, 3, fails, 0);
    MaybeMaps(files[0], true, CONSENSUS, CONSENSUS_OLD);
    RenameTwo(q.files, CONSENSUS_OLD, CONSENSUS, fails, 4);
    TwoBlocks(q.files, CONSENSUS_OLD, CONSENSUS, fails, 4);
    assert Undoing(files, 2, 0, fails, 0) == q;
  }

  /** Neither of the two backups nor the promotion finds anything in the second file. */
  ghost predicate PrimaryOnly(files: Files) {
    && Startable(files) && TwoFiles(files) && Lists(files[0], CONSENSUS) && Lists(files[0], COMPANION) && Lists(files[0], CONSENSUS_PENDING)
    && !Lists(files[1], CONSENSUS) && !Lists(files[1], COMPANION) && !Lists(files[1], CONSENSUS_PENDING)
  }

  /** A consensus promotion that fails to read the second file, after it changed the first. */
  lemma ThirdBlocked(files: Files, fails: nat -> bool)
    requires PrimaryOnly(files) && forall t: nat :: fails(t) <==> t == 8
    ensures var q := Before(files, 4, fails, 0);
            && Before(files, 2, fails, 0).ok && Before(files, 3, fails, 0).ok && !q.ok && q.tick == 9 && TwoFiles(q.files)
            && q.files[0] == Renamed(BackedUp(files[0]), CONSENSUS_PENDING, CONSENSUS) && q.files[1] == files[1]
    ensures Reaches(files, 3, 0, fails, 0)
  {
    AliasesDiffer();
    FirstPasses(files, fails);
    var p2 := Before(files, 2, fails, 0);
    MaybeMaps(files[0], true, CONSENSUS, CONSENSUS_OLD);
    RenameTwo(p2.files, COMPANION, COMPANION_OLD, fails, 3);
    var p3 := Before(files, 3, fails, 0);
    assert p3 == Rename(p2.files, COMPANION, COMPANION_OLD, fails, 3) && p3.ok && p3.tick == 6;
    FileAfter(p2.files, 0, COMPANION, COMPANION_OLD, fails, 3);
    FileAfter(p2.files, 1, COMPANION, COMPANION_OLD, fails, 3);
    MaybeMaps(files[1], true, COMPANION, COMPANION_OLD);
    BackedUpHolds(files[0]);
    RenameTwo(p3.files, CONSENSUS_PENDING, CONSENSUS, fails, 6);
    TwoBlocks(p3.files, CONSENSUS_PENDING, CONSENSUS, fails, 6);
    assert Before(files, 4, fails, 0) == Rename(p3.files, CONSENSUS_PENDING, CONSENSUS, fails, 6);
    FileAfter(p3.files, 0, CONSENSUS_PENDING, CONSENSUS, fails, 6);
    FileAfter(p3.files, 1, CONSENSUS_PENDING, CONSENSUS, fails, 6);
  }

  /** Then everything is reported as rolled back, and the incoming consensus key is gone from the primary file. */
  lemma HalfwayPromotionLosesKey(files: Files, fails: nat -> bool, v: string)
    requires PrimaryOnly(files) && forall t: nat :: fails(t) <==> t == 8
    requires Maps(files[0], CONSENSUS_PENDING, v) && !Maps(files[0], CONSENSUS, v)
    ensures FailedAt(files, 3, fails, 0) && Promote(files, true, fails, 0).result.unrestored == []
    ensures Lost(Final(files, 0, fails, 0), CONSENSUS_PENDING, CONSENSUS, v)
  {
    ThirdBlocked(files, fails);
    ThirdUndone(files, fails);
    SilentThirdStepLosesKey(files, 0, fails, 0, v);
  }

  lemma ThirdUndone(files: Files, fails: nat -> bool)
    requires PrimaryOnly(files) && forall t: nat :: fails(t) <==> t == 8
    ensures FailedAt(files, 3, fails, 0) && Promote(files, true, fails, 0).result.unrestored == []
  {
    AliasesDiffer();
    ThirdBlocked(files, fails);
    var q := Before(files, 4, fails, 0);
    BackedUpHolds(files[0]);
    MaybeMaps(BackedUp(files[0]), true, CONSENSUS_PENDING, CONSENSUS);
    RenameTwo(q.files, CONSENSUS_OLD, CONSENSUS, fails, 9);
    var b1 := Rename(q.files, CONSENSUS_OLD, CONSENSUS, fails, 9);
    FileAfter(q.files, 0, CONSENSUS_OLD, CONSENSUS, fails, 9);
    MaybeMaps(q.files[0], true, CONSENSUS_OLD, CONSENSUS);
    RenameTwo(b1.files, COMPANION_OLD, COMPANION, fails, b1.tick);
    PromoteAtThird(files, fails, 0);
  }

  /** The promotion of a wallet whose third step fails. */
  lemma PromoteAtThird(files: Files, fails: nat -> bool, tick: nat)
    requires Before(files, 2, fails, tick).ok && Before(files, 3, fails, tick).ok && !Before(files, 4, fails, tick).ok
    ensures var q := Before(files, 4, fails, tick);
            var b1 := Rename(q.files, CONSENSUS_OLD, CONSENSUS, fails, q.tick);
            var b2 := Rename(b1.files, COMPANION_OLD, COMPANION, fails, b1.tick);
            FailedAt(files, 3, fails, tick) && Promote(files, true, fails, tick).result.unrestored == Unrestored(b1, CONSENSUS) + Unrestored(b2, COMPANION)
  {
    var p2, p3 := Before(files, 2, fails, tick), Before(files, 3, fails, tick);
    assert p2 == Rename(files, CONSENSUS, CONSENSUS_OLD, fails, tick);
    assert p3 == Rename(p2.files, COMPANION, COMPANION_OLD, fails, p2.tick);
    assert Before(files, 4, fails, tick) == Rename(p3.files, CONSENSUS_PENDING, CONSENSUS, fails, p3.tick);
  }
}
