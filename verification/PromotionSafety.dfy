/** What a promotion keeps under every pattern of I/O failures: the outgoing keys, always; the whole wallet, when undone completely. */
module PromotionSafety {
  import opened Prelude
  import opened Wallet
  import opened Promotion

  // ---------------------------------------------------------------------------
  // One rename, seen from one file
  // ---------------------------------------------------------------------------

  ghost predicate MayRename(f: WalletFile, g: WalletFile, from: string, to: string) {
    g == f || g == Renamed(f, from, to)
  }

  ghost predicate DistinctFile(f: WalletFile) {
    f.Entries? ==> Distinct(f.entries)
  }

  lemma FileOfRename(files: Files, i: nat, from: string, to: string, fails: nat -> bool, tick: nat)
    requires i < |files|
    ensures var r := Rename(files, from, to, fails, tick);
            MayRename(files[i], r.files[i], from, to) && (r.ok ==> r.files[i] == Renamed(files[i], from, to))
  {
    RenameFacts(files, from, to, fails, tick);
  }

  /** A rename of two other aliases. */
  lemma Keeps(f: WalletFile, g: WalletFile, from: string, to: string, a: string)
    requires from != to && DistinctFile(f) && MayRename(f, g, from, to) && a != from && a != to
    ensures DistinctFile(g)
    ensures forall v :: Maps(g, a, v) <==> Maps(f, a, v)
    ensures Lists(g, a) <==> Lists(f, a)
  {
    RenamedMaps(f, from, to);
    if Lists(f, a) {
      var e :| e in f.entries && e.name == Some(a);
      assert Maps(f, a, e.value) && Maps(g, a, e.value);
    }
    if Lists(g, a) {
      var e :| e in g.entries && e.name == Some(a);
      assert Maps(g, a, e.value) && Maps(f, a, e.value);
    }
  }

  /** The renamed alias itself: its value is found under one of the two names. */
  lemma Moves(f: WalletFile, g: WalletFile, from: string, to: string, v: string)
    requires from != to && DistinctFile(f) && MayRename(f, g, from, to) && Maps(f, from, v)
    ensures DistinctFile(g) && (Maps(g, from, v) || Maps(g, to, v))
    ensures g == Renamed(f, from, to) ==> Maps(g, to, v)
  {
    RenamedMaps(f, from, to);
    assert Entry(Some(from), v) in f.entries;
    assert Lists(f, from);
  }

  ghost predicate Kept(f: WalletFile, live: string, old': string, v: string) {
    Maps(f, live, v) || Maps(f, old', v)
  }

  // ---------------------------------------------------------------------------
  // Outgoing keys are never lost
  // ---------------------------------------------------------------------------

  lemma KeepsBackup(files: Files, i: nat, from: string, to: string, fails: nat -> bool, tick: nat, a: string, v: string)
    requires i < |files| && from != to && a != from && a != to && DistinctFile(files[i]) && Maps(files[i], a, v)
    ensures var r := Rename(files, from, to, fails, tick); DistinctFile(r.files[i]) && Maps(r.files[i], a, v)
  {
    FileOfRename(files, i, from, to, fails, tick);
    Keeps(files[i], Rename(files, from, to, fails, tick).files[i], from, to, a);
  }

  lemma MovesBackup(files: Files, i: nat, from: string, to: string, fails: nat -> bool, tick: nat, v: string)
    requires i < |files| && from != to && DistinctFile(files[i]) && Maps(files[i], from, v)
    ensures var r := Rename(files, from, to, fails, tick);
            && DistinctFile(r.files[i])
            && (Maps(r.files[i], from, v) || Maps(r.files[i], to, v))
            && (r.ok ==> Maps(r.files[i], to, v))
  {
    FileOfRename(files, i, from, to, fails, tick);
    Moves(files[i], Rename(files, from, to, fails, tick).files[i], from, to, v);
  }

  /** Restoring both backups, whatever fails, keeps a value parked under `-old` under one of its names. */
  lemma RestoreKeepsConsensus(files: Files, i: nat, fails: nat -> bool, tick: nat, v: string)
    requires i < |files| && DistinctFile(files[i]) && Maps(files[i], CONSENSUS_OLD, v)
    ensures var b1 := Rename(files, CONSENSUS_OLD, CONSENSUS, fails, tick);
            var b2 := Rename(b1.files, COMPANION_OLD, COMPANION, fails, b1.tick);
            Kept(b2.files[i], CONSENSUS, CONSENSUS_OLD, v)
  {
    AliasesDiffer();
    MovesBackup(files, i, CONSENSUS_OLD, CONSENSUS, fails, tick, v);
    var b1 := Rename(files, CONSENSUS_OLD, CONSENSUS, fails, tick);
    var a := if Maps(b1.files[i], CONSENSUS, v) then CONSENSUS else CONSENSUS_OLD;
    KeepsBackup(b1.files, i, COMPANION_OLD, COMPANION, fails, b1.tick, a, v);
  }

  lemma RestoreKeepsCompanion(files: Files, i: nat, fails: nat -> bool, tick: nat, v: string)
    requires i < |files| && DistinctFile(files[i]) && Maps(files[i], COMPANION_OLD, v)
    ensures var b1 := Rename(files, CONSENSUS_OLD, CONSENSUS, fails, tick);
            var b2 := Rename(b1.files, COMPANION_OLD, COMPANION, fails, b1.tick);
            Kept(b2.files[i], COMPANION, COMPANION_OLD, v)
  {
    AliasesDiffer();
    KeepsBackup(files, i, CONSENSUS_OLD, CONSENSUS, fails, tick, COMPANION_OLD, v);
    var b1 := Rename(files, CONSENSUS_OLD, CONSENSUS, fails, tick);
    MovesBackup(b1.files, i, COMPANION_OLD, COMPANION, fails, b1.tick, v);
  }

  lemma OutgoingConsensusKept(files: Files, i: nat, probed: bool, fails: nat -> bool, tick: nat, v: string)
    requires i < |files| && DistinctFile(files[i]) && Maps(files[i], CONSENSUS, v)
    ensures Kept(Promote(files, probed, fails, tick).files[i], CONSENSUS, CONSENSUS_OLD, v)
  {
    AliasesDiffer();
    if probed {
      MovesBackup(files, i, CONSENSUS, CONSENSUS_OLD, fails, tick, v);
      var r1 := Rename(files, CONSENSUS, CONSENSUS_OLD, fails, tick);
      if r1.ok {
        KeepsBackup(r1.files, i, COMPANION, COMPANION_OLD, fails, r1.tick, CONSENSUS_OLD, v);
        var r2 := Rename(r1.files, COMPANION, COMPANION_OLD, fails, r1.tick);
        if !r2.ok {
          MovesBackup(r2.files, i, CONSENSUS_OLD, CONSENSUS, fails, r2.tick, v);
        } else {
          KeepsBackup(r2.files, i, CONSENSUS_PENDING, CONSENSUS, fails, r2.tick, CONSENSUS_OLD, v);
          var r3 := Rename(r2.files, CONSENSUS_PENDING, CONSENSUS, fails, r2.tick);
          if !r3.ok {
            RestoreKeepsConsensus(r3.files, i, fails, r3.tick, v);
          } else {
            KeepsBackup(r3.files, i, COMPANION_PENDING, COMPANION, fails, r3.tick, CONSENSUS_OLD, v);
            var r4 := Rename(r3.files, COMPANION_PENDING, COMPANION, fails, r3.tick);
            if !r4.ok {
              KeepsBackup(r4.files, i, CONSENSUS, CONSENSUS_PENDING, fails, r4.tick, CONSENSUS_OLD, v);
              var b0 := Rename(r4.files, CONSENSUS, CONSENSUS_PENDING, fails, r4.tick);
              RestoreKeepsConsensus(b0.files, i, fails, b0.tick, v);
            }
          }
        }
      }
    }
  }

  lemma OutgoingCompanionKept(files: Files, i: nat, probed: bool, fails: nat -> bool, tick: nat, v: string)
    requires i < |files| && DistinctFile(files[i]) && Maps(files[i], COMPANION, v)
    ensures Kept(Promote(files, probed, fails, tick).files[i], COMPANION, COMPANION_OLD, v)
  {
    AliasesDiffer();
    if probed {
      KeepsBackup(files, i, CONSENSUS, CONSENSUS_OLD, fails, tick, COMPANION, v);
      var r1 := Rename(files, CONSENSUS, CONSENSUS_OLD, fails, tick);
      if r1.ok {
        MovesBackup(r1.files, i, COMPANION, COMPANION_OLD, fails, r1.tick, v);
        var r2 := Rename(r1.files, COMPANION, COMPANION_OLD, fails, r1.tick);
        if !r2.ok {
          var a := if Maps(r2.files[i], COMPANION, v) then COMPANION else COMPANION_OLD;
          KeepsBackup(r2.files, i, CONSENSUS_OLD, CONSENSUS, fails, r2.tick, a, v);
        } else {
          KeepsBackup(r2.files, i, CONSENSUS_PENDING, CONSENSUS, fails, r2.tick, COMPANION_OLD, v);
          var r3 := Rename(r2.files, CONSENSUS_PENDING, CONSENSUS, fails, r2.tick);
          if !r3.ok {
            RestoreKeepsCompanion(r3.files, i, fails, r3.tick, v);
          } else {
            KeepsBackup(r3.files, i, COMPANION_PENDING, COMPANION, fails, r3.tick, COMPANION_OLD, v);
            var r4 := Rename(r3.files, COMPANION_PENDING, COMPANION, fails, r3.tick);
            if !r4.ok {
              KeepsBackup(r4.files, i, CONSENSUS, CONSENSUS_PENDING, fails, r4.tick, COMPANION_OLD, v);
              var b0 := Rename(r4.files, CONSENSUS, CONSENSUS_PENDING, fails, r4.tick);
              RestoreKeepsCompanion(b0.files, i, fails, b0.tick, v);
            }
          }
        }
      }
    }
  }

  /**
   * Under every fault schedule, every wallet file that held an outgoing key still holds its
   * entry, under the live alias or its `-old` backup.
   */
  lemma OutgoingKeysNeverLost(files: Files, probed: bool, fails: nat -> bool, tick: nat)
    requires DistinctNames(files)
    ensures var after := Promote(files, probed, fails, tick).files;
            |after| == |files| &&
            forall i, v | 0 <= i < |files| ::
              && (Maps(files[i], CONSENSUS, v) ==> Kept(after[i], CONSENSUS, CONSENSUS_OLD, v))
              && (Maps(files[i], COMPANION, v) ==> Kept(after[i], COMPANION, COMPANION_OLD, v))
  {
    var after := Promote(files, probed, fails, tick).files;
    forall i, v | 0 <= i < |files|
      ensures Maps(files[i], CONSENSUS, v) ==> Kept(after[i], CONSENSUS, CONSENSUS_OLD, v)
      ensures Maps(files[i], COMPANION, v) ==> Kept(after[i], COMPANION, COMPANION_OLD, v)
    {
      if Maps(files[i], CONSENSUS, v) {
        OutgoingConsensusKept(files, i, probed, fails, tick, v);
      }
      if Maps(files[i], COMPANION, v) {
        OutgoingCompanionKept(files, i, probed, fails, tick, v);
      }
    }
  }

  // ---------------------------------------------------------------------------
  // A complete rollback restores every file exactly
  // ---------------------------------------------------------------------------

  ghost predicate NoBackups(f: WalletFile) {
    !Lists(f, CONSENSUS_OLD) && !Lists(f, COMPANION_OLD)
  }

  ghost function BackedUp(f: WalletFile): WalletFile {
    Renamed(Renamed(f, CONSENSUS, CONSENSUS_OLD), COMPANION, COMPANION_OLD)
  }

  lemma BackedUpFacts(f: WalletFile)
    requires DistinctFile(f) && NoBackups(f)
    ensures DistinctFile(BackedUp(f)) && !Lists(BackedUp(f), CONSENSUS) && !Lists(BackedUp(f), COMPANION)
    ensures Lists(BackedUp(f), CONSENSUS_PENDING) <==> Lists(f, CONSENSUS_PENDING)
    ensures Lists(BackedUp(f), COMPANION_PENDING) <==> Lists(f, COMPANION_PENDING)
  {
    AliasesDiffer();
    var f1 := Renamed(f, CONSENSUS, CONSENSUS_OLD);
    var f2 := BackedUp(f);
    RenamedMaps(f, CONSENSUS, CONSENSUS_OLD);
    RenamedMaps(f1, COMPANION, COMPANION_OLD);
    Keeps(f1, f2, COMPANION, COMPANION_OLD, CONSENSUS);
    Keeps(f, f1, CONSENSUS, CONSENSUS_OLD, CONSENSUS_PENDING);
    Keeps(f1, f2, COMPANION, COMPANION_OLD, CONSENSUS_PENDING);
    Keeps(f, f1, CONSENSUS, CONSENSUS_OLD, COMPANION_PENDING);
    Keeps(f1, f2, COMPANION, COMPANION_OLD, COMPANION_PENDING);
  }

  lemma RelabelRoundTrip(es: seq<Entry>)
    requires !Has(es, CONSENSUS_OLD) && !Has(es, COMPANION_OLD)
    ensures var backed := RelabelAll(RelabelAll(es, CONSENSUS, CONSENSUS_OLD), COMPANION, COMPANION_OLD);
            RelabelAll(RelabelAll(backed, CONSENSUS_OLD, CONSENSUS), COMPANION_OLD, COMPANION) == es
  {
  }

  /** Restoring the consensus backup while the companion backup stands finds a free target. */
  lemma RestoreTargetsFree(f: WalletFile)
    requires DistinctFile(f) && NoBackups(f)
    ensures var back := Renamed(BackedUp(f), CONSENSUS_OLD, CONSENSUS);
            DistinctFile(back) && !Lists(back, COMPANION)
    ensures !Lists(Renamed(f, CONSENSUS, CONSENSUS_OLD), COMPANION_OLD) && DistinctFile(Renamed(f, CONSENSUS, CONSENSUS_OLD))
  {
    AliasesDiffer();
    BackedUpFacts(f);
    Keeps(BackedUp(f), Renamed(BackedUp(f), CONSENSUS_OLD, CONSENSUS), CONSENSUS_OLD, CONSENSUS, COMPANION);
    Keeps(f, Renamed(f, CONSENSUS, CONSENSUS_OLD), CONSENSUS, CONSENSUS_OLD, COMPANION_OLD);
  }

  lemma RestoreUndoesBackups(f: WalletFile)
    requires DistinctFile(f) && NoBackups(f)
    ensures Renamed(Renamed(BackedUp(f), CONSENSUS_OLD, CONSENSUS), COMPANION_OLD, COMPANION) == f
  {
    var f1 := Renamed(f, CONSENSUS, CONSENSUS_OLD);
    var f2 := BackedUp(f);
    var f3 := Renamed(f2, CONSENSUS_OLD, CONSENSUS);
    BackedUpFacts(f);
    RestoreTargetsFree(f);
    RenamedIsRelabel(f, CONSENSUS, CONSENSUS_OLD);
    RenamedIsRelabel(f1, COMPANION, COMPANION_OLD);
    RenamedIsRelabel(f2, CONSENSUS_OLD, CONSENSUS);
    RenamedIsRelabel(f3, COMPANION_OLD, COMPANION);
    if f.Entries? {
      RelabelRoundTrip(f.entries);
    }
  }

  /** The wallet a promotion starts from: distinct names and no leftover backup. */
  ghost predicate Startable(files: Files) {
    DistinctNames(files) && forall i | 0 <= i < |files| :: NoBackups(files[i])
  }

  lemma AfterRename(files: Files, from: string, to: string, fails: nat -> bool, tick: nat)
    ensures var r := Rename(files, from, to, fails, tick);
            r.ok ==> InPrimary(files, from, to) && forall i | 0 <= i < |files| :: r.files[i] == Renamed(files[i], from, to)
    ensures var r := Rename(files, from, to, fails, tick);
            r.files != files ==> exists i | 0 <= i < |files| :: r.files[i] == Renamed(files[i], from, to) && r.files[i] != files[i]
  {
    RenameFacts(files, from, to, fails, tick);
    var r := Rename(files, from, to, fails, tick);
    if r.files != files {
      var i :| 0 <= i < |files| && r.files[i] != files[i];
      assert r.files[i] == Renamed(files[i], from, to);
    }
  }

  lemma PrimaryLists(files: Files, from: string, to: string)
    requires InPrimary(files, from, to)
    ensures Lists(files[0], from)
  {
    DropFacts(files[0].entries, to);
  }

  /** A changed file had the alias and no longer has it under the old name. */
  lemma ChangedFile(f: WalletFile, from: string, to: string)
    requires from != to && DistinctFile(f) && Renamed(f, from, to) != f
    ensures Lists(f, from) && !Lists(Renamed(f, from, to), from) && Lists(Renamed(f, from, to), to)
  {
    RenamedMaps(f, from, to);
    var e :| e in f.entries && e.name == Some(from);
    assert Maps(f, from, e.value);
    assert Maps(Renamed(f, from, to), to, e.value);
  }

  /** The rename changes a file that lists the alias. */
  lemma ListedFileChanges(f: WalletFile, from: string, to: string)
    requires from != to && DistinctFile(f) && Lists(f, from)
    ensures Renamed(f, from, to) != f && Lists(Renamed(f, from, to), to)
  {
    RenamedMaps(f, from, to);
    ChangedFile(f, from, to);
  }

  /** What a successful promotion did to one file. */
  ghost predicate Swapped(f: WalletFile, g: WalletFile, live: string, pending: string, old': string) {
    && (Lists(f, live) ==> forall v :: Maps(g, old', v) <==> Maps(f, live, v))
    && (Lists(f, pending) ==> !Lists(g, pending) && forall v :: Maps(g, live, v) <==> Maps(f, pending, v))
  }

  /** After success every file maps the live aliases to the pending keys and the backups to the outgoing ones. */
  lemma PromotedMeansSwapped(files: Files, fails: nat -> bool, tick: nat, i: nat)
    requires Startable(files) && i < |files|
    requires Promote(files, true, fails, tick).result.Promoted?
    ensures var g := Promote(files, true, fails, tick).files[i];
            Swapped(files[i], g, CONSENSUS, CONSENSUS_PENDING, CONSENSUS_OLD)
            && Swapped(files[i], g, COMPANION, COMPANION_PENDING, COMPANION_OLD)
  {
    AliasesDiffer();
    var r1 := Rename(files, CONSENSUS, CONSENSUS_OLD, fails, tick);
    var r2 := Rename(r1.files, COMPANION, COMPANION_OLD, fails, r1.tick);
    var r3 := Rename(r2.files, CONSENSUS_PENDING, CONSENSUS, fails, r2.tick);
    AfterRename(files, CONSENSUS, CONSENSUS_OLD, fails, tick);
    AfterRename(r1.files, COMPANION, COMPANION_OLD, fails, r1.tick);
    AfterRename(r2.files, CONSENSUS_PENDING, CONSENSUS, fails, r2.tick);
    AfterRename(r3.files, COMPANION_PENDING, COMPANION, fails, r3.tick);
    var f1 := Renamed(files[i], CONSENSUS, CONSENSUS_OLD);
    var f3 := Renamed(BackedUp(files[i]), CONSENSUS_PENDING, CONSENSUS);
    SwappedConsensus(files[i], f1, BackedUp(files[i]), f3, Renamed(f3, COMPANION_PENDING, COMPANION));
    SwappedCompanion(files[i], f1, BackedUp(files[i]), f3, Renamed(f3, COMPANION_PENDING, COMPANION));
  }

  lemma SwappedConsensus(f: WalletFile, f1: WalletFile, f2: WalletFile, f3: WalletFile, f4: WalletFile)
    requires DistinctFile(f)
    requires f1 == Renamed(f, CONSENSUS, CONSENSUS_OLD) && f2 == Renamed(f1, COMPANION, COMPANION_OLD)
    requires f3 == Renamed(f2, CONSENSUS_PENDING, CONSENSUS) && f4 == Renamed(f3, COMPANION_PENDING, COMPANION)
    ensures Swapped(f, f4, CONSENSUS, CONSENSUS_PENDING, CONSENSUS_OLD)
  {
    AliasesDiffer();
    RenamedMaps(f, CONSENSUS, CONSENSUS_OLD);
    Keeps(f, f1, CONSENSUS, CONSENSUS_OLD, CONSENSUS_PENDING);
    Keeps(f1, f2, COMPANION, COMPANION_OLD, CONSENSUS_PENDING);
    Keeps(f1, f2, COMPANION, COMPANION_OLD, CONSENSUS_OLD);
    RenamedMaps(f2, CONSENSUS_PENDING, CONSENSUS);
    Keeps(f2, f3, CONSENSUS_PENDING, CONSENSUS, CONSENSUS_OLD);
    Keeps(f3, f4, COMPANION_PENDING, COMPANION, CONSENSUS_OLD);
    Keeps(f3, f4, COMPANION_PENDING, COMPANION, CONSENSUS_PENDING);
    Keeps(f3, f4, COMPANION_PENDING, COMPANION, CONSENSUS);
  }

  lemma SwappedCompanion(f: WalletFile, f1: WalletFile, f2: WalletFile, f3: WalletFile, f4: WalletFile)
    requires DistinctFile(f)
    requires f1 == Renamed(f, CONSENSUS, CONSENSUS_OLD) && f2 == Renamed(f1, COMPANION, COMPANION_OLD)
    requires f3 == Renamed(f2, CONSENSUS_PENDING, CONSENSUS) && f4 == Renamed(f3, COMPANION_PENDING, COMPANION)
    ensures Swapped(f, f4, COMPANION, COMPANION_PENDING, COMPANION_OLD)
  {
    AliasesDiffer();
    Keeps(f, f1, CONSENSUS, CONSENSUS_OLD, COMPANION);
    Keeps(f, f1, CONSENSUS, CONSENSUS_OLD, COMPANION_PENDING);
    RenamedMaps(f1, COMPANION, COMPANION_OLD);
    Keeps(f1, f2, COMPANION, COMPANION_OLD, COMPANION_PENDING);
    Keeps(f2, f3, CONSENSUS_PENDING, CONSENSUS, COMPANION_OLD);
    Keeps(f2, f3, CONSENSUS_PENDING, CONSENSUS, COMPANION_PENDING);
    RenamedMaps(f3, COMPANION_PENDING, COMPANION);
    Keeps(f3, f4, COMPANION_PENDING, COMPANION, COMPANION_OLD);
  }
}
