/**
 * What a repair that fails half-way leaves on the card (host-utility/src/disk.rs,
 * host-utility/src/card_fs.rs, host-utility/src/watermark.rs), and when that is worse than before.
 */
module RepairFaults {
  import opened Prelude
  import opened Card
  import opened Findings
  import opened Repair
  import opened RepairPlan
  import opened RepairSafety

  /**
   * How far a failing repair got: `progress` counts its completed sub-steps, `created` is the owner
   * and mode of a file it created, `chowned(0)` and `chowned(i + 1)` say whether the directory and
   * file `i` had already changed owner.
   */
  datatype Fault = Fault(progress: nat, created: (Owner, U32), chowned: nat -> bool)

  /** `0o600`, the mode a rewrite sets before it opens the file. */
  const WRITABLE_MODE: U32 := 384

  /** Nothing, then a truncated file that does not parse, then the config without a clean unmount. */
  function FaultyStage(b: Option<BootConfig>, n: ChainInfo, f: Fault): Option<BootConfig> {
    if f.progress == 0 then b else if f.progress == 1 then None else Some(BootConfig(n.id, n.level))
  }

  /** Nothing, then the writable mode, a truncated file, the new content, and the final mode without the owner. */
  function FaultyWrite(ch: ChainInfoState, n: ChainInfo, f: Fault): ChainInfoState {
    var owner := if ch.Missing? then f.created.0 else ch.owner;
    var mode := if ch.Missing? then f.created.1 else WRITABLE_MODE;
    if f.progress == 0 || (f.progress == 1 && ch.Missing?) then ch
    else if f.progress == 1 then (if ch.Present? then Present(ch.id, Some(mode), owner) else Unreadable(owner, Some(mode)))
    else if f.progress == 2 || n.id == "" then Unreadable(owner, Some(if f.progress <= 3 then mode else CHAIN_INFO_MODE))
    else Present(n.id, Some(if f.progress == 3 then mode else CHAIN_INFO_MODE), owner)
  }

  /** A recursive chown that stopped somewhere. */
  function FaultyChown(k: KeyWatermarks, h: Hidden, f: Fault): (r: KeyWatermarks)
    ensures r.pkh == k.pkh && r.dirPresent == k.dirPresent && |r.files| == |k.files|
    ensures k.dirPresent ==> forall i | 0 <= i < |r.files| ::
              r.files[i] == if f.chowned(i + 1) then RestoredFile(k.files[i], h.status(k.pkh, i)) else k.files[i]
  {
    if !k.dirPresent then k
    else k.(dirOwner := if f.chowned(0) then DEVICE_OWNER else k.dirOwner,
            files := seq(|k.files|, i requires 0 <= i < |k.files| =>
              if f.chowned(i + 1) then RestoredFile(k.files[i], h.status(k.pkh, i)) else k.files[i]))
  }

  function FaultyChowns(keys: seq<KeyWatermarks>, pkh: string, h: Hidden, f: Fault): (r: seq<KeyWatermarks>)
    ensures |r| == |keys|
    ensures forall i | 0 <= i < |r| :: r[i] == if keys[i].pkh == pkh then FaultyChown(keys[i], h, f) else keys[i]
  {
    seq(|keys|, i requires 0 <= i < |keys| => if keys[i].pkh == pkh then FaultyChown(keys[i], h, f) else keys[i])
  }

  /** The card after a repair failed; the single system calls among the repairs change nothing then. */
  function AfterFault(c: CardState, node: Option<ChainInfo>, h: Hidden, a: RepairAction, f: Fault): CardState {
    match a
    case StageBootConfig(n) => c.(bootConfig := FaultyStage(c.bootConfig, n, f))
    case WriteChainInfo => if node.Some? then c.(chainInfo := FaultyWrite(c.chainInfo, node.value, f)) else c
    case ChownWatermarks(pkh) => c.(watermarks := FaultyChowns(c.watermarks, pkh, h, f))
    case _ => c
  }

  /** A repair that fails before it did anything leaves the card as it was. */
  lemma NothingDone(c: CardState, node: Option<ChainInfo>, h: Hidden, a: RepairAction, f: Fault)
    requires f.progress == 0 && forall i :: !f.chowned(i)
    ensures AfterFault(c, node, h, a, f) == c
  {
    if a.ChownWatermarks? {
      forall i | 0 <= i < |c.watermarks|
        ensures FaultyChown(c.watermarks[i], h, f) == c.watermarks[i]
      {
        assert FaultyChown(c.watermarks[i], h, f).files == c.watermarks[i].files;
      }
      assert FaultyChowns(c.watermarks, a.pkh, h, f) == c.watermarks;
    }
  }

  /** One that fails after everything was done leaves it repaired. */
  lemma AllDone(c: CardState, node: Option<ChainInfo>, h: Hidden, a: RepairAction, f: Fault)
    requires a.StageBootConfig? || a.WriteChainInfo? || a.ChownWatermarks?
    requires f.progress >= 4 && (forall i :: f.chowned(i)) && (if c.chainInfo.Missing? then f.created.0 else c.chainInfo.owner) == DEVICE_OWNER
    ensures AfterFault(c, node, h, a, f) == Apply(c, node, h, a)
  {
    if a.ChownWatermarks? {
      forall i | 0 <= i < |c.watermarks|
        ensures FaultyChown(c.watermarks[i], h, f) == RestoredKey(c.watermarks[i], h)
      {
        assert FaultyChown(c.watermarks[i], h, f).files == RestoredKey(c.watermarks[i], h).files;
      }
      assert FaultyChowns(c.watermarks, a.pkh, h, f) == RestoredKeys(c.watermarks, a.pkh, h);
    }
  }

  // ---------------------------------------------------------------------------
  // When a failed repair makes the diagnosis worse
  // ---------------------------------------------------------------------------

  /** The staged config that was about to create a missing directory is gone. */
  ghost predicate LosesSeeds(c: CardState, node: Option<ChainInfo>, a: RepairAction, f: Fault) {
    && Serviced(c) && a.StageBootConfig? && f.progress == 1
    && SeedsPending(c.bootConfig, node) && exists k | k in c.watermarks :: !k.dirPresent
  }

  /** A readable, well-owned chain_info was being replaced and its content is gone. */
  predicate LosesChain(c: CardState, node: Option<ChainInfo>, a: RepairAction, f: Fault) {
    && Serviced(c) && a.WriteChainInfo? && node.Some? && c.chainInfo.Present? && OwnerOk(c.chainInfo.owner)
    && (f.progress == 2 || (f.progress > 2 && node.value.id == ""))
  }

  function AbsentDirs(keys: seq<KeyWatermarks>): nat {
    if keys == [] then 0 else AbsentDirs(keys[..|keys| - 1]) + if keys[|keys| - 1].dirPresent then 0 else 1
  }

  lemma {:induction false} AbsentDirsPositive(keys: seq<KeyWatermarks>)
    requires exists k | k in keys :: !k.dirPresent
    ensures AbsentDirs(keys) > 0
  {
    var init, last := keys[..|keys| - 1], keys[|keys| - 1];
    if last.dirPresent {
      assert exists k | k in init :: !k.dirPresent;
      AbsentDirsPositive(init);
    }
  }

  lemma {:induction false} UnseededCount(keys: seq<KeyWatermarks>)
    ensures SumCriticals(keys, false) == SumCriticals(keys, true) + AbsentDirs(keys)
  {
    if keys != [] {
      UnseededCount(keys[..|keys| - 1]);
    }
  }

  /** Losing the seeds turns every missing directory into a Critical finding. */
  lemma LostSeedsHurt(c: CardState, node: Option<ChainInfo>, h: Hidden, a: RepairAction, f: Fault)
    requires LosesSeeds(c, node, a, f)
    ensures Criticals(Diagnose(AfterFault(c, node, h, a, f), node)) == Criticals(Diagnose(c, node)) + AbsentDirs(c.watermarks)
    ensures AbsentDirs(c.watermarks) > 0
  {
    var c' := AfterFault(c, node, h, a, f);
    assert c' == c.(bootConfig := None);
    CountDiagnosis(c, node);
    CountDiagnosis(c', node);
    UnseededCount(c.watermarks);
    AbsentDirsPositive(c.watermarks);
  }

  /** Losing the chain adds exactly one. */
  lemma LostChainHurts(c: CardState, node: Option<ChainInfo>, h: Hidden, a: RepairAction, f: Fault)
    requires LosesChain(c, node, a, f)
    ensures Criticals(Diagnose(AfterFault(c, node, h, a, f), node)) == Criticals(Diagnose(c, node)) + 1
  {
    CountDiagnosis(c, node);
    CountDiagnosis(AfterFault(c, node, h, a, f), node);
  }

  lemma FaultyChownHelps(k: KeyWatermarks, h: Hidden, f: Fault, seeds: bool)
    ensures KeyCriticals(FaultyChown(k, h, f), seeds) <= KeyCriticals(k, seeds)
  {
    var k' := FaultyChown(k, h, f);
    if k.dirPresent {
      RestoringFilesHelps(k.files, k'.files);
      if OwnershipBad(k') && OwnerOk(k'.dirOwner) {
        var g :| g in k'.files && !OwnerOk(g.owner);
        var i :| 0 <= i < |k'.files| && k'.files[i] == g;
        assert k.files[i] in k.files;
      }
    }
  }

  lemma {:induction false} FaultyChownsHelp(keys: seq<KeyWatermarks>, pkh: string, h: Hidden, f: Fault, seeds: bool)
    ensures SumCriticals(FaultyChowns(keys, pkh, h, f), seeds) <= SumCriticals(keys, seeds)
  {
    if keys != [] {
      FaultyChownsHelp(keys[..|keys| - 1], pkh, h, f, seeds);
      FaultyChownHelps(keys[|keys| - 1], h, f, seeds);
      assert FaultyChowns(keys, pkh, h, f)[..|keys| - 1] == FaultyChowns(keys[..|keys| - 1], pkh, h, f);
    }
  }

  /** The Critical findings of a serviced card, by field. */
  ghost function Count(c: CardState, node: Option<ChainInfo>): nat {
    if Serviced(c)
    then KeysCriticals(c.keys) + ChainCriticals(c.chainInfo) + SumCriticals(c.watermarks, SeedsPending(c.bootConfig, node))
    else 0
  }

  lemma CountIs(c: CardState, node: Option<ChainInfo>)
    ensures Criticals(Diagnose(c, node)) == Count(c, node)
  {
    CountDiagnosis(c, node);
  }

  lemma FaultyStageCounts(c: CardState, node: Option<ChainInfo>, h: Hidden, a: RepairAction, f: Fault)
    requires a.StageBootConfig? && node == Some(a.chain) && !LosesSeeds(c, node, a, f)
    ensures Count(AfterFault(c, node, h, a, f), node) <= Count(c, node)
  {
    StagingCounts(c.watermarks);
  }

  lemma FaultyWriteCounts(c: CardState, node: Option<ChainInfo>, h: Hidden, a: RepairAction, f: Fault)
    requires a.WriteChainInfo? && !LosesChain(c, node, a, f)
    ensures Count(AfterFault(c, node, h, a, f), node) <= Count(c, node)
  {
  }

  /** Every other failure leaves the diagnosis no worse. */
  lemma OtherFaultsAreHarmless(c: CardState, node: Option<ChainInfo>, h: Hidden, a: RepairAction, f: Fault)
    requires a.StageBootConfig? ==> node == Some(a.chain)
    requires !LosesSeeds(c, node, a, f) && !LosesChain(c, node, a, f)
    ensures Criticals(Diagnose(AfterFault(c, node, h, a, f), node)) <= Criticals(Diagnose(c, node))
  {
    CountIs(c, node);
    CountIs(AfterFault(c, node, h, a, f), node);
    match a {
      case ChownWatermarks(pkh) => FaultyChownsHelp(c.watermarks, pkh, h, f, SeedsPending(c.bootConfig, node));
      case StageBootConfig(_) => FaultyStageCounts(c, node, h, a, f);
      case WriteChainInfo => FaultyWriteCounts(c, node, h, a, f);
      case _ =>
    }
  }

  lemma {:induction false} StagingCounts(keys: seq<KeyWatermarks>)
    ensures SumCriticals(keys, true) <= SumCriticals(keys, false)
    ensures (forall k | k in keys :: k.dirPresent) ==> SumCriticals(keys, true) == SumCriticals(keys, false)
  {
    if keys != [] {
      StagingCounts(keys[..|keys| - 1]);
    }
  }

  /** A failed repair makes the diagnosis worse exactly when it loses the seeds or the chain. */
  lemma FaultHurtsIff(c: CardState, node: Option<ChainInfo>, h: Hidden, a: RepairAction, f: Fault)
    requires a.StageBootConfig? ==> node == Some(a.chain)
    ensures Criticals(Diagnose(AfterFault(c, node, h, a, f), node)) > Criticals(Diagnose(c, node)) <==>
              LosesSeeds(c, node, a, f) || LosesChain(c, node, a, f)
  {
    if LosesSeeds(c, node, a, f) {
      LostSeedsHurt(c, node, h, a, f);
    } else if LosesChain(c, node, a, f) {
      LostChainHurts(c, node, h, a, f);
    } else {
      OtherFaultsAreHarmless(c, node, h, a, f);
    }
  }

  /**
   * A failed rewrite of a well-kept chain_info shows as a mode to reset exactly when it had opened
   * the file and not yet closed it up again, and as nothing else while the file can be read.
   */
  lemma FailedRewriteShowsMode(c: CardState, n: ChainInfo, h: Hidden, f: Fault)
    requires Serviced(c) && c.chainInfo.Present? && c.chainInfo.mode == Some(256) && !Foreign(c.chainInfo.owner)
    ensures var c' := AfterFault(c, Some(n), h, WriteChainInfo, f);
            c'.chainInfo.Present? ==>
              && c'.chainInfo.owner == c.chainInfo.owner && (c'.chainInfo.id == c.chainInfo.id || c'.chainInfo.id == n.id)
              && (InPlace(ChainInfoModeDrift, Warning, Keys, ChmodChainInfo) in Diagnose(c', Some(n)) <==> 1 <= f.progress <= 3)
  {
    DiagnosisExact(AfterFault(c, Some(n), h, WriteChainInfo, f), Some(n), InPlace(ChainInfoModeDrift, Warning, Keys, ChmodChainInfo));
  }
}
