/**
 * Running the disk check again and again: diagnosis, plan and repair as one transition, and the
 * exact condition under which repeating it settles.
 */
module RepairLoop {
  import opened Prelude
  import opened Card
  import opened Repair
  import opened RepairPlan

  /** One confirmed run of the disk check against a node. */
  function Round(c: CardState, node: Option<ChainInfo>, h: Hidden): CardState {
    ApplyAll(c, node, h, Repairs(c, node))
  }

  /** Consecutive runs; what each chown reveals may differ from run to run. */
  function Rounds(c: CardState, node: Option<ChainInfo>, hs: seq<Hidden>): CardState
    decreases |hs|
  {
    if hs == [] then c else Rounds(Round(c, node, hs[0]), node, hs[1..])
  }

  // ---------------------------------------------------------------------------
  // One run, field by field
  // ---------------------------------------------------------------------------

  function StagedBy(n: ChainInfo): Option<BootConfig> {
    Some(BootConfig(n.id, n.level))
  }

  function NextBoot(c: CardState, node: Option<ChainInfo>): Option<BootConfig> {
    if NeedsStage(c, node) then StagedBy(node.value)
    else if StaleConfig(c, node) then None
    else c.bootConfig
  }

  function NextChain(c: CardState, node: Option<ChainInfo>, h: Hidden): ChainInfoState {
    if NeedsWrite(c, node) then WrittenChain(node.value)
    else
      var owned := if NeedsChown(c) then ChownedChain(c.chainInfo, h) else c.chainInfo;
      if NeedsChmod(c) then ChmodedChain(owned) else owned
  }

  function NextKeys(c: CardState, h: Hidden): (r: seq<KeyWatermarks>)
    ensures |r| == |c.watermarks|
    ensures forall i | 0 <= i < |r| :: r[i] == if NeedsKeyChown(c, c.watermarks[i].pkh)
                                               then RestoredKey(c.watermarks[i], h) else c.watermarks[i]
  {
    seq(|c.watermarks|, i requires 0 <= i < |c.watermarks| =>
      if NeedsKeyChown(c, c.watermarks[i].pkh) then RestoredKey(c.watermarks[i], h) else c.watermarks[i])
  }

  function Next(c: CardState, node: Option<ChainInfo>, h: Hidden): CardState {
    c.(bootConfig := NextBoot(c, node),
       chainInfo := NextChain(c, node, h),
       watermarks := NextKeys(c, h),
       panicLogSize := if NeedsTruncate(c) then Some(0) else c.panicLogSize)
  }

  /** A list of exactly the planned actions. */
  ghost predicate IsPlanFor(plan: seq<RepairAction>, c: CardState, node: Option<ChainInfo>) {
    Compatible(plan, node) && forall a :: a in plan <==> Planned(c, node, a)
  }

  lemma NextKeysMatch(c: CardState, node: Option<ChainInfo>, h: Hidden, plan: seq<RepairAction>)
    requires IsPlanFor(plan, c, node)
    ensures KeysAfter(c.watermarks, h, plan) == NextKeys(c, h)
  {
  }

  lemma PlanIsNext(c: CardState, node: Option<ChainInfo>, h: Hidden, plan: seq<RepairAction>)
    requires IsPlanFor(plan, c, node)
    ensures ApplyAll(c, node, h, plan) == Next(c, node, h)
  {
    ApplyAllResult(c, node, h, plan);
    NextKeysMatch(c, node, h, plan);
    assert BootAfter(c.bootConfig, node, plan) == NextBoot(c, node);
    assert ChainAfter(c.chainInfo, node, h, plan) == NextChain(c, node, h);
    assert TruncatePanicLog in plan <==> NeedsTruncate(c);
  }

  lemma RoundIsNext(c: CardState, node: Option<ChainInfo>, h: Hidden)
    ensures Round(c, node, h) == Next(c, node, h)
  {
    PlanConflictFree(c, node);
    PlanMembership(c, node);
    PlanIsNext(c, node, h, Repairs(c, node));
  }

  /** A run that restores an owner lets the next diagnosis see what the file really holds. */
  lemma RoundReveals(c: CardState, node: Option<ChainInfo>, h: Hidden, i: nat, j: nat)
    requires Serviced(c)
    ensures c.chainInfo.Unreadable? && !OwnerOk(c.chainInfo.owner) ==>
              Round(c, node, h).chainInfo == if h.chainId.Some? && h.chainId.value != ""
                                             then Present(h.chainId.value, c.chainInfo.mode, Some((1000, 1000)))
                                             else Unreadable(Some((1000, 1000)), c.chainInfo.mode)
    ensures i < |c.watermarks| && j < |c.watermarks[i].files| && c.watermarks[i].dirPresent && OwnershipBad(c.watermarks[i]) ==>
              var (k, r) := (c.watermarks[i], Round(c, node, h).watermarks);
              |r| == |c.watermarks| && r[i].dirOwner == Some((1000, 1000)) && |r[i].files| == |k.files|
              && r[i].files[j].status == if k.files[j].status.FileMissing? then h.status(k.pkh, j) else k.files[j].status
  {
    RoundIsNext(c, node, h);
  }

  lemma NextGathered(c: CardState, node: Option<ChainInfo>, h: Hidden)
    requires Gathered(c)
    ensures Gathered(Next(c, node, h))
  {
  }

  // ---------------------------------------------------------------------------
  // Three stages of settling
  // ---------------------------------------------------------------------------

  /** Nothing is owned by a stranger and the panic log is small. */
  ghost predicate OwnershipSettled(c: CardState) {
    !NeedsChown(c) && !NeedsTruncate(c) && forall pkh :: !NeedsKeyChown(c, pkh)
  }

  /** ... and `chain_info.json` is as good as this node can make it. */
  ghost predicate ChainSettled(c: CardState, node: Option<ChainInfo>) {
    && OwnershipSettled(c)
    && !NeedsChmod(c)
    && (NeedsWrite(c, node) ==> node.value.id == "" && c.chainInfo == WrittenChain(node.value))
  }

  /** ... and the boot partition holds what the plan would put there. */
  ghost predicate Settled(c: CardState, node: Option<ChainInfo>) {
    && ChainSettled(c, node)
    && (NeedsStage(c, node) ==> c.bootConfig == StagedBy(node.value))
    && (StaleConfig(c, node) ==> NeedsStage(c, node))
  }

  lemma NextSettlesOwnership(c: CardState, node: Option<ChainInfo>, h: Hidden)
    ensures OwnershipSettled(Next(c, node, h))
  {
  }

  lemma NextSettlesChain(c: CardState, node: Option<ChainInfo>, h: Hidden)
    requires OwnershipSettled(c)
    ensures ChainSettled(Next(c, node, h), node)
  {
  }

  /** Once the chain has settled, a run can only touch the boot partition. */
  lemma NextOnlyBoot(c: CardState, node: Option<ChainInfo>, h: Hidden)
    requires ChainSettled(c, node)
    ensures Next(c, node, h) == c.(bootConfig := NextBoot(c, node))
  {
  }

  /** Deleting a stale config never turns a pending directory into a fault. */
  lemma DeletionKeepsFaults(c: CardState, node: Option<ChainInfo>)
    requires Gathered(c) && StaleConfig(c, node)
    ensures WatermarkFault(c.(bootConfig := None), node) == WatermarkFault(c, node)
  {
  }

  /** A config staged for a watermark fault is not superseded while the fault lasts. */
  lemma StagedConfigIsNeeded(c: CardState, node: Option<ChainInfo>)
    requires Gathered(c) && node.Some? && WatermarkFault(c, node)
    ensures !FloorsCovered(c, node.value.level)
  {
  }

  /** For cards whose seed rule respects existing floors, the third run settles the boot partition. */
  lemma NextSettlesBoot(c: CardState, node: Option<ChainInfo>, h: Hidden)
    requires Gathered(c) && ChainSettled(c, node) && (c.inspection.Inspected? ==> c.setupComplete)
    ensures Settled(Next(c, node, h), node)
  {
  }

  /** The plan does nothing new: at most it stages the config already staged (or rewrites an empty id). */
  ghost predicate PlanIdle(c: CardState, node: Option<ChainInfo>) {
    forall a | a in Repairs(c, node) ::
      || (a.StageBootConfig? && node == Some(a.chain) && c.bootConfig == StagedBy(a.chain))
      || (a.WriteChainInfo? && node.Some? && node.value.id == "")
  }

  lemma SettledStays(c: CardState, node: Option<ChainInfo>, h: Hidden)
    requires Settled(c, node)
    ensures Round(c, node, h) == c && PlanIdle(c, node)
  {
    RoundIsNext(c, node, h);
    NextOnlyBoot(c, node, h);
    forall a | a in Repairs(c, node)
      ensures (a.StageBootConfig? && node == Some(a.chain) && c.bootConfig == StagedBy(a.chain))
           || (a.WriteChainInfo? && node.Some? && node.value.id == "")
    {
      OnePlanned(c, node, a);
    }
  }

  lemma {:induction false} SettledForever(c: CardState, node: Option<ChainInfo>, hs: seq<Hidden>)
    requires Settled(c, node)
    ensures Rounds(c, node, hs) == c
    decreases |hs|
  {
    if hs != [] {
      SettledStays(c, node, hs[0]);
      SettledForever(c, node, hs[1..]);
    }
  }

  // ---------------------------------------------------------------------------
  // Cards that have not completed first-boot setup
  // ---------------------------------------------------------------------------

  /**
   * Setup never completed, yet the floors already cover the node's head and chain_info is
   * current: the missing-seed rule stages a config and the superseded rule deletes it again.
   */
  predicate Oscillates(c: CardState, node: Option<ChainInfo>) {
    && c.inspection.Inspected? && !c.setupComplete && node.Some?
    && Superseded(c, node.value.id, BootConfig(node.value.id, node.value.level))
    && (c.bootConfig.None? || StaleConfig(c, node))
  }

  lemma OscillationContinues(c: CardState, node: Option<ChainInfo>, h: Hidden)
    requires Oscillates(c, node)
    ensures Round(c, node, h) != c && Oscillates(Round(c, node, h), node)
  {
    RoundIsNext(c, node, h);
    assert NextKeys(c, h) == c.watermarks;
  }

  lemma UnsetSettles(c: CardState, node: Option<ChainInfo>, h0: Hidden, h1: Hidden)
    requires c.inspection.Inspected? && !c.setupComplete && !Oscillates(c, node)
    ensures Settled(Next(Next(c, node, h0), node, h1), node)
  {
  }

  // ---------------------------------------------------------------------------
  // The loop
  // ---------------------------------------------------------------------------

  lemma ThreeRoundsSettle(c: CardState, node: Option<ChainInfo>, h0: Hidden, h1: Hidden, h2: Hidden)
    requires Gathered(c) && !Oscillates(c, node)
    ensures Settled(Round(Round(Round(c, node, h0), node, h1), node, h2), node)
  {
    RoundIsNext(c, node, h0);
    var c1 := Next(c, node, h0);
    RoundIsNext(c1, node, h1);
    var c2 := Next(c1, node, h1);
    RoundIsNext(c2, node, h2);
    if c.inspection.Inspected? && !c.setupComplete {
      UnsetSettles(c, node, h0, h1);
      SettledStays(c2, node, h2);
    } else {
      NextSettlesOwnership(c, node, h0);
      NextGathered(c, node, h0);
      NextSettlesChain(c1, node, h1);
      NextGathered(c1, node, h1);
      NextSettlesBoot(c2, node, h2);
    }
  }

  /** After three runs every further run leaves the card unchanged, whatever the chowns revealed. */
  lemma Converges(c: CardState, node: Option<ChainInfo>, hs: seq<Hidden>, h: Hidden)
    requires Gathered(c) && !Oscillates(c, node) && |hs| >= 3
    ensures var settled := Rounds(c, node, hs);
            Round(settled, node, h) == settled && PlanIdle(settled, node)
  {
    var rest, rest2, rest3 := hs[1..], hs[2..], hs[3..];
    assert rest[1..] == rest2 && rest2[1..] == rest3 && rest[0] == hs[1] && rest2[0] == hs[2];
    var c3 := Round(Round(Round(c, node, hs[0]), node, hs[1]), node, hs[2]);
    ThreeRoundsSettle(c, node, hs[0], hs[1], hs[2]);
    assert Rounds(c, node, hs) == Rounds(Round(c, node, hs[0]), node, rest);
    assert Rounds(Round(c, node, hs[0]), node, rest) == Rounds(Round(Round(c, node, hs[0]), node, hs[1]), node, rest2);
    SettledForever(c3, node, rest3);
    SettledStays(c3, node, h);
  }

  lemma {:induction false} NeverSettles(c: CardState, node: Option<ChainInfo>, hs: seq<Hidden>, h: Hidden)
    requires Oscillates(c, node)
    ensures var reached := Rounds(c, node, hs);
            Oscillates(reached, node) && Round(reached, node, h) != reached
    decreases |hs|
  {
    if hs == [] {
      OscillationContinues(c, node, h);
    } else {
      OscillationContinues(c, node, hs[0]);
      NeverSettles(Round(c, node, hs[0]), node, hs[1..], h);
    }
  }

  /** The check-and-repair loop converges exactly on the cards that do not oscillate. */
  lemma ConvergesIff(c: CardState, node: Option<ChainInfo>, hs: seq<Hidden>, h: Hidden)
    requires Gathered(c) && |hs| >= 3
    ensures Round(Rounds(c, node, hs), node, h) == Rounds(c, node, hs) <==> !Oscillates(c, node)
  {
    if Oscillates(c, node) {
      NeverSettles(c, node, hs, h);
    } else {
      Converges(c, node, hs, h);
    }
  }

  /** Such a card exists: one key with covered floors, current chain_info, no `.setup_complete`. */
  lemma OscillatingCardExists()
    ensures exists c: CardState, node: Option<ChainInfo> :: Gathered(c) && Oscillates(c, node)
  {
    var n := ChainInfo("NetXdQprcVkpaWU", 100, "Mainnet", 10);
    var file := WatermarkFile("block_watermark", Valid(100), DEVICE_OWNER);
    var key := KeyWatermarks("tz4", true, DEVICE_OWNER, [file]);
    var c := CardState(Inspected, false, false, KeysAbsent, Present(n.id, Some(CHAIN_INFO_MODE), DEVICE_OWNER), [key], true, None, None);
    assert key in c.watermarks;
    assert Gathered(c) && Oscillates(c, Some(n));
  }

  /** Everything is in order except that chain_info cannot be read behind a foreign owner. */
  ghost predicate SlowCard(c: CardState, n: ChainInfo) {
    && Serviced(c) && n.id != ""
    && c.chainInfo.Unreadable? && !OwnerOk(c.chainInfo.owner)
    && c.bootConfig.Some? && c.bootConfig.value.chainId == n.id && FloorsCovered(c, c.bootConfig.value.level)
    && !WatermarkFault(c, Some(n)) && !NeedsTruncate(c) && forall pkh :: !NeedsKeyChown(c, pkh)
  }

  lemma SlowFirstRun(c: CardState, n: ChainInfo, h: Hidden)
    requires SlowCard(c, n) && h.chainId.None?
    ensures Next(c, Some(n), h) == c.(chainInfo := Unreadable(DEVICE_OWNER, c.chainInfo.mode))
  {
  }

  lemma SlowSecondRun(c: CardState, n: ChainInfo, h: Hidden)
    requires SlowCard(c, n)
    ensures var c1 := c.(chainInfo := Unreadable(DEVICE_OWNER, c.chainInfo.mode));
            Next(c1, Some(n), h) == c.(chainInfo := WrittenChain(n))
  {
    var c1 := c.(chainInfo := Unreadable(DEVICE_OWNER, c.chainInfo.mode));
    assert forall pkh :: NeedsKeyChown(c1, pkh) == NeedsKeyChown(c, pkh);
    assert NextKeys(c1, h) == c.watermarks;
  }

  /** The bound is tight: such a card needs a chown, then a rewrite, then a deletion. */
  lemma ThreeRoundsNeeded(c: CardState, n: ChainInfo, h: Hidden)
    requires SlowCard(c, n) && h.chainId.None?
    ensures var c2 := Round(Round(c, Some(n), h), Some(n), h); Round(c2, Some(n), h) != c2
  {
    RoundIsNext(c, Some(n), h);
    SlowFirstRun(c, n, h);
    RoundIsNext(Next(c, Some(n), h), Some(n), h);
    SlowSecondRun(c, n, h);
    var c2 := c.(chainInfo := WrittenChain(n));
    RoundIsNext(c2, Some(n), h);
    assert StaleConfig(c2, Some(n)) && !NeedsStage(c2, Some(n));
  }

  lemma SlowCardExists()
    ensures exists c: CardState, n: ChainInfo :: Gathered(c) && SlowCard(c, n)
  {
    var n := ChainInfo("NetXdQprcVkpaWU", 100, "Mainnet", 10);
    var file := WatermarkFile("block_watermark", Valid(100), DEVICE_OWNER);
    var key := KeyWatermarks("tz4", true, DEVICE_OWNER, [file]);
    var c := CardState(Inspected, true, false, KeysAbsent, Unreadable(Some((0, 0)), None), [key], true, None, Some(BootConfig(n.id, 50)));
    assert key in c.watermarks && file in key.files;
    assert Gathered(c) && SlowCard(c, n);
  }
}
