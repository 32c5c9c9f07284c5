/** No repair makes things worse: Critical findings never multiply, whichever planned repairs are applied. */
module RepairSafety {
  import opened Prelude
  import opened Card
  import opened Repair
  import opened RepairPlan

  function Criticals(issues: seq<Issue>): nat {
    if issues == [] then 0
    else Criticals(issues[..|issues| - 1]) + if issues[|issues| - 1].severity.Critical? then 1 else 0
  }

  lemma {:induction false} CriticalsConcat(xs: seq<Issue>, ys: seq<Issue>)
    ensures Criticals(xs + ys) == Criticals(xs) + Criticals(ys)
  {
    if ys == [] {
      assert xs + ys == xs;
    } else {
      CriticalsConcat(xs, ys[..|ys| - 1]);
      assert (xs + ys)[..|xs + ys| - 1] == xs + ys[..|ys| - 1];
    }
  }

  lemma NoCriticals(issues: seq<Issue>)
    requires forall i | i in issues :: !i.severity.Critical?
    ensures Criticals(issues) == 0
  {
  }

  // ---------------------------------------------------------------------------
  // Counting by field
  // ---------------------------------------------------------------------------

  function ChainCriticals(ch: ChainInfoState): nat {
    if ch.Present? && OwnerOk(ch.owner) then 0 else 1
  }

  function KeysCriticals(keys: KeysState): nat {
    if keys.Parsed? then 0 else 1
  }

  lemma CountKeysState(keys: KeysState)
    ensures Criticals(KeysIssues(keys)) == KeysCriticals(keys)
  {
    match keys {
      case KeysAbsent => CriticalsOne(Issue(KeysMissing, Critical, Keys, Manual, None));
      case Unparseable => CriticalsOne(Issue(KeysUnparseable, Critical, Keys, Manual, None));
      case Parsed(aliases, _) => CountRoles(aliases, ROLES);
    }
  }

  lemma {:induction false} CountRoles(aliases: seq<string>, roles: seq<string>)
    ensures Criticals(RoleIssues(aliases, roles)) == 0
  {
    if roles != [] {
      CountRoles(aliases, roles[1..]);
      var first := if roles[0] in aliases then [] else [Issue(KeysRoleMissing, Warning, Keys, Manual, None)];
      NoCriticals(first);
      CriticalsConcat(first, RoleIssues(aliases, roles[1..]));
    }
  }

  function FileCriticals(files: seq<WatermarkFile>): nat {
    if files == [] then 0
    else FileCriticals(files[..|files| - 1]) + if files[|files| - 1].status.Valid? then 0 else 1
  }

  function KeyCriticals(k: KeyWatermarks, seedsPending: bool): nat {
    if !k.dirPresent then (if seedsPending then 0 else 1)
    else FileCriticals(k.files) + if OwnershipBad(k) then 1 else 0
  }

  function SumCriticals(keys: seq<KeyWatermarks>, seedsPending: bool): nat {
    if keys == [] then 0
    else SumCriticals(keys[..|keys| - 1], seedsPending) + KeyCriticals(keys[|keys| - 1], seedsPending)
  }

  lemma {:induction false} CountFiles(files: seq<WatermarkFile>, node: Option<ChainInfo>)
    ensures Criticals(FileIssues(files, node)) == FileCriticals(files)
  {
    if files != [] {
      var init, last := files[..|files| - 1], files[|files| - 1];
      CountFiles(init, node);
      CriticalsConcat(FileIssues(init, node), FileIssue(last, node));
      assert Criticals(FileIssue(last, node)) == if last.status.Valid? then 0 else 1;
    }
  }

  lemma CountKey(k: KeyWatermarks, node: Option<ChainInfo>, seedsPending: bool)
    ensures Criticals(KeyIssues(k, node, seedsPending)) == KeyCriticals(k, seedsPending)
  {
    if k.dirPresent {
      var files := FileIssues(k.files, node);
      var behind := if FloorBehind(k.files, node) then [StageIssue(WatermarkBelowHead, Warning, node)] else [];
      var owner := if OwnershipBad(k) then [WatermarkOwnerIssue(k.pkh)] else [];
      CountFiles(k.files, node);
      CriticalsConcat(files, behind);
      CriticalsConcat(files + behind, owner);
      NoCriticals(behind);
      assert Criticals(owner) == if OwnershipBad(k) then 1 else 0;
    }
  }

  lemma {:induction false} CountKeys(keys: seq<KeyWatermarks>, node: Option<ChainInfo>, seedsPending: bool)
    ensures Criticals(AllKeyIssues(keys, node, seedsPending)) == SumCriticals(keys, seedsPending)
  {
    if keys != [] {
      var init, last := keys[..|keys| - 1], keys[|keys| - 1];
      CountKeys(init, node, seedsPending);
      CountKey(last, node, seedsPending);
      CriticalsConcat(AllKeyIssues(init, node, seedsPending), KeyIssues(last, node, seedsPending));
    }
  }

  lemma CountWatermarks(c: CardState, node: Option<ChainInfo>)
    ensures Criticals(WatermarkIssues(c, node)) == SumCriticals(c.watermarks, SeedsPending(c.bootConfig, node))
  {
    var seeds := SeedsPending(c.bootConfig, node);
    var unknown := if node.None? && exists k | k in c.watermarks :: HasValid(k) then [NODE_UNKNOWN_ISSUE] else [];
    CountKeys(c.watermarks, node, seeds);
    CriticalsConcat(AllKeyIssues(c.watermarks, node, seeds), unknown);
    NoCriticals(unknown);
  }

  lemma CriticalsMiddle(xs: seq<Issue>, ys: seq<Issue>, zs: seq<Issue>)
    requires Criticals(xs) == 0 && Criticals(zs) == 0
    ensures Criticals(xs + ys + zs) == Criticals(ys)
  {
    CriticalsConcat(xs, ys);
    CriticalsConcat(xs + ys, zs);
  }

  lemma CriticalsOne(i: Issue)
    ensures Criticals([i]) == if i.severity.Critical? then 1 else 0
  {
  }

  lemma CountChain(ch: ChainInfoState, node: Option<ChainInfo>)
    ensures Criticals(ChainIssues(ch, node)) == ChainCriticals(ch)
  {
    if ch.Present? {
      var unknown := Issue(ChainInfoNodeUnknown, Info, Keys, NeedsNode, None);
      var moved := Issue(ChainInfoStale, Warning, Keys, HostDirect, Some(WriteChainInfo));
      var drift := Issue(ChainInfoModeDrift, Warning, Keys, HostDirect, Some(ChmodChainInfo));
      var stale := if node.None? then [unknown] else if node.value.id != ch.id then [moved] else [];
      var own := if OwnerOk(ch.owner) then [] else [CHAIN_OWNER_ISSUE];
      var modes := if ch.mode.Some? && ch.mode.value != CHAIN_INFO_MODE then [drift] else [];
      CriticalsOne(CHAIN_OWNER_ISSUE);
      CriticalsOne(unknown);
      CriticalsOne(moved);
      CriticalsOne(drift);
      CriticalsMiddle(stale, own, modes);
    }
  }

  lemma CountServiced(c: CardState, node: Option<ChainInfo>, early: seq<Issue>)
    requires Criticals(early) == 0
    ensures Criticals(early + KeysIssues(c.keys) + ChainIssues(c.chainInfo, node) + WatermarkIssues(c, node) + LogIssues(c))
         == KeysCriticals(c.keys) + ChainCriticals(c.chainInfo)
            + SumCriticals(c.watermarks, SeedsPending(c.bootConfig, node))
  {
    var keys, chain, marks, logs := KeysIssues(c.keys), ChainIssues(c.chainInfo, node), WatermarkIssues(c, node), LogIssues(c);
    CountKeysState(c.keys);
    CountChain(c.chainInfo, node);
    CountWatermarks(c, node);
    NoCriticals(logs);
    CriticalsConcat(early, keys);
    CriticalsConcat(early + keys, chain);
    CriticalsConcat(early + keys + chain, marks);
    CriticalsConcat(early + keys + chain + marks, logs);
  }

  lemma CountDiagnosis(c: CardState, node: Option<ChainInfo>)
    ensures Criticals(Diagnose(c, node))
         == if Serviced(c)
            then KeysCriticals(c.keys) + ChainCriticals(c.chainInfo)
                 + SumCriticals(c.watermarks, SeedsPending(c.bootConfig, node))
            else 0
  {
    var boot := BootIssues(c, node);
    var pending := [Issue(MigrationPending, Info, Keys, Manual, None)];
    var early := if c.migrationPending then boot + pending else boot;
    NoCriticals(boot);
    CriticalsConcat(boot, pending);
    NoCriticals(pending);
    if !c.inspection.Inspected? {
      CriticalsConcat(boot, UninspectedIssues(c, node));
      NoCriticals(UninspectedIssues(c, node));
    } else if !c.setupComplete {
      CriticalsConcat(early, UnsetIssues(c, node));
      NoCriticals(UnsetIssues(c, node));
    } else {
      CountServiced(c, node, early);
    }
  }

  // ---------------------------------------------------------------------------
  // Each field only improves
  // ---------------------------------------------------------------------------

  lemma {:induction false} RestoringFilesHelps(files: seq<WatermarkFile>, files': seq<WatermarkFile>)
    requires |files'| == |files|
    requires forall i | 0 <= i < |files| :: files[i].status.Valid? ==> files'[i].status.Valid?
    ensures FileCriticals(files') <= FileCriticals(files)
  {
    if files != [] {
      RestoringFilesHelps(files[..|files| - 1], files'[..|files| - 1]);
    }
  }

  lemma KeyOnlyImproves(k: KeyWatermarks, h: Hidden, actions: seq<RepairAction>, before: bool, after: bool)
    requires !k.dirPresent && before ==> after
    ensures KeyCriticals(KeyAfter(k, h, actions), after) <= KeyCriticals(k, before)
  {
    var k' := KeyAfter(k, h, actions);
    if k.dirPresent {
      RestoringFilesHelps(k.files, k'.files);
    }
  }

  lemma {:induction false} KeysOnlyImprove(keys: seq<KeyWatermarks>, h: Hidden, actions: seq<RepairAction>, before: bool, after: bool)
    requires forall k | k in keys && !k.dirPresent :: before ==> after
    ensures SumCriticals(KeysAfter(keys, h, actions), after) <= SumCriticals(keys, before)
  {
    if keys != [] {
      var init, last := keys[..|keys| - 1], keys[|keys| - 1];
      assert keys == init + [last];
      KeysOnlyImprove(init, h, actions, before, after);
      KeyOnlyImproves(last, h, actions, before, after);
      assert KeysAfter(keys, h, actions)[..|keys| - 1] == KeysAfter(init, h, actions);
    }
  }

  /** Deleting a planned config never un-seeds a directory the device was about to create. */
  lemma SeedsKept(c: CardState, node: Option<ChainInfo>, actions: seq<RepairAction>)
    requires Gathered(c)
    requires forall a | a in actions :: Planned(c, node, a)
    requires SeedsPending(c.bootConfig, node)
    ensures SeedsPending(BootAfter(c.bootConfig, node, actions), node) || forall k | k in c.watermarks :: k.dirPresent
  {
  }

  /** A readable, well-owned chain_info would be rewritten with the node's empty chain id. */
  predicate BlanksChainId(c: CardState, node: Option<ChainInfo>) {
    && Serviced(c) && node.Some? && node.value.id == ""
    && c.chainInfo.Present? && OwnerOk(c.chainInfo.owner) && c.chainInfo.id != ""
  }

  lemma ChainOnlyImproves(c: CardState, node: Option<ChainInfo>, h: Hidden, actions: seq<RepairAction>)
    requires !BlanksChainId(c, node)
    requires forall a | a in actions :: Planned(c, node, a)
    ensures ChainCriticals(ChainAfter(c.chainInfo, node, h, actions)) <= ChainCriticals(c.chainInfo)
  {
  }

  /** Applying any planned repairs, in any order, never increases the number of Critical findings. */
  lemma CriticalsNeverIncrease(c: CardState, node: Option<ChainInfo>, h: Hidden, actions: seq<RepairAction>)
    requires Gathered(c) && !BlanksChainId(c, node)
    requires forall a | a in actions :: a in Repairs(c, node)
    ensures Criticals(Diagnose(ApplyAll(c, node, h, actions), node)) <= Criticals(Diagnose(c, node))
  {
    PlanMembership(c, node);
    assert forall a | a in actions :: Planned(c, node, a);
    SubsetCompatible(c, node, actions);
    SubsetOnlyImproves(c, node, h, actions);
    ApplyAllResult(c, node, h, actions);
  }

  lemma SubsetOnlyImproves(c: CardState, node: Option<ChainInfo>, h: Hidden, actions: seq<RepairAction>)
    requires Gathered(c) && !BlanksChainId(c, node)
    requires forall a | a in actions :: Planned(c, node, a)
    ensures Criticals(Diagnose(CardAfter(c, node, h, actions), node)) <= Criticals(Diagnose(c, node))
  {
    var c' := CardAfter(c, node, h, actions);
    CountDiagnosis(c, node);
    CountDiagnosis(c', node);
    ChainOnlyImproves(c, node, h, actions);
    var before, after := SeedsPending(c.bootConfig, node), SeedsPending(c'.bootConfig, node);
    if before {
      SeedsKept(c, node, actions);
    }
    KeysOnlyImprove(c.watermarks, h, actions, before, after);
  }

  /** The one exception: a node that reports an empty chain id makes a readable chain_info unreadable. */
  lemma EmptyChainIdHurts(c: CardState, node: Option<ChainInfo>, h: Hidden)
    requires BlanksChainId(c, node)
    ensures WriteChainInfo in Repairs(c, node)
    ensures Criticals(Diagnose(ApplyAll(c, node, h, [WriteChainInfo]), node)) == Criticals(Diagnose(c, node)) + 1
  {
    OnePlanned(c, node, WriteChainInfo);
    var c' := c.(chainInfo := WrittenChain(node.value));
    assert ApplyAll(c, node, h, [WriteChainInfo]) == Apply(ApplyAll(c, node, h, []), node, h, WriteChainInfo);
    CountDiagnosis(c, node);
    CountDiagnosis(c', node);
  }

  ghost predicate NoWorse(c: CardState, node: Option<ChainInfo>, h: Hidden, actions: seq<RepairAction>) {
    Criticals(Diagnose(ApplyAll(c, node, h, actions), node)) <= Criticals(Diagnose(c, node))
  }

  ghost predicate FromPlan(c: CardState, node: Option<ChainInfo>, actions: seq<RepairAction>) {
    forall a | a in actions :: a in Repairs(c, node)
  }

  /** Every selection from the plan is harmless exactly when no chain id would be blanked. */
  lemma NoWorseIff(c: CardState, node: Option<ChainInfo>, h: Hidden)
    requires Gathered(c)
    ensures (forall actions | FromPlan(c, node, actions) :: NoWorse(c, node, h, actions)) <==> !BlanksChainId(c, node)
  {
    if BlanksChainId(c, node) {
      EmptyChainIdHurts(c, node, h);
      assert FromPlan(c, node, [WriteChainInfo]) && !NoWorse(c, node, h, [WriteChainInfo]);
    } else {
      forall actions | FromPlan(c, node, actions)
        ensures NoWorse(c, node, h, actions)
      {
        CriticalsNeverIncrease(c, node, h, actions);
      }
    }
  }
}
