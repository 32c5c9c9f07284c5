/** Choosing a node for a card, and the whole `check disk` command (host-utility/src/disk.rs). */
module DiskCheck {
  import opened Prelude
  import opened Card
  import opened Classifier
  import opened Repair
  import opened RepairPlan
  import opened Findings
  import opened RepairLoop
  import opened RepairSafety
  import opened RepairExecutor
  import opened RepairFaults

  /** The chain the card itself names: chain_info first, a staged config when that cannot be read. */
  function CardTarget(c: CardState): Option<string> {
    if c.chainInfo.Present? then Some(c.chainInfo.id)
    else if c.bootConfig.Some? then Some(c.bootConfig.value.chainId)
    else None
  }

  datatype NodePlan = Accept | Switch | Prompt | GiveUp

  const MAINNET_CHAIN_ID := "NetXdQprcVkpaWU"

  function PlanNode(current: Option<string>, card: Option<string>, explicitEndpoint: bool, nonInteractive: bool): NodePlan {
    if card.None? then Accept
    else if current == card then Accept
    else if explicitEndpoint then GiveUp
    else if card.value == MAINNET_CHAIN_ID then Switch
    else if nonInteractive then GiveUp
    else Prompt
  }

  function AcceptIfOnChain(node: Option<ChainInfo>, card: Option<string>): Option<ChainInfo> {
    if node.Some? && card.Some? && node.value.id != card.value then None else node
  }

  function IdOf(node: Option<ChainInfo>): Option<string> {
    if node.Some? then Some(node.value.id) else None
  }

  /** `first` and `second` are what the two fetches return; either may be anything. */
  function Resolve(first: Option<ChainInfo>, second: Option<ChainInfo>, card: Option<string>, explicitEndpoint: bool, nonInteractive: bool): Option<ChainInfo> {
    match PlanNode(IdOf(first), card, explicitEndpoint, nonInteractive)
    case Accept => first
    case GiveUp => None
    case Switch => AcceptIfOnChain(second, card)
    case Prompt => AcceptIfOnChain(second, card)
  }

  /** A node is a reference only for the card's own chain. */
  ghost predicate NodeFits(c: CardState, node: Option<ChainInfo>) {
    CardTarget(c).Some? && node.Some? ==> node.value.id == CardTarget(c).value
  }

  /** Whatever the fetches return, a resolved node is on the chain the card names; a fetch already there is kept. */
  lemma ResolvedNodeFits(c: CardState, first: Option<ChainInfo>, second: Option<ChainInfo>, explicitEndpoint: bool, nonInteractive: bool)
    ensures NodeFits(c, Resolve(first, second, CardTarget(c), explicitEndpoint, nonInteractive))
    ensures IdOf(first) == CardTarget(c) ==> Resolve(first, second, CardTarget(c), explicitEndpoint, nonInteractive) == first
  {
  }

  /** The chain a card is for: what its chain_info says, or a staged config when that cannot be read. */
  predicate Names(c: CardState, id: string) {
    if c.chainInfo.Present? then c.chainInfo.id == id else c.bootConfig.Some? && c.bootConfig.value.chainId == id
  }

  ghost predicate NamesNone(c: CardState) {
    forall id :: !Names(c, id)
  }

  predicate OnChain(n: Option<ChainInfo>, id: string) {
    n.Some? && n.value.id == id
  }

  /**
   * The node to diagnose a card against. A card that names no chain takes the saved one; another
   * takes the first fetch on its own chain, where a second fetch is made only without an explicit
   * endpoint, from the public Mainnet node or from one the operator picks; else none.
   */
  ghost predicate RightNode(c: CardState, first: Option<ChainInfo>, second: Option<ChainInfo>, explicitEndpoint: bool, interactive: bool,
                            node: Option<ChainInfo>) {
    && (NamesNone(c) ==> node == first)
    && forall id | Names(c, id) ::
         node == if OnChain(first, id) then first
                 else if OnChain(second, id) && !explicitEndpoint && (id == "NetXdQprcVkpaWU" || interactive) then second
                 else None
  }

  lemma ResolvedNodeExact(c: CardState, first: Option<ChainInfo>, second: Option<ChainInfo>, explicitEndpoint: bool, nonInteractive: bool)
    ensures RightNode(c, first, second, explicitEndpoint, !nonInteractive, Resolve(first, second, CardTarget(c), explicitEndpoint, nonInteractive))
  {
    if c.chainInfo.Present? {
      assert Names(c, c.chainInfo.id);
    } else if c.bootConfig.Some? {
      assert Names(c, c.bootConfig.value.chainId);
    }
  }

  // ---------------------------------------------------------------------------
  // No stale verdict against the card's own chain
  // ---------------------------------------------------------------------------

  ghost predicate Without(issues: seq<Issue>, kind: IssueKind) {
    forall i | i in issues :: i.kind != kind
  }

  /** Diagnosed against a fitting node, chain_info is never called stale. */
  lemma NeverStale(c: CardState, node: Option<ChainInfo>)
    requires NodeFits(c, node)
    ensures Without(Diagnose(c, node), ChainInfoStale)
  {
    forall i | i in Diagnose(c, node)
      ensures i.kind != ChainInfoStale
    {
      DiagnosisExact(c, node, i);
    }
  }

  /** The chain the card commits to survives any planned repairs, and only a readable card loses a foreign config. */
  ghost predicate ChainKept(before: CardState, after: CardState, node: Option<ChainInfo>) {
    && (before.chainInfo.Present? ==> after.chainInfo.Present? && after.chainInfo.id == before.chainInfo.id)
    && (before.bootConfig.Some? && after.bootConfig != before.bootConfig
        && node.Some? && before.bootConfig.value.chainId != node.value.id
        ==> before.chainInfo.Present? && before.chainInfo.id == node.value.id)
    && (after.chainInfo.Present? && !before.chainInfo.Present? && node.Some? && before.chainInfo.Missing?
        ==> after.chainInfo.id == node.value.id)
  }

  lemma RepairsKeepChain(c: CardState, node: Option<ChainInfo>, h: Hidden, actions: seq<RepairAction>)
    requires NodeFits(c, node)
    requires forall a | a in actions :: a in Repairs(c, node)
    ensures ChainKept(c, ApplyAll(c, node, h, actions), node)
  {
    PlanMembership(c, node);
    assert forall a | a in actions :: Planned(c, node, a);
    SubsetCompatible(c, node, actions);
    ApplyAllResult(c, node, h, actions);
    PlannedKeepChain(c, node, h, actions);
  }

  lemma PlannedKeepChain(c: CardState, node: Option<ChainInfo>, h: Hidden, actions: seq<RepairAction>)
    requires NodeFits(c, node)
    requires forall a | a in actions :: Planned(c, node, a)
    ensures ChainKept(c, CardAfter(c, node, h, actions), node)
  {
  }

  // ---------------------------------------------------------------------------
  // Repeating the command
  // ---------------------------------------------------------------------------

  /** What the fetches return and how the command is called, the same on every run. */
  datatype Fetches = Fetches(first: Option<ChainInfo>, second: Option<ChainInfo>, explicitEndpoint: bool, nonInteractive: bool)

  /** The node a run is diagnosed against, resolved anew from what the card names. */
  function NodeFor(c: CardState, f: Fetches): Option<ChainInfo> {
    Resolve(f.first, f.second, CardTarget(c), f.explicitEndpoint, f.nonInteractive)
  }

  /** Consecutive runs of the command with everything confirmed. */
  function Checks(c: CardState, f: Fetches, hs: seq<Hidden>): CardState
    decreases |hs|
  {
    if hs == [] then c else Checks(Round(c, NodeFor(c, f), hs[0]), f, hs[1..])
  }

  /** Unless a chown may reveal another chain id, the next run resolves the same node. */
  lemma NodeStays(c: CardState, f: Fetches, h: Hidden)
    requires !NeedsChown(c)
    ensures NodeFor(Round(c, NodeFor(c, f), h), f) == NodeFor(c, f)
  {
    RoundIsNext(c, NodeFor(c, f), h);
  }

  lemma {:induction false} ChecksAreRounds(c: CardState, f: Fetches, hs: seq<Hidden>)
    requires !NeedsChown(c)
    ensures Checks(c, f, hs) == Rounds(c, NodeFor(c, f), hs) && NodeFor(Checks(c, f, hs), f) == NodeFor(c, f)
    decreases |hs|
  {
    if hs != [] {
      var c' := Round(c, NodeFor(c, f), hs[0]);
      NodeStays(c, f, hs[0]);
      RoundIsNext(c, NodeFor(c, f), hs[0]);
      NextSettlesOwnership(c, NodeFor(c, f), hs[0]);
      ChecksAreRounds(c', f, hs[1..]);
    }
  }

  /** From a card whose owners are settled, two rounds are enough. */
  lemma OwnedConverges(c: CardState, node: Option<ChainInfo>, hs: seq<Hidden>, h: Hidden)
    requires Gathered(c) && Serviced(c) && OwnershipSettled(c) && |hs| >= 2
    ensures Round(Rounds(c, node, hs), node, h) == Rounds(c, node, hs)
  {
    var c1 := Next(c, node, hs[0]);
    RoundIsNext(c, node, hs[0]);
    RoundIsNext(c1, node, hs[1]);
    NextSettlesChain(c, node, hs[0]);
    NextGathered(c, node, hs[0]);
    NextSettlesBoot(c1, node, hs[1]);
    var c2 := Next(c1, node, hs[1]);
    assert hs[1..][1..] == hs[2..] && hs[1..][0] == hs[1];
    assert Rounds(c, node, hs) == Rounds(c1, node, hs[1..]);
    assert Rounds(c1, node, hs[1..]) == Rounds(c2, node, hs[2..]);
    SettledForever(c2, node, hs[2..]);
    SettledStays(c2, node, h);
  }

  /**
   * Running the command again and again settles after three runs, although each run resolves its
   * node from what the card then names, exactly on the cards that do not oscillate.
   */
  lemma ChecksConvergeIff(c: CardState, f: Fetches, hs: seq<Hidden>, h: Hidden)
    requires Gathered(c) && |hs| >= 3
    ensures var reached := Checks(c, f, hs);
            Round(reached, NodeFor(reached, f), h) == reached <==> !Oscillates(c, NodeFor(c, f))
  {
    if NeedsChown(c) {
      var c1 := Round(c, NodeFor(c, f), hs[0]);
      RoundIsNext(c, NodeFor(c, f), hs[0]);
      NextSettlesOwnership(c, NodeFor(c, f), hs[0]);
      NextGathered(c, NodeFor(c, f), hs[0]);
      ChecksAreRounds(c1, f, hs[1..]);
      OwnedConverges(c1, NodeFor(c1, f), hs[1..], h);
    } else {
      ChecksAreRounds(c, f, hs);
      ConvergesIff(c, NodeFor(c, f), hs, h);
    }
  }

  // ---------------------------------------------------------------------------
  // A repair that fails half-way
  // ---------------------------------------------------------------------------

  /** Before its own turn, the fields a planned repair works on are as they were diagnosed. */
  lemma FaultSeesDiagnosedCard(c: CardState, node: Option<ChainInfo>, h: Hidden, applied: seq<RepairAction>, a: RepairAction)
    requires Planned(c, node, a) && a !in applied && forall x | x in applied :: Planned(c, node, x)
    ensures a.StageBootConfig? ==> BootAfter(c.bootConfig, node, applied) == c.bootConfig
    ensures a.WriteChainInfo? ==> ChainAfter(c.chainInfo, node, h, applied) == c.chainInfo
  {
  }

  lemma FaultLosses(c: CardState, node: Option<ChainInfo>, h: Hidden, applied: seq<RepairAction>, a: RepairAction, f: Fault)
    requires NodeFits(c, node) && Planned(c, node, a) && a !in applied && forall x | x in applied :: Planned(c, node, x)
    ensures var c1 := CardAfter(c, node, h, applied);
            !LosesChain(c1, node, a, f) && (LosesSeeds(c1, node, a, f) <==> LosesSeeds(c, node, a, f))
  {
    var c1 := CardAfter(c, node, h, applied);
    FaultSeesDiagnosedCard(c, node, h, applied, a);
    assert forall i | 0 <= i < |c.watermarks| ::
        c1.watermarks[i] in c1.watermarks && c.watermarks[i] in c.watermarks && c1.watermarks[i].dirPresent == c.watermarks[i].dirPresent;
  }

  lemma FaultKeepsChain(c: CardState, node: Option<ChainInfo>, h: Hidden, applied: seq<RepairAction>, a: RepairAction, f: Fault)
    requires NodeFits(c, node) && Planned(c, node, a) && a !in applied && forall x | x in applied :: Planned(c, node, x)
    ensures ChainKept(c, AfterFault(CardAfter(c, node, h, applied), node, h, a, f), node)
  {
    PlannedKeepChain(c, node, h, applied);
    FaultSeesDiagnosedCard(c, node, h, applied, a);
  }

  /** On the card's own chain, a failing run keeps the chain and makes the diagnosis worse exactly when it loses seeds first. */
  lemma FailingRun(c: CardState, node: Option<ChainInfo>, h: Hidden, applied: seq<RepairAction>, a: RepairAction, f: Fault)
    requires NodeFits(c, node) && a in Repairs(c, node) && a !in applied && forall x | x in applied :: x in Repairs(c, node)
    ensures var after := AfterFault(ApplyAll(c, node, h, applied), node, h, a, f);
            && ChainKept(c, after, node)
            && (Gathered(c) && !LosesSeeds(c, node, a, f) ==> Criticals(Diagnose(after, node)) <= Criticals(Diagnose(c, node)))
            && (LosesSeeds(c, node, a, f) && applied == [] ==>
                  Criticals(Diagnose(after, node)) == Criticals(Diagnose(c, node)) + AbsentDirs(c.watermarks) > Criticals(Diagnose(c, node)))
  {
    PlanMembership(c, node);
    SubsetCompatible(c, node, applied);
    ApplyAllResult(c, node, h, applied);
    FaultLosses(c, node, h, applied, a, f);
    FaultKeepsChain(c, node, h, applied, a, f);
    if LosesSeeds(c, node, a, f) {
      LostSeedsHurt(c, node, h, a, f);
    } else if Gathered(c) {
      PlanConflictFree(c, node);
      OtherFaultsAreHarmless(ApplyAll(c, node, h, applied), node, h, a, f);
      CriticalsNeverIncrease(c, node, h, applied);
    }
  }

  // ---------------------------------------------------------------------------
  // The command
  // ---------------------------------------------------------------------------

  /** Ask for each planned repair, unless all are confirmed up front. */
  method ConfirmActions(actions: seq<RepairAction>, yes: bool, answers: RepairAction -> bool) returns (confirmed: seq<RepairAction>)
    requires NoDuplicates(actions)
    ensures NoDuplicates(confirmed)
    ensures forall a :: a in confirmed <==> a in actions && (yes || answers(a))
    ensures yes ==> confirmed == actions
  {
    if yes {
      return actions;
    }
    confirmed := [];
    for i := 0 to |actions|
      invariant NoDuplicates(confirmed)
      invariant forall a :: a in confirmed <==> a in actions[..i] && answers(a)
    {
      assert actions[..i + 1] == actions[..i] + [actions[i]];
      if answers(actions[i]) {
        confirmed := confirmed + [actions[i]];
      }
    }
    assert actions[..|actions|] == actions;
  }

  /** The snapshots two fetches may return, and how the operator and the hardware behave. */
  datatype Environment = Environment(
    first: Option<ChainInfo>,
    second: Option<ChainInfo>,
    answers: RepairAction -> bool,
    hidden: Hidden,
    broken: Faults)

  ghost predicate Agreed(agreed: seq<RepairAction>, planned: seq<RepairAction>, yes: bool, answers: RepairAction -> bool) {
    NoDuplicates(agreed) && forall a :: a in agreed <==> a in planned && (yes || answers(a))
  }

  method RunDiskCheck(reader: CardReader, explicitEndpoint: bool, dryRun: bool, yes: bool, env: Environment)
    returns (node: Option<ChainInfo>, issues: seq<Issue>, e: Option<ExecError>, failed: Option<RepairAction>)
    modifies reader
    ensures node == Resolve(env.first, env.second, CardTarget(old(reader.card)), explicitEndpoint, yes || dryRun)
    ensures RightNode(old(reader.card), env.first, env.second, explicitEndpoint, !yes && !dryRun, node)
    ensures NodeFits(old(reader.card), node)
    ensures issues == Diagnose(old(reader.card), node) && Without(issues, ChainInfoStale)
    ensures dryRun || Fine(old(reader.card), node) ==> reader.card == old(reader.card)
    // without a failure, exactly the planned repairs that were agreed to are applied
    ensures !dryRun && e.None? ==>
              exists agreed :: Agreed(agreed, Repairs(old(reader.card), node), yes, env.answers)
                               && AllNamed(agreed) && reader.card == ApplyAll(old(reader.card), node, env.hidden, agreed)
    ensures e.None? || e == Some(Io) || (e == Some(Unverified) && node.Some? && (node.value.id == "" || node.value.name == ""))
    ensures ChainKept(old(reader.card), reader.card, node)
    ensures failed.Some? <==> e == Some(Io)
    ensures failed.Some? ==> failed.value in env.broken
    // only a failed re-staging that lost the pending seeds makes the diagnosis worse
    ensures Gathered(old(reader.card)) ==>
              (Criticals(Diagnose(reader.card, node)) > Criticals(issues) <==>
                failed.Some? && LosesSeeds(old(reader.card), node, failed.value, env.broken[failed.value]))
    ensures yes && !dryRun && e.None? ==> reader.card == Round(old(reader.card), node, env.hidden)
  {
    var card := reader.card;
    node := Resolve(env.first, env.second, CardTarget(card), explicitEndpoint, yes || dryRun);
    ResolvedNodeFits(card, env.first, env.second, explicitEndpoint, yes || dryRun);
    ResolvedNodeExact(card, env.first, env.second, explicitEndpoint, yes || dryRun);
    NeverStale(card, node);
    PlanComplete(card, node);
    HealthyIff(card, node);
    PlanConflictFree(card, node);
    issues := Classify(card, node);
    e, failed := None, None;
    if IsHealthy(issues) {
      assert Agreed([], Repairs(card, node), yes, env.answers);
      return;
    }
    var actions := PlanRepairs(issues);
    if actions == [] || dryRun {
      assert actions == [] ==> Agreed([], actions, yes, env.answers);
      return;
    }
    var confirmed := ConfirmActions(actions, yes, env.answers);
    assert Agreed(confirmed, actions, yes, env.answers);
    if confirmed == [] {
      return;
    }
    ghost var applied;
    e, applied, failed := Execute(reader, node, confirmed, env);
    if failed.Some? {
      PlanMembership(card, node);
      FailingRun(card, node, env.hidden, applied, failed.value, env.broken[failed.value]);
    } else {
      RepairsKeepChain(card, node, env.hidden, applied);
      if Gathered(card) {
        CriticalsNeverIncrease(card, node, env.hidden, applied);
      }
    }
  }

  method Execute(reader: CardReader, node: Option<ChainInfo>, confirmed: seq<RepairAction>, env: Environment)
    returns (e: Option<ExecError>, applied: seq<RepairAction>, failed: Option<RepairAction>)
    requires NoDuplicates(confirmed) && forall a | a in confirmed :: a in Repairs(reader.card, node)
    modifies reader
    ensures failed.Some? <==> e == Some(Io)
    ensures failed.Some? ==> failed.value in env.broken && failed.value in Repairs(old(reader.card), node) && failed.value !in applied
    ensures failed.Some? && failed.value.StageBootConfig? ==> applied == []
    ensures reader.card == Outcome(old(reader.card), node, env.hidden, applied, failed, env.broken)
    ensures forall a | a in applied :: a in Repairs(old(reader.card), node)
    ensures e.None? ==> AllNamed(confirmed) && reader.card == ApplyAll(old(reader.card), node, env.hidden, confirmed)
    ensures e.None? || e == Some(Io) || (e == Some(Unverified) && node.Some? && (node.value.id == "" || node.value.name == ""))
  {
    PlanIsExecutable(reader.card, node, confirmed);
    e, applied, failed := reader.ExecuteRepairs(node, env.hidden, confirmed, env.broken);
  }
}
