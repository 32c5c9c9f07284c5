/** Which repairs a diagnosis plans, read directly off the card; the plan's shape; and its execution. */
module RepairPlan {
  import opened Prelude
  import opened Card
  import opened Repair
  import opened Findings

  // ---------------------------------------------------------------------------
  // The planned actions in terms of the card
  // ---------------------------------------------------------------------------

  predicate NeedsWrite(c: CardState, node: Option<ChainInfo>) {
    Serviced(c) && node.Some? &&
    match c.chainInfo
    case Missing => true
    case Unreadable(owner, _) => OwnerOk(owner)
    case Present(id, _, _) => id != node.value.id
  }

  predicate NeedsChown(c: CardState) {
    Serviced(c) &&
    match c.chainInfo
    case Missing => false
    case Unreadable(owner, _) => !OwnerOk(owner)
    case Present(_, _, owner) => !OwnerOk(owner)
  }

  predicate NeedsChmod(c: CardState) {
    Serviced(c) && c.chainInfo.Present? && c.chainInfo.mode.Some? && c.chainInfo.mode.value != CHAIN_INFO_MODE
  }

  predicate NeedsTruncate(c: CardState) {
    Serviced(c) && c.panicLogSize.Some? && c.panicLogSize.value > PANIC_LOG_MAX_BYTES
  }

  predicate KeyNeedsChown(k: KeyWatermarks) {
    k.dirPresent && OwnershipBad(k)
  }

  predicate NeedsKeyChown(c: CardState, pkh: string) {
    Serviced(c) && exists k | k in c.watermarks :: k.pkh == pkh && KeyNeedsChown(k)
  }

  /** A watermark-content fault of one key, which only a staged config can repair. */
  predicate KeyFault(k: KeyWatermarks, node: Option<ChainInfo>, seedsPending: bool) {
    if !k.dirPresent then !seedsPending
    else (exists f | f in k.files :: !f.status.Valid?) || FloorBehind(k.files, node)
  }

  predicate WatermarkFault(c: CardState, node: Option<ChainInfo>) {
    exists k | k in c.watermarks :: KeyFault(k, node, SeedsPending(c.bootConfig, node))
  }

  predicate NeedsStage(c: CardState, node: Option<ChainInfo>) {
    node.Some? &&
    match c.inspection
    case Failed => false
    case NotCapable => true
    case Inspected => if c.setupComplete then WatermarkFault(c, node) else c.bootConfig.None?
  }

  /** The condition under which the diagnosis carries each action. */
  predicate Needs(c: CardState, node: Option<ChainInfo>, a: RepairAction) {
    match a
    case WriteChainInfo => NeedsWrite(c, node)
    case ChownChainInfo => NeedsChown(c)
    case ChmodChainInfo => NeedsChmod(c)
    case TruncatePanicLog => NeedsTruncate(c)
    case ChownWatermarks(pkh) => NeedsKeyChown(c, pkh)
    case DeleteBootConfig => StaleConfig(c, node)
    case StageBootConfig(n) => node == Some(n) && NeedsStage(c, node)
  }

  ghost predicate Carries(issues: seq<Issue>, a: RepairAction) {
    exists i :: i in issues && i.action == Some(a)
  }

  // ---------------------------------------------------------------------------
  // Which actions it carries
  // ---------------------------------------------------------------------------

  /** An issue of the diagnosis carries an action exactly when its remedy is one the tool can apply. */
  ghost predicate ActionsMatchRemedies(issues: seq<Issue>) {
    forall i | i in issues :: i.action.Some? <==> Fixable(i.remedy)
  }

  lemma DiagnoseRemedies(c: CardState, node: Option<ChainInfo>)
    ensures ActionsMatchRemedies(Diagnose(c, node))
  {
    forall i | i in Diagnose(c, node)
      ensures i.action.Some? <==> Fixable(i.remedy)
    {
      DiagnosisExact(c, node, i);
      ExpectedRemedy(c, node, i);
    }
  }

  lemma ExpectedRemedy(c: CardState, node: Option<ChainInfo>, i: Issue)
    requires Expected(c, node, i)
    ensures i.action.Some? <==> Fixable(i.remedy)
  {
  }

  /** An issue calls for its action with good reason. */
  lemma CarriedIsNeeded(c: CardState, node: Option<ChainInfo>, i: Issue)
    requires Expected(c, node, i) && i.action.Some?
    ensures Needs(c, node, i.action.value)
  {
    if node.Some? {
      forall l: U32 {
        BehindIsFar(l, node.value);
      }
    }
  }

  /** The issue that asks for an action. */
  lemma AskingIssue(c: CardState, node: Option<ChainInfo>, a: RepairAction) returns (i: Issue)
    requires Needs(c, node, a)
    ensures Expected(c, node, i) && i.action == Some(a)
  {
    match a {
      case WriteChainInfo =>
        i := if c.chainInfo.Missing? then ToRewrite(ChainInfoMissing, node)
             else if c.chainInfo.Unreadable? then ToRewrite(ChainInfoUnreadable, node)
             else InPlace(ChainInfoStale, Warning, Keys, a);
      case ChownChainInfo => i := InPlace(OwnershipDrift, Critical, Keys, a);
      case ChmodChainInfo => i := InPlace(ChainInfoModeDrift, Warning, Keys, a);
      case TruncatePanicLog => i := InPlace(PanicLogOversized, Warning, Data, a);
      case ChownWatermarks(_) => i := InPlace(OwnershipDrift, Critical, Data, a);
      case DeleteBootConfig => i := InPlace(LeftoverBootConfig, Warning, Boot, a);
      case StageBootConfig(_) => i := StagingIssue(c, node);
    }
  }

  lemma StagingIssue(c: CardState, node: Option<ChainInfo>) returns (i: Issue)
    requires NeedsStage(c, node)
    ensures Expected(c, node, i) && i.action == Some(StageBootConfig(node.value))
  {
    if c.inspection.NotCapable? {
      i := ToStage(FatStageAvailable, Info, Boot, node);
    } else if !c.setupComplete {
      i := ToStage(WatermarkSeedMissing, Warning, Boot, node);
    } else {
      var k :| k in c.watermarks && KeyFault(k, node, SeedsPending(c.bootConfig, node));
      if !k.dirPresent {
        i := ToStage(WatermarkDirMissing, Critical, Data, node);
      } else if f :| f in k.files && !f.status.Valid? {
        i := ToStage(if f.status.FileMissing? then WatermarkFileMissing else WatermarkCorrupt, Critical, Data, node);
      } else {
        var f :| f in k.files && f.status.Valid? && SignificantlyBehind(f.status.level, node.value);
        BehindIsFar(f.status.level, node.value);
        i := ToStage(WatermarkBelowHead, Warning, Data, node);
      }
    }
  }

  /** The diagnosis carries an action exactly when the card's own fields call for it. */
  lemma DiagnoseCarries(c: CardState, node: Option<ChainInfo>, a: RepairAction)
    ensures Carries(Diagnose(c, node), a) <==> Needs(c, node, a)
  {
    if i :| i in Diagnose(c, node) && i.action == Some(a) {
      DiagnosisExact(c, node, i);
      CarriedIsNeeded(c, node, i);
    }
    if Needs(c, node, a) {
      var i := AskingIssue(c, node, a);
      DiagnosisExact(c, node, i);
    }
  }

  /** The repairs of one diagnosis. */
  function Repairs(c: CardState, node: Option<ChainInfo>): seq<RepairAction> {
    Plan(Diagnose(c, node))
  }

  predicate Planned(c: CardState, node: Option<ChainInfo>, a: RepairAction) {
    Needs(c, node, a) &&
    match a
    case ChmodChainInfo => !NeedsWrite(c, node)
    case ChownChainInfo => !NeedsWrite(c, node)
    case DeleteBootConfig => !NeedsStage(c, node)
    case _ => true
  }

  lemma ActionsNeeded(c: CardState, node: Option<ChainInfo>, a: RepairAction)
    ensures a in Actions(Diagnose(c, node)) <==> Needs(c, node, a)
  {
    ActionsMembership(Diagnose(c, node));
    DiagnoseCarries(c, node, a);
  }

  lemma StagesNeeded(c: CardState, node: Option<ChainInfo>)
    ensures Stages(Actions(Diagnose(c, node))) <==> NeedsStage(c, node)
  {
    var actions := Actions(Diagnose(c, node));
    if Stages(actions) {
      var a :| a in actions && a.StageBootConfig?;
      ActionsNeeded(c, node, a);
    }
    if NeedsStage(c, node) {
      ActionsNeeded(c, node, StageBootConfig(node.value));
    }
  }

  lemma OnePlanned(c: CardState, node: Option<ChainInfo>, a: RepairAction)
    ensures a in Repairs(c, node) <==> Planned(c, node, a)
  {
    PlanFacts(Diagnose(c, node));
    ActionsNeeded(c, node, a);
    ActionsNeeded(c, node, WriteChainInfo);
    StagesNeeded(c, node);
  }

  /** Membership in the plan, read off the card. */
  lemma PlanMembership(c: CardState, node: Option<ChainInfo>)
    ensures NoDuplicates(Repairs(c, node))
    ensures forall a :: a in Repairs(c, node) <==> Planned(c, node, a)
  {
    PlanFacts(Diagnose(c, node));
    forall a
      ensures a in Repairs(c, node) <==> Planned(c, node, a)
    {
      OnePlanned(c, node, a);
    }
  }

  // ---------------------------------------------------------------------------
  // The plan's shape
  // ---------------------------------------------------------------------------

  /** The plan has no repetition and no two actions that fight over the same file. */
  lemma PlanConflictFree(c: CardState, node: Option<ChainInfo>)
    ensures var plan := Repairs(c, node);
            && NoDuplicates(plan)
            && Compatible(plan, node)
            && (forall x, y | x in plan && y in plan && x.StageBootConfig? && y.StageBootConfig? :: x == y)
            && !(WriteChainInfo in plan && (ChmodChainInfo in plan || ChownChainInfo in plan))
  {
    PlanMembership(c, node);
    var plan := Repairs(c, node);
    if Stages(plan) {
      var a :| a in plan && a.StageBootConfig?;
      assert Planned(c, node, a);
    }
  }

  lemma SubsetCompatible(c: CardState, node: Option<ChainInfo>, actions: seq<RepairAction>)
    requires forall a | a in actions :: a in Repairs(c, node)
    ensures Compatible(actions, node)
  {
    PlanConflictFree(c, node);
  }

  lemma PlannedIsFixable(c: CardState, node: Option<ChainInfo>, a: RepairAction)
    requires a in Repairs(c, node)
    ensures exists i | i in Diagnose(c, node) :: Fixable(i.remedy)
  {
    PlanFacts(Diagnose(c, node));
    ActionsMembership(Diagnose(c, node));
    DiagnoseRemedies(c, node);
  }

  lemma NeededIsPlanned(c: CardState, node: Option<ChainInfo>, a: RepairAction)
    requires Needs(c, node, a)
    ensures exists b :: b in Repairs(c, node)
  {
    var b := if (a.ChmodChainInfo? || a.ChownChainInfo?) && NeedsWrite(c, node) then WriteChainInfo
             else if a.DeleteBootConfig? && NeedsStage(c, node) then StageBootConfig(node.value)
             else a;
    assert Planned(c, node, b);
    OnePlanned(c, node, b);
  }

  lemma FixableIsPlanned(c: CardState, node: Option<ChainInfo>, i: Issue)
    requires i in Diagnose(c, node) && Fixable(i.remedy)
    ensures exists b :: b in Repairs(c, node)
  {
    DiagnoseRemedies(c, node);
    var a := i.action.value;
    assert Carries(Diagnose(c, node), a);
    DiagnoseCarries(c, node, a);
    NeededIsPlanned(c, node, a);
  }

  /** The plan is empty exactly when no issue is fixable; a healthy card has no repairs. */
  lemma PlanComplete(c: CardState, node: Option<ChainInfo>)
    ensures Repairs(c, node) == [] <==> forall i | i in Diagnose(c, node) :: !Fixable(i.remedy)
    ensures IsHealthy(Diagnose(c, node)) ==> Repairs(c, node) == []
  {
    if Repairs(c, node) != [] {
      PlannedIsFixable(c, node, Repairs(c, node)[0]);
    }
    if i :| i in Diagnose(c, node) && Fixable(i.remedy) {
      FixableIsPlanned(c, node, i);
    }
  }
}
