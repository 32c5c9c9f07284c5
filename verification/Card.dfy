/** The gathered state of a signer SD card, the issues found on it and the repairs they carry (host-utility/src/disk.rs). */
module Card {
  import opened Prelude

  type Owner = Option<(U32, U32)>

  const DEVICE_UID: U32 := 1000
  const DEVICE_GID: U32 := 1000
  const DEVICE_OWNER: Owner := Some((DEVICE_UID, DEVICE_GID))
  /** `0o400`, owner read-only. */
  const CHAIN_INFO_MODE: U32 := 256
  const PANIC_LOG_MAX_BYTES: nat := 1024 * 1024
  const ROLES: seq<string> := ["consensus", "companion"]

  /** A node snapshot; also the content of a staged boot config. */
  datatype ChainInfo = ChainInfo(id: string, level: U32, name: string, blocksPerCycle: U32)

  datatype Partition = Boot | Keys | Data

  datatype KeysState = KeysAbsent | Unparseable | Parsed(aliases: seq<string>, pkhs: seq<string>)

  datatype ChainInfoState =
    | Missing
    | Unreadable(owner: Owner, mode: Option<U32>)
    | Present(id: string, mode: Option<U32>, owner: Owner)

  datatype FileStatus = FileMissing | WrongSize | Corrupt | Valid(level: U32)

  datatype WatermarkFile = WatermarkFile(name: string, status: FileStatus, owner: Owner)

  datatype KeyWatermarks = KeyWatermarks(pkh: string, dirPresent: bool, dirOwner: Owner, files: seq<WatermarkFile>)

  datatype BootConfig = BootConfig(chainId: string, level: U32)

  datatype Inspection = Inspected | NotCapable | Failed

  datatype CardState = CardState(
    inspection: Inspection,
    setupComplete: bool,
    migrationPending: bool,
    keys: KeysState,
    chainInfo: ChainInfoState,
    watermarks: seq<KeyWatermarks>,
    logsDirPresent: bool,
    panicLogSize: Option<nat>,
    bootConfig: Option<BootConfig>)

  /** What reading a card guarantees: an absent watermark directory has no file list. */
  ghost predicate Gathered(c: CardState) {
    forall k | k in c.watermarks && !k.dirPresent :: k.files == []
  }

  /** The keys and data partitions are diagnosed at all. */
  predicate Serviced(c: CardState) {
    c.inspection.Inspected? && c.setupComplete
  }

  datatype Severity = Critical | Warning | Info

  datatype Remedy = HostDirect | FatStage | NeedsNode | Manual

  datatype IssueKind =
    | SetupIncomplete
    | KeysMissing
    | KeysUnparseable
    | KeysRoleMissing
    | MigrationPending
    | F2fsNotInspected
    | FatStageAvailable
    | WatermarkSeedMissing
    | WatermarkDirMissing
    | WatermarkFileMissing
    | WatermarkCorrupt
    | WatermarkBelowHead
    | WatermarkNodeUnknown
    | ChainInfoMissing
    | ChainInfoUnreadable
    | ChainInfoStale
    | ChainInfoNodeUnknown
    | ChainInfoModeDrift
    | OwnershipDrift
    | LeftoverBootConfig
    | LogsDirMissing
    | PanicLogOversized

  datatype RepairAction =
    | ChownWatermarks(pkh: string)
    | WriteChainInfo
    | ChmodChainInfo
    | ChownChainInfo
    | TruncatePanicLog
    | DeleteBootConfig
    | StageBootConfig(chain: ChainInfo)

  datatype Issue = Issue(kind: IssueKind, severity: Severity, partition: Partition, remedy: Remedy, action: Option<RepairAction>)

  predicate Fixable(r: Remedy) {
    r.HostDirect? || r.FatStage?
  }

  predicate IsHealthy(issues: seq<Issue>) {
    forall i | i in issues :: i.severity.Info? && !Fixable(i.remedy)
  }

  predicate OwnerOk(o: Owner) {
    o.None? || o == DEVICE_OWNER
  }

  /** A floor is far behind once the gap exceeds what the device itself tolerates. */
  predicate SignificantlyBehind(floor: U32, node: ChainInfo) {
    SaturatingSub(node.level, floor) > SaturatingMul(LARGE_GAP_CYCLES, node.blocksPerCycle)
  }

  // ---------------------------------------------------------------------------
  // Boot config
  // ---------------------------------------------------------------------------

  predicate FileCovers(f: WatermarkFile, level: U32) {
    f.status.Valid? && f.status.level >= level
  }

  predicate FloorsCovered(c: CardState, level: U32) {
    && c.inspection.Inspected?
    && c.watermarks != []
    && forall k | k in c.watermarks :: k.files != [] && forall f | f in k.files :: FileCovers(f, level)
  }

  predicate ChainCurrent(chain: ChainInfoState, id: string) {
    chain.Present? && chain.id == id
  }

  /** A staged config that would do nothing if consumed. */
  predicate Superseded(c: CardState, nodeId: string, bc: BootConfig) {
    ChainCurrent(c.chainInfo, nodeId) && FloorsCovered(c, bc.level)
  }

  /** The staged config is for another chain, or does nothing. */
  predicate StaleConfig(c: CardState, node: Option<ChainInfo>) {
    c.bootConfig.Some? && node.Some? &&
    (node.value.id != c.bootConfig.value.chainId || Superseded(c, node.value.id, c.bootConfig.value))
  }

  function BootIssues(c: CardState, node: Option<ChainInfo>): seq<Issue> {
    if c.bootConfig.None? then []
    else if StaleConfig(c, node) then [Issue(LeftoverBootConfig, Warning, Boot, HostDirect, Some(DeleteBootConfig))]
    else [Issue(LeftoverBootConfig, Info, Boot, Manual, None)]
  }

  // ---------------------------------------------------------------------------
  // Keys, chain_info and logs
  // ---------------------------------------------------------------------------

  function RoleIssues(aliases: seq<string>, roles: seq<string>): seq<Issue> {
    if roles == [] then []
    else (if roles[0] in aliases then [] else [Issue(KeysRoleMissing, Warning, Keys, Manual, None)])
         + RoleIssues(aliases, roles[1..])
  }

  function KeysIssues(keys: KeysState): seq<Issue> {
    match keys
    case KeysAbsent => [Issue(KeysMissing, Critical, Keys, Manual, None)]
    case Unparseable => [Issue(KeysUnparseable, Critical, Keys, Manual, None)]
    case Parsed(aliases, _) => RoleIssues(aliases, ROLES)
  }

  function NodeBacked(node: Option<ChainInfo>): Remedy {
    if node.Some? then HostDirect else NeedsNode
  }

  function WriteAction(node: Option<ChainInfo>): Option<RepairAction> {
    if node.Some? then Some(WriteChainInfo) else None
  }

  const CHAIN_OWNER_ISSUE := Issue(OwnershipDrift, Critical, Keys, HostDirect, Some(ChownChainInfo))

  function ChainIssues(chain: ChainInfoState, node: Option<ChainInfo>): seq<Issue> {
    match chain
    case Missing => [Issue(ChainInfoMissing, Critical, Keys, NodeBacked(node), WriteAction(node))]
    case Unreadable(owner, _) =>
      if !OwnerOk(owner) then [CHAIN_OWNER_ISSUE]
      else [Issue(ChainInfoUnreadable, Critical, Keys, NodeBacked(node), WriteAction(node))]
    case Present(id, mode, owner) =>
      (if node.None? then [Issue(ChainInfoNodeUnknown, Info, Keys, NeedsNode, None)]
       else if node.value.id != id then [Issue(ChainInfoStale, Warning, Keys, HostDirect, Some(WriteChainInfo))]
       else [])
      + (if OwnerOk(owner) then [] else [CHAIN_OWNER_ISSUE])
      + (if mode.Some? && mode.value != CHAIN_INFO_MODE
         then [Issue(ChainInfoModeDrift, Warning, Keys, HostDirect, Some(ChmodChainInfo))] else [])
  }

  function LogIssues(c: CardState): seq<Issue> {
    (if c.logsDirPresent then [] else [Issue(LogsDirMissing, Info, Data, Manual, None)])
    + (if c.panicLogSize.Some? && c.panicLogSize.value > PANIC_LOG_MAX_BYTES
       then [Issue(PanicLogOversized, Warning, Data, HostDirect, Some(TruncatePanicLog))] else [])
  }

  // ---------------------------------------------------------------------------
  // Watermarks
  // ---------------------------------------------------------------------------

  /** A staged config the device will consume creates an absent watermark directory on its next boot. */
  predicate SeedsPending(boot: Option<BootConfig>, node: Option<ChainInfo>) {
    boot.Some? && (node.None? || node.value.id == boot.value.chainId)
  }

  function StageRemedy(node: Option<ChainInfo>): Remedy {
    if node.Some? then FatStage else NeedsNode
  }

  function StageAction(node: Option<ChainInfo>): Option<RepairAction> {
    if node.Some? then Some(StageBootConfig(node.value)) else None
  }

  function StageIssue(kind: IssueKind, severity: Severity, node: Option<ChainInfo>): Issue {
    Issue(kind, severity, Data, StageRemedy(node), StageAction(node))
  }

  function FileIssue(f: WatermarkFile, node: Option<ChainInfo>): seq<Issue> {
    match f.status
    case FileMissing => [StageIssue(WatermarkFileMissing, Critical, node)]
    case WrongSize => [StageIssue(WatermarkCorrupt, Critical, node)]
    case Corrupt => [StageIssue(WatermarkCorrupt, Critical, node)]
    case Valid(_) => []
  }

  function FileIssues(files: seq<WatermarkFile>, node: Option<ChainInfo>): seq<Issue> {
    if files == [] then []
    else FileIssues(files[..|files| - 1], node) + FileIssue(files[|files| - 1], node)
  }

  /** The lowest valid level of a key's files. */
  ghost predicate IsMinLevel(files: seq<WatermarkFile>, min: Option<U32>) {
    && (min.None? <==> !AnyValid(files))
    && (min.Some? ==> exists f | f in files :: f.status == Valid(min.value))
    && (forall f | f in files && f.status.Valid? :: min.Some? && min.value <= f.status.level)
  }

  predicate FloorBehind(files: seq<WatermarkFile>, node: Option<ChainInfo>) {
    node.Some? && exists f | f in files :: f.status.Valid? && SignificantlyBehind(f.status.level, node.value)
  }

  predicate AnyForeignOwner(files: seq<WatermarkFile>) {
    exists f | f in files :: !OwnerOk(f.owner)
  }

  predicate AnyValid(files: seq<WatermarkFile>) {
    exists f | f in files :: f.status.Valid?
  }

  predicate OwnershipBad(k: KeyWatermarks) {
    !OwnerOk(k.dirOwner) || AnyForeignOwner(k.files)
  }

  function WatermarkOwnerIssue(pkh: string): Issue {
    Issue(OwnershipDrift, Critical, Data, HostDirect, Some(ChownWatermarks(pkh)))
  }

  function KeyIssues(k: KeyWatermarks, node: Option<ChainInfo>, seedsPending: bool): seq<Issue> {
    if !k.dirPresent then
      if seedsPending then [] else [StageIssue(WatermarkDirMissing, Critical, node)]
    else
      FileIssues(k.files, node)
      + (if FloorBehind(k.files, node) then [StageIssue(WatermarkBelowHead, Warning, node)] else [])
      + (if OwnershipBad(k) then [WatermarkOwnerIssue(k.pkh)] else [])
  }

  predicate HasValid(k: KeyWatermarks) {
    k.dirPresent && AnyValid(k.files)
  }

  function AllKeyIssues(keys: seq<KeyWatermarks>, node: Option<ChainInfo>, seedsPending: bool): seq<Issue> {
    if keys == [] then []
    else AllKeyIssues(keys[..|keys| - 1], node, seedsPending) + KeyIssues(keys[|keys| - 1], node, seedsPending)
  }

  const NODE_UNKNOWN_ISSUE := Issue(WatermarkNodeUnknown, Info, Data, NeedsNode, None)

  function WatermarkIssues(c: CardState, node: Option<ChainInfo>): seq<Issue> {
    AllKeyIssues(c.watermarks, node, SeedsPending(c.bootConfig, node))
    + (if node.None? && exists k | k in c.watermarks :: HasValid(k) then [NODE_UNKNOWN_ISSUE] else [])
  }

  // ---------------------------------------------------------------------------
  // The whole diagnosis
  // ---------------------------------------------------------------------------

  function UninspectedIssues(c: CardState, node: Option<ChainInfo>): seq<Issue> {
    [Issue(F2fsNotInspected, Warning, Keys, Manual, None)]
    + (if c.inspection.NotCapable? && node.Some?
       then [Issue(FatStageAvailable, Info, Boot, FatStage, Some(StageBootConfig(node.value)))] else [])
  }

  function UnsetIssues(c: CardState, node: Option<ChainInfo>): seq<Issue> {
    [Issue(SetupIncomplete, Info, Keys, Manual, None)]
    + (if c.bootConfig.None?
       then [Issue(WatermarkSeedMissing, Warning, Boot, StageRemedy(node), StageAction(node))] else [])
  }

  function Diagnose(c: CardState, node: Option<ChainInfo>): seq<Issue> {
    var boot := BootIssues(c, node);
    if !c.inspection.Inspected? then boot + UninspectedIssues(c, node)
    else
      var early := if c.migrationPending then boot + [Issue(MigrationPending, Info, Keys, Manual, None)] else boot;
      if !c.setupComplete then early + UnsetIssues(c, node)
      else early + KeysIssues(c.keys) + ChainIssues(c.chainInfo, node) + WatermarkIssues(c, node) + LogIssues(c)
  }
}

/** The classifier as the source runs it: issue lists grown in loops with running flags. */
module Classifier {
  import opened Prelude
  import opened Card

  /** The loop's running variables over a key's files. */
  datatype Tally = Tally(found: seq<Issue>, foreign: bool, valid: bool, min: Option<U32>)

  function Count(t: Tally, f: WatermarkFile, node: Option<ChainInfo>): Tally {
    Tally(
      t.found + FileIssue(f, node),
      t.foreign || !OwnerOk(f.owner),
      t.valid || f.status.Valid?,
      if f.status.Valid? && (t.min.None? || f.status.level < t.min.value) then Some(f.status.level) else t.min)
  }

  function TallyOf(files: seq<WatermarkFile>, node: Option<ChainInfo>): Tally {
    if files == [] then Tally([], false, false, None)
    else Count(TallyOf(files[..|files| - 1], node), files[|files| - 1], node)
  }

  lemma MinStep(files: seq<WatermarkFile>, f: WatermarkFile, min: Option<U32>)
    requires IsMinLevel(files, min)
    ensures IsMinLevel(files + [f],
      if f.status.Valid? && (min.None? || f.status.level < min.value) then Some(f.status.level) else min)
  {
  }

  /** The running variables mean what their names say. */
  lemma {:induction false} TallyMeaning(files: seq<WatermarkFile>, node: Option<ChainInfo>)
    ensures var t := TallyOf(files, node);
            && t.found == FileIssues(files, node)
            && t.foreign == AnyForeignOwner(files)
            && t.valid == AnyValid(files)
            && IsMinLevel(files, t.min)
  {
    if files != [] {
      var init, last := files[..|files| - 1], files[|files| - 1];
      TallyMeaning(init, node);
      MinStep(init, last, TallyOf(init, node).min);
      assert files == init + [last];
    }
  }

  /** The running minimum decides exactly whether some valid file is far behind the head. */
  lemma MinDecidesBehind(files: seq<WatermarkFile>, min: Option<U32>, node: Option<ChainInfo>)
    requires IsMinLevel(files, min)
    ensures FloorBehind(files, node) <==> node.Some? && min.Some? && SignificantlyBehind(min.value, node.value)
  {
  }

  method ClassifyFiles(k: KeyWatermarks, node: Option<ChainInfo>)
    returns (found: seq<Issue>, ownershipBad: bool, valid: bool, minLevel: Option<U32>)
    ensures found == FileIssues(k.files, node)
    ensures ownershipBad == OwnershipBad(k) && valid == AnyValid(k.files) && IsMinLevel(k.files, minLevel)
  {
    found, valid, minLevel := [], false, None;
    var foreign := false;
    for i := 0 to |k.files|
      invariant Tally(found, foreign, valid, minLevel) == TallyOf(k.files[..i], node)
    {
      var file := k.files[i];
      assert k.files[..i + 1][..i] == k.files[..i];
      if !OwnerOk(file.owner) {
        foreign := true;
      }
      found := found + FileIssue(file, node);
      if file.status.Valid? {
        valid := true;
        minLevel := if minLevel.None? || file.status.level < minLevel.value then Some(file.status.level) else minLevel;
      }
    }
    assert k.files[..|k.files|] == k.files;
    TallyMeaning(k.files, node);
    ownershipBad := !OwnerOk(k.dirOwner) || foreign;
  }

  method ClassifyKeyWatermarks(k: KeyWatermarks, node: Option<ChainInfo>, seedsPending: bool)
    returns (found: seq<Issue>, valid: bool)
    ensures found == KeyIssues(k, node, seedsPending)
    ensures valid == HasValid(k)
  {
    if !k.dirPresent {
      found, valid := if seedsPending then [] else [StageIssue(WatermarkDirMissing, Critical, node)], false;
      return;
    }
    var ownershipBad, minLevel;
    found, ownershipBad, valid, minLevel := ClassifyFiles(k, node);
    MinDecidesBehind(k.files, minLevel, node);
    if node.Some? && minLevel.Some? && SignificantlyBehind(minLevel.value, node.value) {
      found := found + [StageIssue(WatermarkBelowHead, Warning, node)];
    }
    if ownershipBad {
      found := found + [WatermarkOwnerIssue(k.pkh)];
    }
  }

  lemma KeyStep(keys: seq<KeyWatermarks>, i: nat, node: Option<ChainInfo>, seedsPending: bool)
    requires i < |keys|
    ensures AllKeyIssues(keys[..i + 1], node, seedsPending)
         == AllKeyIssues(keys[..i], node, seedsPending) + KeyIssues(keys[i], node, seedsPending)
    ensures (exists k | k in keys[..i + 1] :: HasValid(k)) <==> (exists k | k in keys[..i] :: HasValid(k)) || HasValid(keys[i])
  {
    assert keys[..i + 1] == keys[..i] + [keys[i]];
    assert keys[..i + 1][..i] == keys[..i];
  }

  method ClassifyWatermarks(c: CardState, node: Option<ChainInfo>) returns (found: seq<Issue>)
    ensures found == WatermarkIssues(c, node)
  {
    var seedsPending := SeedsPending(c.bootConfig, node);
    var anyValid := false;
    found := [];
    for i := 0 to |c.watermarks|
      invariant found == AllKeyIssues(c.watermarks[..i], node, seedsPending)
      invariant anyValid <==> exists k | k in c.watermarks[..i] :: HasValid(k)
    {
      var more, valid := ClassifyKeyWatermarks(c.watermarks[i], node, seedsPending);
      KeyStep(c.watermarks, i, node, seedsPending);
      found, anyValid := found + more, anyValid || valid;
    }
    assert c.watermarks[..|c.watermarks|] == c.watermarks;
    if anyValid && node.None? {
      found := found + [NODE_UNKNOWN_ISSUE];
    }
  }

  /** The full issue list, in report order. */
  method Classify(c: CardState, node: Option<ChainInfo>) returns (issues: seq<Issue>)
    ensures issues == Diagnose(c, node)
  {
    issues := BootIssues(c, node);
    if !c.inspection.Inspected? {
      issues := issues + UninspectedIssues(c, node);
      return;
    }
    if c.migrationPending {
      issues := issues + [Issue(MigrationPending, Info, Keys, Manual, None)];
    }
    if !c.setupComplete {
      issues := issues + UnsetIssues(c, node);
      return;
    }
    issues := issues + KeysIssues(c.keys);
    issues := issues + ChainIssues(c.chainInfo, node);
    var found := ClassifyWatermarks(c, node);
    issues := issues + found;
    issues := issues + LogIssues(c);
  }
}
