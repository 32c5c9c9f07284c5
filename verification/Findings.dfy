/**
 * Which issues the disk check reports, kind by kind and from the card's fields alone
 * (host-utility/src/disk.rs), against the classifier's own case analysis.
 */
module Findings {
  import opened Prelude
  import opened Card

  predicate Foreign(o: Owner) {
    o.Some? && o.value != (1000, 1000)
  }

  /** Far behind: more than four cycles below the node's head. */
  predicate FarBehind(level: U32, n: ChainInfo) {
    n.level - level > 4 * n.blocksPerCycle
  }

  /** A fault only a staged config can repair, staged when a node is at hand. */
  function ToStage(kind: IssueKind, severity: Severity, partition: Partition, node: Option<ChainInfo>): Issue {
    match node
    case Some(n) => Issue(kind, severity, partition, FatStage, Some(StageBootConfig(n)))
    case None => Issue(kind, severity, partition, NeedsNode, None)
  }

  /** A chain_info fault, rewritten when a node is at hand. */
  function ToRewrite(kind: IssueKind, node: Option<ChainInfo>): Issue {
    match node
    case Some(_) => Issue(kind, Critical, Keys, HostDirect, Some(WriteChainInfo))
    case None => Issue(kind, Critical, Keys, NeedsNode, None)
  }

  function Note(kind: IssueKind, severity: Severity, partition: Partition): Issue {
    Issue(kind, severity, partition, Manual, None)
  }

  function InPlace(kind: IssueKind, severity: Severity, partition: Partition, a: RepairAction): Issue {
    Issue(kind, severity, partition, HostDirect, Some(a))
  }

  /** The config is for another chain than the node's, or the card already has all it would bring. */
  ghost predicate Outdated(c: CardState, bc: BootConfig, n: ChainInfo) {
    || bc.chainId != n.id
    || (&& c.chainInfo.Present? && c.chainInfo.id == n.id && c.inspection.Inspected? && c.watermarks != []
        && forall k | k in c.watermarks :: k.files != [] && forall f | f in k.files :: f.status.Valid? && bc.level <= f.status.level)
  }

  /** The staged config will create the missing directories, as far as the node can tell. */
  predicate WillSeed(c: CardState, node: Option<ChainInfo>) {
    c.bootConfig.Some? && (node.Some? ==> node.value.id == c.bootConfig.value.chainId)
  }

  ghost predicate SomeFile(c: CardState, p: FileStatus -> bool) {
    exists k, f | k in c.watermarks && k.dirPresent && f in k.files :: p(f.status)
  }

  ghost predicate SomeFloorBehind(c: CardState, n: ChainInfo) {
    exists k, f | k in c.watermarks && k.dirPresent && f in k.files :: f.status.Valid? && FarBehind(f.status.level, n)
  }

  ghost predicate KeyForeign(k: KeyWatermarks) {
    k.dirPresent && (Foreign(k.dirOwner) || exists f | f in k.files :: Foreign(f.owner))
  }

  /** The issues of a card, by kind. */
  ghost predicate Expected(c: CardState, node: Option<ChainInfo>, i: Issue) {
    var set' := c.inspection.Inspected? && c.setupComplete;
    match i.kind
    case F2fsNotInspected => !c.inspection.Inspected? && i == Note(i.kind, Warning, Keys)
    case FatStageAvailable => c.inspection.NotCapable? && node.Some? && i == ToStage(i.kind, Info, Boot, node)
    case MigrationPending => c.inspection.Inspected? && c.migrationPending && i == Note(i.kind, Info, Keys)
    case SetupIncomplete => c.inspection.Inspected? && !c.setupComplete && i == Note(i.kind, Info, Keys)
    case WatermarkSeedMissing =>
      c.inspection.Inspected? && !c.setupComplete && c.bootConfig.None? && i == ToStage(i.kind, Warning, Boot, node)
    case LeftoverBootConfig =>
      c.bootConfig.Some? && i == if node.Some? && Outdated(c, c.bootConfig.value, node.value)
                                 then InPlace(i.kind, Warning, Boot, DeleteBootConfig) else Note(i.kind, Info, Boot)
    case KeysMissing => set' && c.keys.KeysAbsent? && i == Note(i.kind, Critical, Keys)
    case KeysUnparseable => set' && c.keys.Unparseable? && i == Note(i.kind, Critical, Keys)
    case KeysRoleMissing =>
      set' && c.keys.Parsed? && ("consensus" !in c.keys.aliases || "companion" !in c.keys.aliases) && i == Note(i.kind, Warning, Keys)
    case ChainInfoMissing => set' && c.chainInfo.Missing? && i == ToRewrite(i.kind, node)
    case ChainInfoUnreadable => set' && c.chainInfo.Unreadable? && !Foreign(c.chainInfo.owner) && i == ToRewrite(i.kind, node)
    case ChainInfoStale =>
      set' && c.chainInfo.Present? && node.Some? && node.value.id != c.chainInfo.id && i == InPlace(i.kind, Warning, Keys, WriteChainInfo)
    case ChainInfoNodeUnknown => set' && c.chainInfo.Present? && node.None? && i == Issue(i.kind, Info, Keys, NeedsNode, None)
    case ChainInfoModeDrift =>
      set' && c.chainInfo.Present? && c.chainInfo.mode.Some? && c.chainInfo.mode.value != 256 && i == InPlace(i.kind, Warning, Keys, ChmodChainInfo)
    case OwnershipDrift =>
      set' && (|| (!c.chainInfo.Missing? && Foreign(c.chainInfo.owner) && i == InPlace(i.kind, Critical, Keys, ChownChainInfo))
               || (exists k | k in c.watermarks :: KeyForeign(k) && i == InPlace(i.kind, Critical, Data, ChownWatermarks(k.pkh))))
    case WatermarkDirMissing =>
      set' && !WillSeed(c, node) && (exists k | k in c.watermarks :: !k.dirPresent) && i == ToStage(i.kind, Critical, Data, node)
    case WatermarkFileMissing => set' && SomeFile(c, (s: FileStatus) => s.FileMissing?) && i == ToStage(i.kind, Critical, Data, node)
    case WatermarkCorrupt => set' && SomeFile(c, (s: FileStatus) => s.WrongSize? || s.Corrupt?) && i == ToStage(i.kind, Critical, Data, node)
    case WatermarkBelowHead => set' && node.Some? && SomeFloorBehind(c, node.value) && i == ToStage(i.kind, Warning, Data, node)
    case WatermarkNodeUnknown =>
      set' && node.None? && SomeFile(c, (s: FileStatus) => s.Valid?) && i == Issue(i.kind, Info, Data, NeedsNode, None)
    case LogsDirMissing => set' && !c.logsDirPresent && i == Note(i.kind, Info, Data)
    case PanicLogOversized =>
      set' && c.panicLogSize.Some? && c.panicLogSize.value > 1048576 && i == InPlace(i.kind, Warning, Data, TruncatePanicLog)
  }

  // ---------------------------------------------------------------------------
  // The diagnosis reports exactly these
  // ---------------------------------------------------------------------------

  lemma BehindIsFar(level: U32, n: ChainInfo)
    ensures SignificantlyBehind(level, n) <==> FarBehind(level, n)
  {
  }

  ghost predicate AboutKeys(kind: IssueKind) {
    kind.KeysMissing? || kind.KeysUnparseable? || kind.KeysRoleMissing?
  }

  ghost predicate AboutWatermarks(kind: IssueKind) {
    kind.WatermarkDirMissing? || kind.WatermarkFileMissing? || kind.WatermarkCorrupt? || kind.WatermarkBelowHead? || kind.WatermarkNodeUnknown?
  }

  lemma BootExact(c: CardState, node: Option<ChainInfo>, i: Issue)
    ensures i in BootIssues(c, node) <==> i.kind.LeftoverBootConfig? && Expected(c, node, i)
  {
  }

  lemma UnservicedExact(c: CardState, node: Option<ChainInfo>, i: Issue)
    ensures !c.inspection.Inspected? ==>
              (i in UninspectedIssues(c, node) <==> (i.kind.F2fsNotInspected? || i.kind.FatStageAvailable?) && Expected(c, node, i))
    ensures c.inspection.Inspected? && !c.setupComplete ==>
              (i in UnsetIssues(c, node) <==> (i.kind.SetupIncomplete? || i.kind.WatermarkSeedMissing?) && Expected(c, node, i))
  {
  }

  lemma KeysExact(c: CardState, node: Option<ChainInfo>, i: Issue)
    requires Serviced(c)
    ensures i in KeysIssues(c.keys) <==> AboutKeys(i.kind) && Expected(c, node, i)
  {
    if c.keys.Parsed? {
      var aliases := c.keys.aliases;
      assert ROLES == ["consensus", "companion"] && ROLES[1..] == ["companion"] && ["companion"][1..] == [];
      assert RoleIssues(aliases, ROLES) == (if "consensus" in aliases then [] else [Note(KeysRoleMissing, Warning, Keys)]) + RoleIssues(aliases, ["companion"]);
      assert RoleIssues(aliases, ["companion"]) == (if "companion" in aliases then [] else [Note(KeysRoleMissing, Warning, Keys)]) + RoleIssues(aliases, []);
    }
  }

  /** One role issue per missing role. */
  lemma RoleCount(keys: KeysState)
    requires keys.Parsed?
    ensures |KeysIssues(keys)| == (if "consensus" in keys.aliases then 0 else 1) + (if "companion" in keys.aliases then 0 else 1)
  {
    assert ROLES[1..] == ["companion"] && ["companion"][1..] == [];
    assert RoleIssues(keys.aliases, ["companion"]) == (if "companion" in keys.aliases then [] else [Note(KeysRoleMissing, Warning, Keys)]) + RoleIssues(keys.aliases, []);
  }

  ghost predicate AboutChain(kind: IssueKind) {
    kind.ChainInfoMissing? || kind.ChainInfoUnreadable? || kind.ChainInfoStale? || kind.ChainInfoNodeUnknown? || kind.ChainInfoModeDrift?
  }

  ghost predicate ChainForeign(c: CardState, i: Issue) {
    !c.chainInfo.Missing? && Foreign(c.chainInfo.owner) && i == InPlace(OwnershipDrift, Critical, Keys, ChownChainInfo)
  }

  lemma ChainExact(c: CardState, node: Option<ChainInfo>, i: Issue)
    requires Serviced(c)
    ensures i in ChainIssues(c.chainInfo, node) <==> (AboutChain(i.kind) && Expected(c, node, i)) || ChainForeign(c, i)
  {
  }

  lemma LogsExact(c: CardState, node: Option<ChainInfo>, i: Issue)
    requires Serviced(c)
    ensures i in LogIssues(c) <==> (i.kind.LogsDirMissing? || i.kind.PanicLogOversized?) && Expected(c, node, i)
  {
  }

  lemma {:induction false} InFileIssues(files: seq<WatermarkFile>, node: Option<ChainInfo>, i: Issue)
    ensures i in FileIssues(files, node) <==> exists f | f in files :: i in FileIssue(f, node)
  {
    if files != [] {
      InFileIssues(files[..|files| - 1], node, i);
      assert files == files[..|files| - 1] + [files[|files| - 1]];
    }
  }

  lemma {:induction false} InAllKeyIssues(keys: seq<KeyWatermarks>, node: Option<ChainInfo>, seedsPending: bool, i: Issue)
    ensures i in AllKeyIssues(keys, node, seedsPending) <==> exists k | k in keys :: i in KeyIssues(k, node, seedsPending)
  {
    if keys != [] {
      InAllKeyIssues(keys[..|keys| - 1], node, seedsPending, i);
      assert keys == keys[..|keys| - 1] + [keys[|keys| - 1]];
    }
  }

  /** An issue of one key: a missing directory, a faulty file, a floor far behind, or a foreign owner. */
  ghost predicate KeyReports(k: KeyWatermarks, node: Option<ChainInfo>, seedsPending: bool, i: Issue) {
    if !k.dirPresent then !seedsPending && i == StageIssue(WatermarkDirMissing, Critical, node)
    else
      || (exists f | f in k.files :: i in FileIssue(f, node))
      || (FloorBehind(k.files, node) && i == StageIssue(WatermarkBelowHead, Warning, node))
      || (OwnershipBad(k) && i == WatermarkOwnerIssue(k.pkh))
  }

  lemma KeyReported(k: KeyWatermarks, node: Option<ChainInfo>, seedsPending: bool, i: Issue)
    ensures i in KeyIssues(k, node, seedsPending) <==> KeyReports(k, node, seedsPending, i)
  {
    InFileIssues(k.files, node, i);
  }

  /** What one key contributes. */
  ghost predicate KeyExpected(c: CardState, k: KeyWatermarks, node: Option<ChainInfo>, i: Issue) {
    || (!k.dirPresent && !WillSeed(c, node) && i == ToStage(WatermarkDirMissing, Critical, Data, node))
    || (k.dirPresent && i == ToStage(WatermarkFileMissing, Critical, Data, node) && exists f | f in k.files :: f.status.FileMissing?)
    || (k.dirPresent && i == ToStage(WatermarkCorrupt, Critical, Data, node) && exists f | f in k.files :: f.status.WrongSize? || f.status.Corrupt?)
    || (k.dirPresent && node.Some? && i == ToStage(WatermarkBelowHead, Warning, Data, node)
        && exists f | f in k.files :: f.status.Valid? && FarBehind(f.status.level, node.value))
    || (KeyForeign(k) && i == InPlace(OwnershipDrift, Critical, Data, ChownWatermarks(k.pkh)))
  }

  lemma KeyExact(c: CardState, k: KeyWatermarks, node: Option<ChainInfo>, i: Issue)
    ensures i in KeyIssues(k, node, SeedsPending(c.bootConfig, node)) <==> KeyExpected(c, k, node, i)
  {
    KeyReported(k, node, SeedsPending(c.bootConfig, node), i);
    if node.Some? {
      forall f | f in k.files && f.status.Valid? {
        BehindIsFar(f.status.level, node.value);
      }
    }
  }

  ghost predicate SomeKeyExpected(c: CardState, node: Option<ChainInfo>, i: Issue) {
    exists k | k in c.watermarks :: KeyExpected(c, k, node, i)
  }

  lemma MarksExact(c: CardState, node: Option<ChainInfo>, i: Issue)
    requires Serviced(c)
    ensures i in WatermarkIssues(c, node) <==>
              SomeKeyExpected(c, node, i) || (i.kind.WatermarkNodeUnknown? && Expected(c, node, i))
  {
    InAllKeyIssues(c.watermarks, node, SeedsPending(c.bootConfig, node), i);
    forall k | k in c.watermarks {
      KeyExact(c, k, node, i);
    }
  }

  /** The keys together contribute the kinds about watermarks, and the ownership of their files. */
  lemma KeysTogether(c: CardState, node: Option<ChainInfo>, i: Issue)
    requires Serviced(c)
    ensures SomeKeyExpected(c, node, i) <==>
              (AboutWatermarks(i.kind) && !i.kind.WatermarkNodeUnknown? && Expected(c, node, i))
              || (exists k | k in c.watermarks :: KeyForeign(k) && i == InPlace(OwnershipDrift, Critical, Data, ChownWatermarks(k.pkh)))
  {
  }

  ghost predicate InServiced(c: CardState, node: Option<ChainInfo>, i: Issue) {
    i in KeysIssues(c.keys) || i in ChainIssues(c.chainInfo, node) || i in WatermarkIssues(c, node) || i in LogIssues(c)
  }

  ghost predicate OnlyServiced(kind: IssueKind) {
    AboutKeys(kind) || AboutChain(kind) || AboutWatermarks(kind) || kind.OwnershipDrift? || kind.LogsDirMissing? || kind.PanicLogOversized?
  }

  lemma ServicedExact(c: CardState, node: Option<ChainInfo>, i: Issue)
    requires Serviced(c)
    ensures InServiced(c, node, i) <==> OnlyServiced(i.kind) && Expected(c, node, i)
  {
    KeysExact(c, node, i);
    ChainExact(c, node, i);
    MarksExact(c, node, i);
    KeysTogether(c, node, i);
    LogsExact(c, node, i);
  }

  lemma DiagnosisParts(c: CardState, node: Option<ChainInfo>, i: Issue)
    ensures i in Diagnose(c, node) <==>
              || i in BootIssues(c, node)
              || (!c.inspection.Inspected? && i in UninspectedIssues(c, node))
              || (c.inspection.Inspected? && c.migrationPending && i == Note(MigrationPending, Info, Keys))
              || (c.inspection.Inspected? && !c.setupComplete && i in UnsetIssues(c, node))
              || (Serviced(c) && InServiced(c, node, i))
  {
  }

  lemma UnservicedOnly(c: CardState, node: Option<ChainInfo>, i: Issue)
    requires OnlyServiced(i.kind) && !Serviced(c)
    ensures !Expected(c, node, i)
  {
  }

  /** The diagnosis holds exactly the expected issues: kind, severity, partition, remedy and action. */
  lemma DiagnosisExact(c: CardState, node: Option<ChainInfo>, i: Issue)
    ensures i in Diagnose(c, node) <==> Expected(c, node, i)
  {
    DiagnosisParts(c, node, i);
    BootExact(c, node, i);
    UnservicedExact(c, node, i);
    if Serviced(c) {
      ServicedExact(c, node, i);
    }
    if OnlyServiced(i.kind) {
      if !Serviced(c) {
        UnservicedOnly(c, node, i);
      }
    } else if i.kind.MigrationPending? {
      assert Expected(c, node, i) <==> c.inspection.Inspected? && c.migrationPending && i == Note(MigrationPending, Info, Keys);
    }
  }

  // ---------------------------------------------------------------------------
  // A healthy card
  // ---------------------------------------------------------------------------

  /** A key whose marks need no attention: all there, ours, valid and near the head, or about to be seeded. */
  ghost predicate KeyFine(c: CardState, k: KeyWatermarks, node: Option<ChainInfo>) {
    if !k.dirPresent then WillSeed(c, node)
    else
      && !Foreign(k.dirOwner)
      && forall f | f in k.files :: !Foreign(f.owner) && f.status.Valid? && (node.Some? ==> !FarBehind(f.status.level, node.value))
  }

  /** Nothing to warn about and nothing to repair. */
  ghost predicate Fine(c: CardState, node: Option<ChainInfo>) {
    && c.inspection.Inspected?
    && (c.bootConfig.Some? && node.Some? ==> !Outdated(c, c.bootConfig.value, node.value))
    && if !c.setupComplete then c.bootConfig.Some?
       else
         && c.keys.Parsed? && "consensus" in c.keys.aliases && "companion" in c.keys.aliases
         && c.chainInfo.Present? && !Foreign(c.chainInfo.owner) && (c.chainInfo.mode.Some? ==> c.chainInfo.mode.value == 256)
         && (node.Some? ==> node.value.id == c.chainInfo.id)
         && (forall k | k in c.watermarks :: KeyFine(c, k, node))
         && (c.panicLogSize.Some? ==> c.panicLogSize.value <= 1048576)
  }

  /** An issue that keeps a card from being healthy. */
  predicate Troubling(i: Issue) {
    i.severity.Critical? || i.severity.Warning? || i.remedy.HostDirect? || i.remedy.FatStage?
  }

  lemma FineHasNoTrouble(c: CardState, node: Option<ChainInfo>, i: Issue)
    requires Fine(c, node) && Expected(c, node, i)
    ensures !Troubling(i)
  {
  }

  lemma TroubleOf(c: CardState, node: Option<ChainInfo>) returns (i: Issue)
    requires !Fine(c, node)
    ensures Expected(c, node, i) && Troubling(i)
  {
    if !c.inspection.Inspected? {
      i := Note(F2fsNotInspected, Warning, Keys);
    } else if c.bootConfig.Some? && node.Some? && Outdated(c, c.bootConfig.value, node.value) {
      i := InPlace(LeftoverBootConfig, Warning, Boot, DeleteBootConfig);
    } else if !c.setupComplete {
      i := ToStage(WatermarkSeedMissing, Warning, Boot, node);
    } else if c.keys.KeysAbsent? {
      i := Note(KeysMissing, Critical, Keys);
    } else if c.keys.Unparseable? {
      i := Note(KeysUnparseable, Critical, Keys);
    } else if "consensus" !in c.keys.aliases || "companion" !in c.keys.aliases {
      i := Note(KeysRoleMissing, Warning, Keys);
    } else if c.chainInfo.Missing? {
      i := ToRewrite(ChainInfoMissing, node);
    } else if Foreign(c.chainInfo.owner) {
      i := InPlace(OwnershipDrift, Critical, Keys, ChownChainInfo);
    } else if c.chainInfo.Unreadable? {
      i := ToRewrite(ChainInfoUnreadable, node);
    } else if c.chainInfo.mode.Some? && c.chainInfo.mode.value != 256 {
      i := InPlace(ChainInfoModeDrift, Warning, Keys, ChmodChainInfo);
    } else if node.Some? && node.value.id != c.chainInfo.id {
      i := InPlace(ChainInfoStale, Warning, Keys, WriteChainInfo);
    } else if c.panicLogSize.Some? && c.panicLogSize.value > 1048576 {
      i := InPlace(PanicLogOversized, Warning, Data, TruncatePanicLog);
    } else {
      i := KeyTrouble(c, node);
    }
  }

  lemma KeyTrouble(c: CardState, node: Option<ChainInfo>) returns (i: Issue)
    requires Serviced(c) && exists k | k in c.watermarks :: !KeyFine(c, k, node)
    ensures Expected(c, node, i) && Troubling(i)
  {
    var k :| k in c.watermarks && !KeyFine(c, k, node);
    if !k.dirPresent {
      i := ToStage(WatermarkDirMissing, Critical, Data, node);
    } else if KeyForeign(k) {
      i := InPlace(OwnershipDrift, Critical, Data, ChownWatermarks(k.pkh));
    } else if f :| f in k.files && !f.status.Valid? {
      i := ToStage(if f.status.FileMissing? then WatermarkFileMissing else WatermarkCorrupt, Critical, Data, node);
    } else {
      i := ToStage(WatermarkBelowHead, Warning, Data, node);
    }
  }

  /** The verdict "the card is good", from the card's fields. */
  lemma HealthyIff(c: CardState, node: Option<ChainInfo>)
    ensures IsHealthy(Diagnose(c, node)) <==> Fine(c, node)
  {
    if Fine(c, node) {
      forall i | i in Diagnose(c, node)
        ensures !Troubling(i)
      {
        DiagnosisExact(c, node, i);
        FineHasNoTrouble(c, node, i);
      }
    } else {
      var i := TroubleOf(c, node);
      DiagnosisExact(c, node, i);
    }
  }
}
