/** Repair planning and execution: which actions a diagnosis implies, and what they do to the card. */
module Repair {
  import opened Prelude
  import opened Card

  // ---------------------------------------------------------------------------
  // Planning
  // ---------------------------------------------------------------------------

  function ActionOf(i: Issue): seq<RepairAction> {
    if i.action.Some? then [i.action.value] else []
  }

  /** The actions the issues carry, in report order. */
  function Actions(issues: seq<Issue>): seq<RepairAction> {
    if issues == [] then [] else Actions(issues[..|issues| - 1]) + ActionOf(issues[|issues| - 1])
  }

  predicate Stages(actions: seq<RepairAction>) {
    exists a | a in actions :: a.StageBootConfig?
  }

  /** A broader action on the same target makes this one redundant. */
  predicate Overridden(a: RepairAction, actions: seq<RepairAction>) {
    match a
    case ChmodChainInfo => WriteChainInfo in actions
    case ChownChainInfo => WriteChainInfo in actions
    case DeleteBootConfig => Stages(actions)
    case _ => false
  }

  function Keep(all: seq<RepairAction>, seen: seq<RepairAction>): seq<RepairAction> {
    if seen == [] then []
    else
      var kept := Keep(all, seen[..|seen| - 1]);
      var a := seen[|seen| - 1];
      if Overridden(a, all) || a in kept then kept else kept + [a]
  }

  function Plan(issues: seq<Issue>): seq<RepairAction> {
    Keep(Actions(issues), Actions(issues))
  }

  method CollectActions(issues: seq<Issue>) returns (actions: seq<RepairAction>)
    ensures actions == Actions(issues)
  {
    actions := [];
    for i := 0 to |issues|
      invariant actions == Actions(issues[..i])
    {
      assert issues[..i + 1][..i] == issues[..i];
      actions := actions + ActionOf(issues[i]);
    }
    assert issues[..|issues|] == issues;
  }

  lemma KeepStep(all: seq<RepairAction>, i: nat)
    requires i < |all|
    ensures var kept := Keep(all, all[..i]);
            Keep(all, all[..i + 1]) == if Overridden(all[i], all) || all[i] in kept then kept else kept + [all[i]]
  {
    assert all[..i + 1][..i] == all[..i];
  }

  method PlanRepairs(issues: seq<Issue>) returns (planned: seq<RepairAction>)
    ensures planned == Plan(issues)
  {
    var actions := CollectActions(issues);
    var rewritesChainInfo := WriteChainInfo in actions;
    var stagesBootConfig := Stages(actions);
    planned := [];
    for i := 0 to |actions|
      invariant planned == Keep(actions, actions[..i])
    {
      KeepStep(actions, i);
      var action := actions[i];
      var superseded :=
        ((action.ChmodChainInfo? || action.ChownChainInfo?) && rewritesChainInfo)
        || (action.DeleteBootConfig? && stagesBootConfig);
      assert superseded == Overridden(action, actions);
      if !superseded && action !in planned {
        planned := planned + [action];
      }
    }
    assert actions[..|actions|] == actions;
  }

  ghost predicate NoDuplicates<T>(s: seq<T>) {
    forall i, j | 0 <= i < j < |s| :: s[i] != s[j]
  }

  lemma {:induction false} KeepFacts(all: seq<RepairAction>, seen: seq<RepairAction>)
    ensures NoDuplicates(Keep(all, seen))
    ensures forall a :: a in Keep(all, seen) <==> a in seen && !Overridden(a, all)
  {
    if seen != [] {
      var init, last := seen[..|seen| - 1], seen[|seen| - 1];
      KeepFacts(all, init);
      assert seen == init + [last];
    }
  }

  lemma {:induction false} ActionsMembership(issues: seq<Issue>)
    ensures forall a :: a in Actions(issues) <==> exists i :: i in issues && i.action == Some(a)
  {
    if issues != [] {
      var init, last := issues[..|issues| - 1], issues[|issues| - 1];
      ActionsMembership(init);
      assert issues == init + [last];
    }
  }

  /** What is in a plan, independently of order: the carried actions that nothing broader replaces. */
  lemma PlanFacts(issues: seq<Issue>)
    ensures NoDuplicates(Plan(issues))
    ensures forall a :: a in Plan(issues) <==> a in Actions(issues) && !Overridden(a, Actions(issues))
  {
    KeepFacts(Actions(issues), Actions(issues));
  }

  // ---------------------------------------------------------------------------
  // What an action does to the card
  // ---------------------------------------------------------------------------

  /**
   * What the host cannot see before a chown: the chain id in an unreadable `chain_info.json`
   * and the status of a watermark file it could not open. Any values are possible.
   */
  datatype Hidden = Hidden(chainId: Option<string>, status: (string, nat) -> FileStatus)

  /** A rewritten `chain_info.json` as a later read finds it; an empty id reads as invalid content. */
  function WrittenChain(n: ChainInfo): ChainInfoState {
    if n.id == "" then Unreadable(DEVICE_OWNER, Some(CHAIN_INFO_MODE))
    else Present(n.id, Some(CHAIN_INFO_MODE), DEVICE_OWNER)
  }

  function ChmodedChain(ch: ChainInfoState): ChainInfoState {
    match ch
    case Missing => ch
    case Unreadable(o, _) => Unreadable(o, Some(CHAIN_INFO_MODE))
    case Present(id, _, o) => Present(id, Some(CHAIN_INFO_MODE), o)
  }

  /** A chown that is already correct is skipped; otherwise it may reveal what the file says. */
  function ChownedChain(ch: ChainInfoState, h: Hidden): ChainInfoState {
    match ch
    case Missing => ch
    case Present(id, m, _) => Present(id, m, DEVICE_OWNER)
    case Unreadable(o, m) =>
      if o == DEVICE_OWNER then ch
      else if h.chainId.Some? && h.chainId.value != "" then Present(h.chainId.value, m, DEVICE_OWNER)
      else Unreadable(DEVICE_OWNER, m)
  }

  function RestoredFile(f: WatermarkFile, revealed: FileStatus): WatermarkFile {
    var status := if f.status.FileMissing? then revealed else f.status;
    f.(status := status, owner := if f.owner.None? && status.FileMissing? then None else DEVICE_OWNER)
  }

  function RestoredKey(k: KeyWatermarks, h: Hidden): (r: KeyWatermarks)
    ensures r.pkh == k.pkh && r.dirPresent == k.dirPresent && |r.files| == |k.files|
    ensures k.dirPresent ==> forall i | 0 <= i < |r.files| :: r.files[i] == RestoredFile(k.files[i], h.status(k.pkh, i))
    ensures k.dirPresent ==> !OwnershipBad(r)
  {
    if !k.dirPresent then k
    else k.(dirOwner := DEVICE_OWNER,
            files := seq(|k.files|, i requires 0 <= i < |k.files| => RestoredFile(k.files[i], h.status(k.pkh, i))))
  }

  function RestoredKeys(keys: seq<KeyWatermarks>, pkh: string, h: Hidden): (r: seq<KeyWatermarks>)
    ensures |r| == |keys|
    ensures forall i | 0 <= i < |r| :: r[i] == if keys[i].pkh == pkh then RestoredKey(keys[i], h) else keys[i]
  {
    seq(|keys|, i requires 0 <= i < |keys| => if keys[i].pkh == pkh then RestoredKey(keys[i], h) else keys[i])
  }

  function Apply(c: CardState, node: Option<ChainInfo>, h: Hidden, a: RepairAction): CardState {
    match a
    case ChownWatermarks(pkh) => c.(watermarks := RestoredKeys(c.watermarks, pkh, h))
    case WriteChainInfo => if node.Some? then c.(chainInfo := WrittenChain(node.value)) else c
    case ChmodChainInfo => c.(chainInfo := ChmodedChain(c.chainInfo))
    case ChownChainInfo => c.(chainInfo := ChownedChain(c.chainInfo, h))
    case TruncatePanicLog => if c.panicLogSize.Some? then c.(panicLogSize := Some(0)) else c
    case DeleteBootConfig => c.(bootConfig := None)
    case StageBootConfig(n) => c.(bootConfig := Some(BootConfig(n.id, n.level)))
  }

  function ApplyAll(c: CardState, node: Option<ChainInfo>, h: Hidden, actions: seq<RepairAction>): CardState {
    if actions == [] then c
    else Apply(ApplyAll(c, node, h, actions[..|actions| - 1]), node, h, actions[|actions| - 1])
  }

  /** Only the given node is ever staged, and staging and deleting do not meet. */
  ghost predicate Compatible(actions: seq<RepairAction>, node: Option<ChainInfo>) {
    && (forall a | a in actions && a.StageBootConfig? :: node == Some(a.chain))
    && !(Stages(actions) && DeleteBootConfig in actions)
  }

  // ---------------------------------------------------------------------------
  // The outcome depends only on which actions are applied
  // ---------------------------------------------------------------------------

  function BootAfter(b: Option<BootConfig>, node: Option<ChainInfo>, actions: seq<RepairAction>): Option<BootConfig> {
    if node.Some? && StageBootConfig(node.value) in actions then Some(BootConfig(node.value.id, node.value.level))
    else if DeleteBootConfig in actions then None
    else b
  }

  function ChainAfter(ch: ChainInfoState, node: Option<ChainInfo>, h: Hidden, actions: seq<RepairAction>): ChainInfoState {
    if node.Some? && WriteChainInfo in actions then WrittenChain(node.value)
    else
      var owned := if ChownChainInfo in actions then ChownedChain(ch, h) else ch;
      if ChmodChainInfo in actions then ChmodedChain(owned) else owned
  }

  function KeyAfter(k: KeyWatermarks, h: Hidden, actions: seq<RepairAction>): (r: KeyWatermarks)
    ensures r.pkh == k.pkh && r.dirPresent == k.dirPresent && |r.files| == |k.files|
  {
    if ChownWatermarks(k.pkh) in actions then RestoredKey(k, h) else k
  }

  function KeysAfter(keys: seq<KeyWatermarks>, h: Hidden, actions: seq<RepairAction>): (r: seq<KeyWatermarks>)
    ensures |r| == |keys|
    ensures forall i | 0 <= i < |r| :: r[i] == KeyAfter(keys[i], h, actions)
  {
    seq(|keys|, i requires 0 <= i < |keys| => KeyAfter(keys[i], h, actions))
  }

  function PanicAfter(p: Option<nat>, actions: seq<RepairAction>): Option<nat> {
    if TruncatePanicLog in actions && p.Some? then Some(0) else p
  }

  function CardAfter(c: CardState, node: Option<ChainInfo>, h: Hidden, actions: seq<RepairAction>): CardState {
    c.(bootConfig := BootAfter(c.bootConfig, node, actions),
       chainInfo := ChainAfter(c.chainInfo, node, h, actions),
       watermarks := KeysAfter(c.watermarks, h, actions),
       panicLogSize := PanicAfter(c.panicLogSize, actions))
  }

  lemma RestoreIdempotent(k: KeyWatermarks, h: Hidden)
    ensures RestoredKey(RestoredKey(k, h), h) == RestoredKey(k, h)
  {
  }

  lemma KeysAfterStep(keys: seq<KeyWatermarks>, h: Hidden, init: seq<RepairAction>, a: RepairAction)
    ensures KeysAfter(keys, h, init + [a])
         == if a.ChownWatermarks? then RestoredKeys(KeysAfter(keys, h, init), a.pkh, h) else KeysAfter(keys, h, init)
  {
    forall i | 0 <= i < |keys| {
      RestoreIdempotent(keys[i], h);
    }
  }

  lemma ChainAfterStep(ch: ChainInfoState, node: Option<ChainInfo>, h: Hidden, init: seq<RepairAction>, a: RepairAction)
    ensures var before := ChainAfter(ch, node, h, init);
            ChainAfter(ch, node, h, init + [a]) ==
              match a
              case WriteChainInfo => if node.Some? then WrittenChain(node.value) else before
              case ChmodChainInfo => ChmodedChain(before)
              case ChownChainInfo => ChownedChain(before, h)
              case _ => before
  {
  }

  lemma BootAfterStep(b: Option<BootConfig>, node: Option<ChainInfo>, init: seq<RepairAction>, a: RepairAction)
    requires Compatible(init + [a], node)
    ensures BootAfter(b, node, init + [a]) ==
              match a
              case DeleteBootConfig => None
              case StageBootConfig(n) => Some(BootConfig(n.id, n.level))
              case _ => BootAfter(b, node, init)
  {
  }

  lemma CardAfterStep(c: CardState, node: Option<ChainInfo>, h: Hidden, init: seq<RepairAction>, a: RepairAction)
    requires Compatible(init + [a], node)
    ensures CardAfter(c, node, h, init + [a]) == Apply(CardAfter(c, node, h, init), node, h, a)
  {
    ChainAfterStep(c.chainInfo, node, h, init, a);
    BootAfterStep(c.bootConfig, node, init, a);
    KeysAfterStep(c.watermarks, h, init, a);
    assert PanicAfter(c.panicLogSize, init + [a]) ==
      if a.TruncatePanicLog? && c.panicLogSize.Some? then Some(0) else PanicAfter(c.panicLogSize, init);
  }

  /** Applying a list of actions gives the card computed field by field from the set of its actions. */
  lemma {:induction false} ApplyAllResult(c: CardState, node: Option<ChainInfo>, h: Hidden, actions: seq<RepairAction>)
    requires Compatible(actions, node)
    ensures ApplyAll(c, node, h, actions) == CardAfter(c, node, h, actions)
  {
    if actions == [] {
      assert KeysAfter(c.watermarks, h, actions) == c.watermarks;
    } else {
      var init, a := actions[..|actions| - 1], actions[|actions| - 1];
      assert actions == init + [a];
      forall x | x in init ensures x in actions {}
      ApplyAllResult(c, node, h, init);
      CardAfterStep(c, node, h, init, a);
    }
  }

  ghost predicate SameActions(xs: seq<RepairAction>, ys: seq<RepairAction>) {
    forall a :: a in xs <==> a in ys
  }

  /** Order and repetition do not matter: compatible lists of the same actions have the same effect. */
  lemma OrderIrrelevant(c: CardState, node: Option<ChainInfo>, h: Hidden, xs: seq<RepairAction>, ys: seq<RepairAction>)
    requires SameActions(xs, ys) && Compatible(xs, node)
    ensures ApplyAll(c, node, h, xs) == ApplyAll(c, node, h, ys)
  {
    assert Compatible(ys, node);
    ApplyAllResult(c, node, h, xs);
    ApplyAllResult(c, node, h, ys);
    assert forall k: KeyWatermarks :: KeyAfter(k, h, xs) == KeyAfter(k, h, ys);
    assert KeysAfter(c.watermarks, h, xs) == KeysAfter(c.watermarks, h, ys);
  }
}
