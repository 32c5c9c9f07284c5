/** Applying confirmed repairs to a card in a reader, grouped by partition, with I/O that may fail. */
module RepairExecutor {
  import opened Prelude
  import opened Card
  import opened Repair
  import opened RepairPlan
  import opened RepairFaults

  /** `Unverified` is a staging that was written but whose read-back names no chain. */
  datatype ExecError = MissingNode | StageOnMount | NoSuchFile | Unverified | Io

  /** The repairs whose I/O fails, and how far each of them gets. */
  type Faults = map<RepairAction, Fault>

  function ActionPartition(a: RepairAction): Partition {
    match a
    case ChownWatermarks(_) => Data
    case TruncatePanicLog => Data
    case WriteChainInfo => Keys
    case ChmodChainInfo => Keys
    case ChownChainInfo => Keys
    case DeleteBootConfig => Boot
    case StageBootConfig(_) => Boot
  }

  /** The file an action changes in place is on the card. */
  predicate TargetThere(c: CardState, a: RepairAction) {
    match a
    case ChownWatermarks(pkh) => exists k | k in c.watermarks :: k.pkh == pkh && k.dirPresent
    case ChmodChainInfo => !c.chainInfo.Missing?
    case ChownChainInfo => !c.chainInfo.Missing?
    case TruncatePanicLog => c.panicLogSize.Some?
    case DeleteBootConfig => c.bootConfig.Some?
    case _ => true
  }

  /** Where the file an action works on is kept: keys and chain_info, watermarks and logs, and the staged config. */
  predicate KeptOn(a: RepairAction, mounted: Partition) {
    match a
    case WriteChainInfo => mounted == Keys
    case ChmodChainInfo => mounted == Keys
    case ChownChainInfo => mounted == Keys
    case ChownWatermarks(_) => mounted == Data
    case TruncatePanicLog => mounted == Data
    case DeleteBootConfig => mounted == Boot
    case StageBootConfig(_) => mounted == Boot
  }

  /** Why applying an action to a mounted partition fails, if it does. */
  function Refusal(c: CardState, node: Option<ChainInfo>, mounted: Partition, a: RepairAction, broken: Faults): Option<ExecError> {
    if a.StageBootConfig? then Some(StageOnMount)
    else if a.WriteChainInfo? && node.None? then Some(MissingNode)
    else if !KeptOn(a, mounted) || !TargetThere(c, a) then Some(NoSuchFile)
    else if a in broken then Some(Io)
    else None
  }

  function StagesOf(actions: seq<RepairAction>): seq<RepairAction> {
    if actions == [] then []
    else
      var init, last := StagesOf(actions[..|actions| - 1]), actions[|actions| - 1];
      if last.StageBootConfig? then init + [last] else init
  }

  /** The mounted group of one partition. */
  function GroupOf(actions: seq<RepairAction>, p: Partition): seq<RepairAction> {
    if actions == [] then []
    else
      var init, last := GroupOf(actions[..|actions| - 1], p), actions[|actions| - 1];
      if !last.StageBootConfig? && ActionPartition(last) == p then init + [last] else init
  }

  lemma {:induction false} StagesMembership(actions: seq<RepairAction>)
    ensures forall a :: a in StagesOf(actions) <==> a in actions && a.StageBootConfig?
  {
    if actions != [] {
      var init, last := actions[..|actions| - 1], actions[|actions| - 1];
      assert actions == init + [last];
      StagesMembership(init);
    }
  }

  lemma {:induction false} GroupMembership(actions: seq<RepairAction>, p: Partition)
    ensures forall a :: a in GroupOf(actions, p) <==> a in actions && !a.StageBootConfig? && ActionPartition(a) == p
  {
    if actions != [] {
      var init, last := actions[..|actions| - 1], actions[|actions| - 1];
      assert actions == init + [last];
      GroupMembership(init, p);
    }
  }

  lemma {:induction false} GroupDistinct(actions: seq<RepairAction>, p: Partition)
    requires NoDuplicates(actions)
    ensures NoDuplicates(GroupOf(actions, p))
  {
    if actions != [] {
      var init, last := actions[..|actions| - 1], actions[|actions| - 1];
      GroupDistinct(init, p);
      GroupMembership(init, p);
      assert last !in init;
    }
  }

  lemma {:induction false} ApplyAllConcat(c: CardState, node: Option<ChainInfo>, h: Hidden, xs: seq<RepairAction>, ys: seq<RepairAction>)
    ensures ApplyAll(c, node, h, xs + ys) == ApplyAll(ApplyAll(c, node, h, xs), node, h, ys)
  {
    if ys == [] {
      assert xs + ys == xs;
    } else {
      ApplyAllConcat(c, node, h, xs, ys[..|ys| - 1]);
      assert (xs + ys)[..|xs + ys| - 1] == xs + ys[..|ys| - 1];
    }
  }

  /** Applying other actions leaves an action's target in place. */
  lemma TargetStays(c: CardState, node: Option<ChainInfo>, h: Hidden, done: seq<RepairAction>, a: RepairAction)
    requires TargetThere(c, a) && a !in done && Compatible(done, node)
    ensures TargetThere(ApplyAll(c, node, h, done), a)
  {
    ApplyAllResult(c, node, h, done);
    var c' := CardAfter(c, node, h, done);
    if a.ChownWatermarks? {
      var k :| k in c.watermarks && k.pkh == a.pkh && k.dirPresent;
      var i :| 0 <= i < |c.watermarks| && c.watermarks[i] == k;
      assert c'.watermarks[i] in c'.watermarks && c'.watermarks[i].pkh == a.pkh && c'.watermarks[i].dirPresent;
    }
  }

  /** A conflict-free list whose every target is there, with a node at hand if one is needed. */
  ghost predicate Executable(c: CardState, node: Option<ChainInfo>, actions: seq<RepairAction>) {
    && Compatible(actions, node) && NoDuplicates(actions)
    && forall a | a in actions :: TargetThere(c, a) && (a.WriteChainInfo? ==> node.Some?)
  }

  /** What the plan asks for is there, and a rewrite is only planned with a node. */
  lemma PlanIsExecutable(c: CardState, node: Option<ChainInfo>, confirmed: seq<RepairAction>)
    requires NoDuplicates(confirmed) && forall a | a in confirmed :: a in Repairs(c, node)
    ensures Executable(c, node, confirmed)
  {
    PlanConflictFree(c, node);
    forall a | a in confirmed
      ensures TargetThere(c, a) && (a.WriteChainInfo? ==> node.Some?)
    {
      OnePlanned(c, node, a);
    }
  }

  /** Exactly the stagings and the actions on the partitions in `done` have run. */
  ghost predicate Ran(actions: seq<RepairAction>, applied: seq<RepairAction>, done: seq<Partition>) {
    forall a :: a in applied <==> a in actions && (a.StageBootConfig? || ActionPartition(a) in done)
  }

  lemma RanGroup(actions: seq<RepairAction>, applied: seq<RepairAction>, done: seq<Partition>, p: Partition)
    requires Ran(actions, applied, done)
    ensures Ran(actions, applied + GroupOf(actions, p), done + [p])
  {
    GroupMembership(actions, p);
  }

  /** A group that stops early stops on an I/O failure: nothing else can go wrong with an executable list. */
  lemma GroupFailure(c: CardState, node: Option<ChainInfo>, h: Hidden, actions: seq<RepairAction>, applied: seq<RepairAction>,
                     done: seq<Partition>, p: Partition, n: nat, broken: Faults)
    requires Ran(actions, applied, done) && p !in done && n < |GroupOf(actions, p)| && Executable(c, node, actions)
    requires Refusal(ApplyAll(c, node, h, applied + GroupOf(actions, p)[..n]), node, p, GroupOf(actions, p)[n], broken).Some?
    ensures var a := GroupOf(actions, p)[n];
            a in actions && a in broken && a !in applied + GroupOf(actions, p)[..n]
            && Refusal(ApplyAll(c, node, h, applied + GroupOf(actions, p)[..n]), node, p, a, broken) == Some(Io)
  {
    var group := GroupOf(actions, p);
    GroupMembership(actions, p);
    GroupDistinct(actions, p);
    assert group[n] in group;
    assert forall a | a in group[..n] :: a in group;
    NextTargetThere(c, node, h, actions, applied + group[..n], group[n]);
  }

  /** What a group that stops at action `n` has done, and why it stopped. */
  lemma GroupStopped(c: CardState, node: Option<ChainInfo>, h: Hidden, actions: seq<RepairAction>, applied: seq<RepairAction>,
                     done: seq<Partition>, p: Partition, n: nat, broken: Faults)
    requires Ran(actions, applied, done) && p !in done && n < |GroupOf(actions, p)|
    requires Refusal(ApplyAll(ApplyAll(c, node, h, applied), node, h, GroupOf(actions, p)[..n]), node, p, GroupOf(actions, p)[n], broken).Some?
    ensures var (ran, a) := (applied + GroupOf(actions, p)[..n], GroupOf(actions, p)[n]);
            && ApplyAll(ApplyAll(c, node, h, applied), node, h, GroupOf(actions, p)[..n]) == ApplyAll(c, node, h, ran)
            && a in actions && !a.StageBootConfig? && (forall x | x in ran :: x in actions)
            && (Executable(c, node, actions) ==>
                  a !in ran && Refusal(ApplyAll(c, node, h, ran), node, p, a, broken) == Some(Io))
  {
    var group := GroupOf(actions, p);
    GroupMembership(actions, p);
    assert group[n] in group;
    ApplyAllConcat(c, node, h, applied, group[..n]);
    assert forall a | a in group[..n] :: a in group;
    if Executable(c, node, actions) {
      GroupFailure(c, node, h, actions, applied, done, p, n, broken);
    }
  }

  /** A config whose read-back is rejected: the chain's id or name is empty. */
  predicate Unnamed(a: RepairAction) {
    a.StageBootConfig? && (a.chain.id == "" || a.chain.name == "")
  }

  /** Every config to be staged names a chain by id and by name. */
  ghost predicate AllNamed(actions: seq<RepairAction>) {
    forall a | a in actions && a.StageBootConfig? :: a.chain.id != "" && a.chain.name != ""
  }

  lemma NamedSnoc(actions: seq<RepairAction>, n: nat)
    requires n < |actions|
    ensures AllNamed(actions[..n + 1]) <==> AllNamed(actions[..n]) && !Unnamed(actions[n])
  {
    assert actions[..n + 1] == actions[..n] + [actions[n]];
  }

  lemma StagesBefore(actions: seq<RepairAction>, n: nat)
    requires n < |actions|
    ensures forall a | a in StagesOf(actions[..n]) :: a in actions
    ensures NoDuplicates(actions) ==> actions[n] !in StagesOf(actions[..n])
    ensures forall a | a in StagesOf(actions[..n]) :: a.StageBootConfig?
  {
    StagesMembership(actions[..n]);
  }

  /** A conflict-free list stages once at most. */
  lemma NoStageBefore(c: CardState, node: Option<ChainInfo>, actions: seq<RepairAction>, n: nat)
    requires n < |actions| && actions[n].StageBootConfig? && Executable(c, node, actions)
    ensures StagesOf(actions[..n]) == []
  {
    var stages := StagesOf(actions[..n]);
    assert stages == [] || stages[0] in stages;
    StagesBefore(actions, n);
    assert actions[n] in actions;
    assert forall a | a in stages :: a == actions[n];
  }

  /** The keys partition comes first, then the data partition, then the boot partition. */
  predicate ComesBefore(a: RepairAction, b: RepairAction) {
    || (a.StageBootConfig? && !b.StageBootConfig?)
    || (KeptOn(a, Keys) && !KeptOn(b, Keys) && !b.StageBootConfig?)
    || (KeptOn(a, Data) && b.DeleteBootConfig?)
  }

  /** When `b` is reached, everything that comes before it is done and nothing that comes after it. */
  ghost predicate EarlierDone(actions: seq<RepairAction>, applied: seq<RepairAction>, b: RepairAction) {
    && (forall a | a in actions && ComesBefore(a, b) :: a in applied)
    && (forall a | a in applied :: !ComesBefore(b, a))
  }

  lemma StoppedInOrder(actions: seq<RepairAction>, applied: seq<RepairAction>, done: seq<Partition>, p: Partition, n: nat)
    requires Ran(actions, applied, done) && n < |GroupOf(actions, p)|
    requires (done == [] && p == Keys) || (done == [Keys] && p == Data) || (done == [Keys, Data] && p == Boot)
    ensures EarlierDone(actions, applied + GroupOf(actions, p)[..n], GroupOf(actions, p)[n])
  {
    var group := GroupOf(actions, p);
    GroupMembership(actions, p);
    assert group[n] in group;
    assert forall a | a in group[..n] :: a in group;
  }

  /** What executing left behind: all of `applied`, and a fault in one further repair. */
  ghost function Outcome(c: CardState, node: Option<ChainInfo>, h: Hidden, applied: seq<RepairAction>, failed: Option<RepairAction>,
                         broken: Faults): CardState
    requires failed.Some? ==> failed.value in broken
  {
    var done := ApplyAll(c, node, h, applied);
    if failed.Some? then AfterFault(done, node, h, failed.value, broken[failed.value]) else done
  }

  class CardReader {
    var card: CardState

    constructor (c: CardState)
      ensures card == c
    {
      card := c;
    }

    /** One repair on a mounted partition; a refused one leaves the card as it was, a failing one half-done. */
    method ApplyAction(node: Option<ChainInfo>, h: Hidden, mounted: Partition, a: RepairAction, broken: Faults) returns (e: Option<ExecError>)
      modifies this
      ensures e == Refusal(old(card), node, mounted, a, broken)
      ensures card == match e
                      case None => Apply(old(card), node, h, a)
                      case Some(Io) => AfterFault(old(card), node, h, a, broken[a])
                      case _ => old(card)
      // what is refused, by the state of the card
      ensures e == Some(StageOnMount) <==> a.StageBootConfig?
      ensures e == Some(MissingNode) <==> a.WriteChainInfo? && node.None?
      ensures e == Some(NoSuchFile) && KeptOn(a, mounted) <==>
                || (mounted == Data && a.ChownWatermarks? && forall k | k in old(card).watermarks && k.pkh == a.pkh :: !k.dirPresent)
                || (mounted == Keys && (a.ChmodChainInfo? || a.ChownChainInfo?) && old(card).chainInfo.Missing?)
                || (mounted == Data && a.TruncatePanicLog? && old(card).panicLogSize.None?)
                || (mounted == Boot && a.DeleteBootConfig? && old(card).bootConfig.None?)
    {
      if a.StageBootConfig? {
        return Some(StageOnMount);
      }
      if a.WriteChainInfo? && node.None? {
        return Some(MissingNode);
      }
      if !KeptOn(a, mounted) || !TargetThere(card, a) {
        return Some(NoSuchFile);
      }
      if a in broken {
        card := AfterFault(card, node, h, a, broken[a]);
        return Some(Io);
      }
      match a {
      case ChownWatermarks(pkh) => card := card.(watermarks := RestoredKeys(card.watermarks, pkh, h));
      case WriteChainInfo => card := card.(chainInfo := WrittenChain(node.value));
      case ChmodChainInfo => card := card.(chainInfo := ChmodedChain(card.chainInfo));
      case ChownChainInfo => card := card.(chainInfo := ChownedChain(card.chainInfo, h));
      case TruncatePanicLog => card := card.(panicLogSize := Some(0));
      case DeleteBootConfig => card := card.(bootConfig := None);
      case StageBootConfig(_) => assert false;
      }
      return None;
    }

    /** The stagings, each through its own mount of the boot partition and each read back. */
    method RunStages(node: Option<ChainInfo>, h: Hidden, actions: seq<RepairAction>, broken: Faults)
      returns (e: Option<ExecError>, n: nat)
      modifies this
      ensures e.None? || e == Some(Io) || e == Some(Unverified)
      ensures e.None? ==> card == ApplyAll(old(card), node, h, StagesOf(actions)) && AllNamed(actions)
      ensures e.Some? ==> n < |actions| && actions[n].StageBootConfig?
      ensures e == Some(Io) ==>
                actions[n] in broken && card == Outcome(old(card), node, h, StagesOf(actions[..n]), Some(actions[n]), broken)
      ensures e == Some(Unverified) ==>
                Unnamed(actions[n]) && card == Outcome(old(card), node, h, StagesOf(actions[..n + 1]), None, broken)
    {
      e, n := None, 0;
      while n < |actions|
        invariant n <= |actions| && e.None?
        invariant card == ApplyAll(old(card), node, h, StagesOf(actions[..n])) && AllNamed(actions[..n])
      {
        var a := actions[n];
        NamedSnoc(actions, n);
        assert actions[..n + 1][..n] == actions[..n];
        if a.StageBootConfig? {
          if a in broken {
            card := AfterFault(card, node, h, a, broken[a]);
            e := Some(Io);
            return;
          }
          assert (StagesOf(actions[..n]) + [a])[..|StagesOf(actions[..n])|] == StagesOf(actions[..n]);
          card := Apply(card, node, h, a);
          if Unnamed(a) {
            e := Some(Unverified);
            return;
          }
        }
        n := n + 1;
      }
      assert actions[..n] == actions;
    }

    /** One partition's group under a single mount, stopping at the first failure. */
    method RunGroup(node: Option<ChainInfo>, h: Hidden, mounted: Partition, group: seq<RepairAction>, broken: Faults)
      returns (e: Option<ExecError>, n: nat)
      modifies this
      ensures n <= |group| && (e.None? ==> n == |group| && card == ApplyAll(old(card), node, h, group))
      ensures e.Some? ==>
                && n < |group| && e == Refusal(ApplyAll(old(card), node, h, group[..n]), node, mounted, group[n], broken)
                && card == if e == Some(Io)
                           then AfterFault(ApplyAll(old(card), node, h, group[..n]), node, h, group[n], broken[group[n]])
                           else ApplyAll(old(card), node, h, group[..n])
    {
      e, n := None, 0;
      while n < |group|
        invariant n <= |group| && e.None?
        invariant card == ApplyAll(old(card), node, h, group[..n])
      {
        e := ApplyAction(node, h, mounted, group[n], broken);
        if e.Some? {
          return;
        }
        assert group[..n + 1][..n] == group[..n];
        n := n + 1;
      }
      assert group[..n] == group;
    }

    /** The keys, data and boot groups in turn, after the stagings. */
    method RunGroups(node: Option<ChainInfo>, h: Hidden, actions: seq<RepairAction>, broken: Faults, ghost start: CardState, staged: seq<RepairAction>)
      returns (e: Option<ExecError>, applied: seq<RepairAction>, failed: Option<RepairAction>)
      requires Ran(actions, staged, []) && card == ApplyAll(start, node, h, staged)
      modifies this
      ensures failed.Some? <==> e == Some(Io)
      ensures failed.Some? ==> failed.value in actions && failed.value in broken
      ensures card == Outcome(start, node, h, applied, failed, broken)
      ensures forall a | a in applied :: a in actions
      ensures e != Some(StageOnMount) && e != Some(Unverified)
      ensures e.None? ==> SameActions(actions, applied)
      ensures failed.Some? ==> !failed.value.StageBootConfig? && EarlierDone(actions, applied, failed.value)
      ensures Executable(start, node, actions) ==> (e.None? || e == Some(Io)) && (failed.Some? ==> failed.value !in applied)
    {
      applied, failed, e := staged, None, None;
      var order := [Keys, Data, Boot];
      for p := 0 to 3
        invariant e.None? && failed.None?
        invariant card == ApplyAll(start, node, h, applied)
        invariant Ran(actions, applied, order[..p])
      {
        var n;
        var group := GroupOf(actions, order[p]);
        ghost var before := applied;
        e, n := RunGroup(node, h, order[p], group, broken);
        if e.Some? {
          GroupStopped(start, node, h, actions, before, order[..p], order[p], n, broken);
          StoppedInOrder(actions, before, order[..p], order[p], n);
          applied := applied + group[..n];
          failed := if e == Some(Io) then Some(group[n]) else None;
          return;
        }
        applied := applied + group;
        ApplyAllConcat(start, node, h, before, group);
        assert order[..p + 1] == order[..p] + [order[p]];
        RanGroup(actions, before, order[..p], order[p]);
      }
      assert order[..3] == order && forall a :: ActionPartition(a) in order;
    }

    /**
     * Stagings first, then the keys, data and boot groups. Whatever fails, the card is the result
     * of some of the confirmed actions and at most one half-done one; and when nothing fails, of all
     * of them in list order.
     */
    method ExecuteRepairs(node: Option<ChainInfo>, h: Hidden, actions: seq<RepairAction>, broken: Faults)
      returns (e: Option<ExecError>, applied: seq<RepairAction>, failed: Option<RepairAction>)
      modifies this
      ensures failed.Some? <==> e == Some(Io)
      ensures failed.Some? ==> failed.value in actions && failed.value in broken
      ensures card == Outcome(old(card), node, h, applied, failed, broken)
      ensures forall a | a in applied :: a in actions
      ensures e != Some(StageOnMount) && (e.None? ==> AllNamed(actions)) && (e == Some(Unverified) ==> !AllNamed(actions))
      ensures e.None? && Compatible(actions, node) ==> card == ApplyAll(old(card), node, h, actions)
      ensures Executable(old(card), node, actions) ==>
                && (e.None? || e == Some(Io) || (e == Some(Unverified) && exists a :: a in actions && Unnamed(a)))
                && (failed.Some? ==> failed.value !in applied)
                && (failed.Some? && failed.value.StageBootConfig? ==> applied == [])
      ensures failed.Some? && !failed.value.StageBootConfig? ==> EarlierDone(actions, applied, failed.value)
    {
      var n;
      e, n := RunStages(node, h, actions, broken);
      if e == Some(Io) {
        StagesBefore(actions, n);
        if Executable(old(card), node, actions) {
          NoStageBefore(old(card), node, actions, n);
        }
        return e, StagesOf(actions[..n]), Some(actions[n]);
      }
      if e == Some(Unverified) {
        assert actions[n] in actions;
        StagesMembership(actions[..n + 1]);
        return e, StagesOf(actions[..n + 1]), None;
      }
      StagesMembership(actions);
      e, applied, failed := RunGroups(node, h, actions, broken, old(card), StagesOf(actions));
      if e.None? && Compatible(actions, node) {
        OrderIrrelevant(old(card), node, h, actions, applied);
      }
    }
  }

  lemma NextTargetThere(c: CardState, node: Option<ChainInfo>, h: Hidden, actions: seq<RepairAction>, done: seq<RepairAction>, a: RepairAction)
    requires Compatible(actions, node) && a in actions && TargetThere(c, a)
    requires a !in done && forall x | x in done :: x in actions
    ensures TargetThere(ApplyAll(c, node, h, done), a)
  {
    assert Compatible(done, node);
    TargetStays(c, node, h, done, a);
  }
}
