/**
 * What the key-rotation workflow has established whenever it acts, over every run of invocations,
 * errors and crashes (host-utility/src/rotate_keys.rs).
 */
module RotationRuns {
  import opened Prelude
  import opened Rotation

  // ---------------------------------------------------------------------------
  // Where a rotation stands
  // ---------------------------------------------------------------------------

  predicate HasBackup(m: Aliases) {
    Old(Consensus) in m || Old(Companion) in m
  }

  predicate HasPending(m: Aliases) {
    Pending(Consensus) in m || Pending(Companion) in m
  }

  /** The chain already signs with the pending consensus key; without that alias nothing compares equal but an empty hash. */
  predicate PendingIsActive(m: Aliases, active: Option<Hash>) {
    active.Some? && if Pending(Consensus) in m then active.value == m[Pending(Consensus)] else active.value == ""
  }

  /** What detection answers, state by state; `None` is the error that ends the invocation. */
  predicate Recognised(m: Aliases, status: Option<ChainStatus>, active: Option<Hash>, st: Option<RotationState>) {
    match st
    case Some(PartialSwap) => HasBackup(m)
    case Some(PendingActivation(cycle)) => !HasBackup(m) && HasPending(m) && status == Some(ChainStatus(true, Some(cycle)))
    case Some(PendingOnChainOnly(cycle)) => !HasBackup(m) && !HasPending(m) && status == Some(ChainStatus(true, Some(cycle)))
    case Some(KeysActivatedNeedSwap) => !HasBackup(m) && HasPending(m) && status.Some? && !status.value.pending && PendingIsActive(m, active)
    case Some(KeysImported) =>
      !HasBackup(m) && HasPending(m) && status.Some? && !status.value.pending && active.Some? && !PendingIsActive(m, active)
    case Some(Clean) => !HasBackup(m) && !HasPending(m) && status.Some? && !status.value.pending
    case None =>
      !HasBackup(m) && (|| status.None? || (status.value.pending && status.value.cycle.None?)
                        || (!status.value.pending && HasPending(m) && active.None?))
  }

  /** Detection gives exactly the recognised answer. */
  lemma DetectExact(m: Aliases, status: Option<ChainStatus>, active: Option<Hash>, st: Option<RotationState>)
    ensures DetectState(m, status, active) == st <==> Recognised(m, status, active, st)
  {
  }

  // ---------------------------------------------------------------------------
  // Every event of a run is justified by what its own invocation did before
  // ---------------------------------------------------------------------------

  /** Detection `j` belongs to the invocation that reaches position `i` of the log. */
  ghost predicate Within(log: seq<Event>, j: int, i: int) {
    0 <= j < i <= |log| && log[j].Detected? && forall k | j < k < i :: !log[k].Stopped? && !log[k].Detected?
  }

  predicate IsImport(e: Event) {
    e.Imported?
  }

  predicate IsSubmission(e: Event) {
    e.Submitted?
  }

  predicate IsFoundPending(e: Event) {
    e.FoundPending?
  }

  predicate IsActivation(e: Event) {
    e.Activated?
  }

  ghost predicate Seen(log: seq<Event>, j: int, i: int, p: Event -> bool) {
    exists k :: 0 <= j < k < i <= |log| && p(log[k])
  }

  /** The new keys are pending on chain: they were found so, or this invocation submitted them. */
  ghost predicate MayWait(log: seq<Event>, j: int, i: int)
    requires 0 <= j < |log| && log[j].Detected?
  {
    log[j].state.PendingActivation? || Seen(log, j, i, IsSubmission) || Seen(log, j, i, IsFoundPending)
  }

  /** States in which nothing has been swapped and the new keys are not in use. */
  predicate Unswapped(st: RotationState) {
    !st.PartialSwap? && !st.KeysActivatedNeedSwap?
  }

  predicate AllFour(m: Aliases) {
    Live(Consensus) in m && Live(Companion) in m && Pending(Consensus) in m && Pending(Companion) in m
  }

  ghost predicate JustifiedBy(log: seq<Event>, i: int, j: int)
    requires 0 <= i < |log| && Within(log, j, i)
  {
    match log[i]
    case Cleared(_, _) => Unswapped(log[j].state) && !log[j].state.Clean?
    case Imported(_, _) => Unswapped(log[j].state)
    case FoundPending => Unswapped(log[j].state)
    case Submitted => log[j].state.KeysImported? || Seen(log, j, i, IsImport)
    case Activated => MayWait(log, j, i)
    case PromotionBegan(m) =>
      AllFour(m) && !HasBackup(m) && ((log[j].state.KeysActivatedNeedSwap? && m == log[j].wallet) || Seen(log, j, i, IsActivation))
    case RollbackBegan => log[j].state.PartialSwap? && log[i - 1].Unverified?
    case _ => true
  }

  ghost predicate Justified(log: seq<Event>, i: int)
    requires 0 <= i < |log|
  {
    match log[i]
    case Stopped => true
    case Detected(m, status, active, st) => Recognised(m, status, active, Some(st))
    case _ => exists j :: Within(log, j, i) && JustifiedBy(log, i, j)
  }

  lemma JustifiedStable(log: seq<Event>, e: Event, i: int)
    requires 0 <= i < |log| && Justified(log, i)
    ensures Justified(log + [e], i)
  {
    if !log[i].Stopped? && !log[i].Detected? {
      var j :| Within(log, j, i) && JustifiedBy(log, i, j);
      var more := log + [e];
      assert Within(more, j, i);
      SeenStable(log, e, j, i, IsImport);
      SeenStable(log, e, j, i, IsSubmission);
      SeenStable(log, e, j, i, IsFoundPending);
      SeenStable(log, e, j, i, IsActivation);
      assert JustifiedBy(more, i, j);
    }
  }

  lemma SeenStable(log: seq<Event>, e: Event, j: int, i: int, p: Event -> bool)
    requires 0 <= j < i <= |log|
    ensures Seen(log, j, i, p) ==> Seen(log + [e], j, i, p) && Seen(log + [e], j, i + 1, p)
    ensures i == |log| && p(e) ==> Seen(log + [e], j, i + 1, p)
  {
    var more := log + [e];
    if k :| 0 <= j < k < i <= |log| && p(log[k]) {
      assert p(more[k]);
    }
    if i == |log| && p(e) {
      assert p(more[i]);
    }
  }

  // ---------------------------------------------------------------------------
  // The invariant
  // ---------------------------------------------------------------------------

  /** What an invocation that detected at `j` has established when it is at its present point. */
  ghost predicate Established(w: World, j: int)
    requires Within(w.log, j, |w.log|)
  {
    var st, n := w.log[j].state, |w.log|;
    match w.pc
    case Decided(state, _, _) => state == st && w.aliases == w.log[j].wallet && Recognised(w.log[j].wallet, w.log[j].status, w.log[j].active, Some(st))
    case Clearing(_, restart, _) => Unswapped(st) && !st.Clean? && (!restart ==> st.KeysImported?)
    case Connecting(_, _) => Unswapped(st)
    case Importing(_, _, _, submit) => Unswapped(st) && (!submit ==> Seen(w.log, j, n, IsFoundPending))
    case Submitting => st.KeysImported? || Seen(w.log, j, n, IsImport)
    case Monitoring => MayWait(w.log, j, n)
    case SwapReady =>
      (st.KeysActivatedNeedSwap? && w.aliases == w.log[j].wallet) || Seen(w.log, j, n, IsActivation)
    case Starting(resumed) => resumed ==> st.PartialSwap?
    case Verifying(resumed) => resumed ==> st.PartialSwap?
    case AskRollback => st.PartialSwap? && w.log[n - 1].Unverified?
    case _ => true
  }

  ghost predicate Begun(pc: Pc) {
    !pc.Idle? && !pc.Probing?
  }

  ghost predicate Sound(w: World) {
    && (forall i | 0 <= i < |w.log| :: Justified(w.log, i))
    && (Begun(w.pc) ==> exists j :: Within(w.log, j, |w.log|) && Established(w, j))
  }

  lemma LogSound(log: seq<Event>, e: Event)
    requires (forall i | 0 <= i < |log| :: Justified(log, i)) && Justified(log + [e], |log|)
    ensures forall i | 0 <= i < |log + [e]| :: Justified(log + [e], i)
  {
    forall i | 0 <= i < |log| {
      JustifiedStable(log, e, i);
    }
  }

  lemma HaltSound(w: World)
    requires forall i | 0 <= i < |w.log| :: Justified(w.log, i)
    ensures Sound(Halt(w))
  {
    LogSound(w.log, Stopped);
  }

  /** An invocation goes on and logs what it did. */
  lemma GoesOn(w: World, w': World, j: int, e: Event)
    requires Sound(w) && Within(w.log, j, |w.log|) && w'.log == w.log + [e] && !e.Stopped? && !e.Detected?
    requires Within(w'.log, j, |w.log|) && JustifiedBy(w'.log, |w.log|, j)
    requires Within(w'.log, j, |w'.log|) ==> Established(w', j)
    ensures Sound(w')
  {
    assert Within(w'.log, j, |w'.log|);
    assert Justified(w'.log, |w.log|);
    LogSound(w.log, e);
  }

  lemma LogWithin(log: seq<Event>, j: int, e: Event)
    requires Within(log, j, |log|)
    ensures Within(log + [e], j, |log|)
    ensures !e.Stopped? && !e.Detected? ==> Within(log + [e], j, |log| + 1)
    ensures (log + [e])[j] == log[j] && (log + [e])[|log|] == e
    ensures forall p: Event -> bool :: Seen(log, j, |log|, p) ==> Seen(log + [e], j, |log|, p) && Seen(log + [e], j, |log| + 1, p)
    ensures forall p: Event -> bool :: p(e) ==> Seen(log + [e], j, |log| + 1, p)
  {
    forall p: Event -> bool {
      SeenStable(log, e, j, |log|, p);
    }
  }

  lemma DetectSound(w: World, l: Label)
    requires Sound(w) && w.pc.Probing? && l.Detect?
    ensures Sound(Step(w, l))
  {
    var w' := Step(w, l);
    HaltSound(w);
    if w'.pc.Decided? {
      DetectExact(w.aliases, l.status, l.active, Some(w'.pc.state));
      LogSound(w.log, w'.log[|w.log|]);
      assert Within(w'.log, |w.log|, |w'.log|) && Established(w', |w.log|);
    }
  }

  lemma HandleSound(w: World, l: Label, j: int)
    requires Sound(w) && w.pc.Decided? && l.Handle? && Within(w.log, j, |w.log|) && Established(w, j)
    ensures Sound(Step(w, l))
  {
    HaltSound(w);
    var w' := Step(w, l);
    if Begun(w'.pc) {
      assert Within(w'.log, j, |w'.log|) && Established(w', j);
    }
  }

  lemma PreparingSound(w: World, l: Label, j: int)
    requires Sound(w) && (w.pc.Clearing? || w.pc.Connecting? || w.pc.Importing?) && Within(w.log, j, |w.log|) && Established(w, j)
    requires !l.Stop?
    ensures Sound(Step(w, l))
  {
    HaltSound(w);
    var w' := Step(w, l);
    if Begun(w'.pc) {
      if w'.log == w.log {
        assert Within(w'.log, j, |w'.log|) && Established(w', j);
      } else {
        var e := w'.log[|w.log|];
        LogWithin(w.log, j, e);
        assert IsImport(e) == e.Imported? && IsFoundPending(e) == e.FoundPending?;
        GoesOn(w, w', j, e);
      }
    }
  }

  lemma WaitingSound(w: World, l: Label, j: int)
    requires Sound(w) && (w.pc.Submitting? || w.pc.Monitoring?) && Within(w.log, j, |w.log|) && Established(w, j)
    requires !l.Stop?
    ensures Sound(Step(w, l))
  {
    HaltSound(w);
    var w' := Step(w, l);
    if Begun(w'.pc) && w'.log != w.log {
      var e := w'.log[|w.log|];
      LogWithin(w.log, j, e);
      assert IsSubmission(e) == e.Submitted? && IsActivation(e) == e.Activated?;
      GoesOn(w, w', j, e);
    }
  }

  lemma SwappingSound(w: World, l: Label, j: int)
    requires Sound(w) && Inv(w) && w.pc.SwapReady? && Within(w.log, j, |w.log|) && Established(w, j)
    requires !l.Stop?
    ensures Sound(Step(w, l))
  {
    HaltSound(w);
    var w' := Step(w, l);
    if Begun(w'.pc) && w'.log != w.log {
      var e := w'.log[|w.log|];
      LogWithin(w.log, j, e);
      GoesOn(w, w', j, e);
    }
  }

  lemma RenamingSound(w: World, l: Label, j: int)
    requires Sound(w) && (w.pc.Promoting? || w.pc.Undoing? || w.pc.RollingBack?) && Within(w.log, j, |w.log|) && !l.Stop?
    ensures Sound(Step(w, l))
  {
    HaltSound(w);
    var w' := Step(w, l);
    HaltSound(w.(aliases := w'.aliases));
    if Begun(w'.pc) {
      assert Within(w'.log, j, |w'.log|) && Established(w', j);
    }
  }

  lemma VerifyingSound(w: World, l: Label, j: int)
    requires Sound(w) && w.pc.Verifying? && l.Verify? && Within(w.log, j, |w.log|) && Established(w, j)
    ensures Sound(Step(w, l))
  {
    var w' := Step(w, l);
    var e := w'.log[|w.log|];
    LogWithin(w.log, j, e);
    var w1 := World(w.aliases, if e.Verified? then AskCleanup else AskRollback, w.log + [e]);
    if e.Verified? || w.pc.resumed {
      assert w' == w1;
      GoesOn(w, w', j, e);
    } else {
      assert Justified(w.log + [e], |w.log|) by {
        assert JustifiedBy(w.log + [e], |w.log|, j);
      }
      LogSound(w.log, e);
      HaltSound(w.(log := w.log + [e]));
    }
  }

  lemma FinishingSound(w: World, l: Label, j: int)
    requires Sound(w) && (w.pc.Starting? || w.pc.AskCleanup? || w.pc.Cleaning? || w.pc.AskRollback?)
    requires Within(w.log, j, |w.log|) && Established(w, j) && !l.Stop?
    ensures Sound(Step(w, l))
  {
    HaltSound(w);
    var w' := Step(w, l);
    if Begun(w'.pc) {
      if w'.log == w.log {
        assert Within(w'.log, j, |w'.log|) && Established(w', j);
      } else {
        var e := w'.log[|w.log|];
        LogWithin(w.log, j, e);
        GoesOn(w, w', j, e);
      }
    }
  }

  lemma StepSound(w: World, l: Label)
    requires Sound(w) && Inv(w)
    ensures Sound(Step(w, l))
  {
    HaltSound(w);
    if !l.Stop? {
      if w.pc.Probing? {
        if l.Detect? {
          DetectSound(w, l);
        }
      } else if !w.pc.Idle? {
        var j :| Within(w.log, j, |w.log|) && Established(w, j);
        match w.pc
        case Decided(_, _, _) => if l.Handle? { HandleSound(w, l, j); }
        case Clearing(_, _, _) => PreparingSound(w, l, j);
        case Connecting(_, _) => PreparingSound(w, l, j);
        case Importing(_, _, _, _) => PreparingSound(w, l, j);
        case Submitting => WaitingSound(w, l, j);
        case Monitoring => WaitingSound(w, l, j);
        case SwapReady => SwappingSound(w, l, j);
        case Promoting(_) => RenamingSound(w, l, j);
        case Undoing(_) => RenamingSound(w, l, j);
        case RollingBack(_) => RenamingSound(w, l, j);
        case Verifying(_) => if l.Verify? { VerifyingSound(w, l, j); }
        case _ => FinishingSound(w, l, j);
      }
    }
  }

  lemma {:induction false} RunSound(w: World, ls: seq<Label>)
    requires Sound(w) && Inv(w)
    ensures Sound(Run(w, ls))
    decreases |ls|
  {
    if ls != [] {
      StepSound(w, ls[0]);
      StepKeeps(w, ls[0]);
      RunSound(Step(w, ls[0]), ls[1..]);
    }
  }

  /** Over every run, every event is justified by what its own invocation detected and did before it. */
  lemma EveryEventJustified(w: World, ls: seq<Label>, i: nat)
    requires Rotation.Initial(w) && i < |Run(w, ls).log|
    ensures Justified(Run(w, ls).log, i)
  {
    RunSound(w, ls);
  }

  /**
   * A promotion begins only with all four aliases and no backup, and only once the new keys are in
   * use: the invocation saw them activate, or found the pending consensus key active on chain.
   */
  lemma SwapsOnlyActivated(w: World, ls: seq<Label>, i: nat)
    requires Rotation.Initial(w) && i < |Run(w, ls).log| && Run(w, ls).log[i].PromotionBegan?
    ensures var (log, m) := (Run(w, ls).log, Run(w, ls).log[i].wallet);
            && AllFour(m) && !HasBackup(m)
            && exists j :: Within(log, j, i) && (Seen(log, j, i, IsActivation) || log[j].active == Some(m[Pending(Consensus)]))
  {
    var log := Run(w, ls).log;
    EveryEventJustified(w, ls, i);
    var j :| Within(log, j, i) && JustifiedBy(log, i, j);
    EveryEventJustified(w, ls, j);
  }

  /** Keys are submitted only when this invocation imported them, or found them imported and not in use. */
  lemma SubmitsOnlyInactive(w: World, ls: seq<Label>, i: nat)
    requires Rotation.Initial(w) && i < |Run(w, ls).log| && Run(w, ls).log[i].Submitted?
    ensures var log := Run(w, ls).log;
            exists j :: Within(log, j, i)
              && (Seen(log, j, i, IsImport) || (HasPending(log[j].wallet) && !HasBackup(log[j].wallet) && !PendingIsActive(log[j].wallet, log[j].active)))
  {
    var log := Run(w, ls).log;
    EveryEventJustified(w, ls, i);
    var j :| Within(log, j, i) && JustifiedBy(log, i, j);
    EveryEventJustified(w, ls, j);
  }

  // ---------------------------------------------------------------------------
  // From every recognised state the rotation can be carried to the same end
  // ---------------------------------------------------------------------------

  /** The wallet after a completed rotation: both live aliases carry the new keys, and nothing else is left. */
  ghost predicate Rotated(m: Aliases, c: Hash, k: Hash) {
    m == map[Live(Consensus) := c, Live(Companion) := k]
  }

  ghost predicate NewKeysPending(m: Aliases, c: Hash, k: Hash) {
    AllFour(m) && !HasBackup(m) && m[Pending(Consensus)] == c && m[Pending(Companion)] == k
  }

  /** Some continuation of this invocation completes the rotation to these keys. */
  ghost predicate CanFinish(w: World, c: Hash, k: Hash) {
    exists ls: seq<Label> :: OneInvocation(ls) && Run(w, ls).pc.Idle? && Rotated(Run(w, ls).aliases, c, k)
  }

  lemma FinishAfter(w: World, l: Label, c: Hash, k: Hash)
    requires !l.Start? && CanFinish(Step(w, l), c, k)
    ensures CanFinish(w, c, k)
  {
    var ls :| OneInvocation(ls) && Run(Step(w, l), ls).pc.Idle? && Rotated(Run(Step(w, l), ls).aliases, c, k);
    RunCons(w, l, ls);
    assert OneInvocation([l] + ls);
  }

  /** Verification, consent and the removal of both backups. */
  lemma CleanupFinishes(w: World, c: Hash, k: Hash)
    requires w.pc.Starting? && Live(Consensus) in w.aliases && Live(Companion) in w.aliases && !HasPending(w.aliases)
    requires w.aliases[Live(Consensus)] == c && w.aliases[Live(Companion)] == k
    ensures CanFinish(w, c, k)
  {
    var y, v := Answer(true), Verify(true, {c}, Some(c));
    var w1 := Step(Step(Step(w, y), v), y);
    assert w1.pc == Cleaning([Consensus, Companion]) && w1.aliases == w.aliases;
    var w2 := Step(w1, y);
    var w3 := Step(w2, y);
    assert w3.pc == Cleaning([]) && w3.aliases == w.aliases - {Old(Consensus), Old(Companion)};
    RotatedWhenBare(w3.aliases, c, k);
    RunCons(w3, y, []);
    assert CanFinish(w3, c, k) by {
      assert OneInvocation([y]) && [y] + [] == [y] && Run(w3, [y]) == Halt(w3);
    }
    FinishAfter(w2, y, c, k);
    FinishAfter(w1, y, c, k);
    FinishAfter(Step(Step(w, y), v), y, c, k);
    FinishAfter(Step(w, y), v, c, k);
    FinishAfter(w, y, c, k);
  }

  lemma RotatedWhenBare(m: Aliases, c: Hash, k: Hash)
    requires Live(Consensus) in m && Live(Companion) in m && !HasPending(m) && !HasBackup(m)
    requires m[Live(Consensus)] == c && m[Live(Companion)] == k
    ensures Rotated(m, c, k)
  {
    forall a
      ensures a in m <==> a == Live(Consensus) || a == Live(Companion)
    {
      match a
      case Live(r) => match r { case Consensus => case Companion => }
      case Pending(r) => match r { case Consensus => case Companion => }
      case Old(r) => match r { case Consensus => case Companion => }
    }
  }

  /** The swap: four renames. */
  lemma SwapFinishes(w: World, c: Hash, k: Hash)
    requires w.pc.SwapReady? && NewKeysPending(w.aliases, c, k)
    ensures CanFinish(w, c, k)
  {
    var t := TryRename(Applied);
    var w1 := Step(w, Answer(true));
    var w2 := Step(w1, t);
    var w3 := Step(w2, t);
    var w4 := Step(w3, t);
    var w5 := Step(w4, t);
    assert w5.pc == Starting(false) && !HasPending(w5.aliases);
    CleanupFinishes(w5, c, k);
    FinishAfter(w4, t, c, k);
    FinishAfter(w3, t, c, k);
    FinishAfter(w2, t, c, k);
    FinishAfter(w1, t, c, k);
    FinishAfter(w, Answer(true), c, k);
  }

  lemma WaitFinishes(w: World, c: Hash, k: Hash)
    requires (w.pc.Monitoring? || w.pc.Submitting?) && NewKeysPending(w.aliases, c, k)
    ensures CanFinish(w, c, k)
  {
    var y := Answer(true);
    if w.pc.Monitoring? {
      SwapFinishes(Step(w, y), c, k);
    } else {
      SwapFinishes(Step(Step(w, y), y), c, k);
      FinishAfter(Step(w, y), y, c, k);
    }
    FinishAfter(w, y, c, k);
  }

  /** Importing two keys sets exactly the two pending aliases. */
  lemma ImportsBoth(w: World, c: Hash, k: Hash, submit: bool)
    requires w.pc == Importing(c, k, [Consensus, Companion], submit)
    ensures var w' := Step(Step(Step(w, Answer(true)), Answer(true)), Answer(true));
            w'.aliases == w.aliases[Pending(Consensus) := c][Pending(Companion) := k] && w'.pc == if submit then Submitting else Monitoring
  {
  }

  lemma ConnectFinishes(w: World, c: Hash, k: Hash)
    requires w.pc.Connecting? && !w.pc.dry && Live(Consensus) in w.aliases && Live(Companion) in w.aliases && !HasBackup(w.aliases)
    ensures CanFinish(w, c, k)
  {
    var y, l := Answer(true), Connect(c, k, true);
    var w1 := Step(w, l);
    assert w1.pc == Importing(c, k, [Consensus, Companion], !w.pc.pending) && w1.aliases == w.aliases;
    ImportsBoth(w1, c, k, !w.pc.pending);
    WaitFinishes(Step(Step(Step(w1, y), y), y), c, k);
    FinishAfter(Step(Step(w1, y), y), y, c, k);
    FinishAfter(Step(w1, y), y, c, k);
    FinishAfter(w1, y, c, k);
    FinishAfter(w, l, c, k);
  }

  /** A resumed swap that had completed its renames. */
  lemma ResumeFinishes(w: World, c: Hash, k: Hash)
    requires w.pc.Decided? && w.pc.state.PartialSwap? && !w.pc.replace && Live(Consensus) in w.aliases && Live(Companion) in w.aliases
    requires !HasPending(w.aliases) && w.aliases[Live(Consensus)] == c && w.aliases[Live(Companion)] == k
    ensures CanFinish(w, c, k)
  {
    CleanupFinishes(Step(w, Handle(true)), c, k);
    FinishAfter(w, Handle(true), c, k);
  }

  /**
   * Whatever state is recognised short of a swap, going along with it completes the rotation: to the
   * keys pending in the wallet when there are any, to the connected device's keys otherwise.
   */
  lemma EveryStateFinishes(w: World, status: Option<ChainStatus>, active: Option<Hash>, c: Hash, k: Hash)
    requires w.pc.Decided? && !w.pc.replace && !w.pc.dry && Recognised(w.aliases, status, active, Some(w.pc.state)) && !w.pc.state.PartialSwap?
    requires Live(Consensus) in w.aliases && Live(Companion) in w.aliases && (HasPending(w.aliases) ==> NewKeysPending(w.aliases, c, k))
    ensures CanFinish(w, c, k)
  {
    var y := Handle(true);
    var w' := Step(w, y);
    match w.pc.state
    case Clean => ConnectFinishes(w', c, k); FinishAfter(w, y, c, k);
    case PendingOnChainOnly(_) => ConnectFinishes(w', c, k); FinishAfter(w, y, c, k);
    case KeysImported => WaitFinishes(w', c, k); FinishAfter(w, y, c, k);
    case PendingActivation(_) => WaitFinishes(w', c, k); FinishAfter(w, y, c, k);
    case KeysActivatedNeedSwap => SwapFinishes(w', c, k); FinishAfter(w, y, c, k);
  }

  /** With `--replace`, pending keys are cleared and a fresh rotation follows; a swap under way is refused. */
  lemma ReplaceStartsOver(w: World, status: Option<ChainStatus>, active: Option<Hash>, agree: bool, c: Hash, k: Hash)
    requires w.pc.Decided? && w.pc.replace && !w.pc.dry && Recognised(w.aliases, status, active, Some(w.pc.state))
    requires Live(Consensus) in w.aliases && Live(Companion) in w.aliases
    ensures HasBackup(w.aliases) || w.pc.state.KeysActivatedNeedSwap? ==> Step(w, Handle(agree)) == Halt(w)
    ensures !HasBackup(w.aliases) && !w.pc.state.KeysActivatedNeedSwap? ==> CanFinish(w, c, k)
  {
    if !HasBackup(w.aliases) && !w.pc.state.KeysActivatedNeedSwap? {
      var y, h := Answer(true), Handle(agree);
      var w1 := Step(w, h);
      if w1.pc.Clearing? {
        var w4 := Step(Step(Step(w1, y), y), y);
        assert w4.pc == Connecting(false, false) && w4.aliases == w.aliases - {Pending(Consensus)} - {Pending(Companion)};
        ConnectFinishes(w4, c, k);
        FinishAfter(Step(Step(w1, y), y), y, c, k);
        FinishAfter(Step(w1, y), y, c, k);
        FinishAfter(w1, y, c, k);
      } else {
        ConnectFinishes(w1, c, k);
      }
      FinishAfter(w, h, c, k);
    }
  }

  /** Declining to go on clears both pending aliases, changes nothing else and ends there; declining elsewhere changes nothing. */
  lemma DeclineEnds(w: World)
    requires w.pc.Decided? && !w.pc.replace
    ensures w.pc.state.KeysImported? ==>
              var w' := Run(Step(w, Handle(false)), [Answer(true), Answer(true), Answer(true)]);
              w'.pc.Idle? && w'.aliases == w.aliases - {Pending(Consensus), Pending(Companion)}
    ensures w.pc.state.PendingOnChainOnly? || w.pc.state.KeysActivatedNeedSwap? ==> Step(w, Handle(false)) == Halt(w)
  {
    if w.pc.state.KeysImported? {
      RunThree(Step(w, Handle(false)), Answer(true), Answer(true), Answer(true));
    }
  }

  /** Whatever is asked for, a "no", an error or a cancellation ends the invocation with the wallet as it is. */
  lemma NoEndsIt(w: World)
    requires w.pc.Clearing? || w.pc.Importing? || w.pc.Submitting? || w.pc.Monitoring? || w.pc.SwapReady? || w.pc.Starting? || w.pc.AskCleanup? || w.pc.AskRollback?
    ensures Step(w, Answer(false)) == Halt(w) && Step(w, Stop) == Halt(w)
  {
  }

  /** A failed check offers the rollback only to a resumed swap; after a fresh one it ends the invocation. */
  lemma FailedCheck(w: World, l: Label)
    requires w.pc.Verifying? && l.Verify? && Live(Consensus) in w.aliases
    requires !(l.alive && w.aliases[Live(Consensus)] in l.signer && l.active == Some(w.aliases[Live(Consensus)]))
    ensures Step(w, l).aliases == w.aliases && Step(w, l).pc == if w.pc.resumed then AskRollback else Idle
  {
  }

  /** An invocation that is not ready, or on a wallet without a live consensus alias, does not begin. */
  lemma NotReady(w: World, l: Label)
    requires w.pc.Idle? && l.Start? && !(l.ready && Live(Consensus) in w.aliases)
    ensures Step(w, l) == w
  {
  }
}
