/**
 * The key-rotation workflow as a state machine over whole runs: invocations, their steps, errors,
 * crashes and re-runs (host-utility/src/rotate_keys.rs). The wallet is seen through exact alias
 * probes, as a map from aliases to key hashes; nodes, signers and operators answer arbitrarily.
 */
module Rotation {
  import opened Prelude

  type Hash = string

  datatype Role = Consensus | Companion

  datatype Alias = Live(role: Role) | Pending(role: Role) | Old(role: Role)

  type Aliases = map<Alias, Hash>

  predicate OldExist(m: Aliases) {
    Old(Consensus) in m || Old(Companion) in m
  }

  predicate PendingExist(m: Aliases) {
    Pending(Consensus) in m || Pending(Companion) in m
  }

  // ---------------------------------------------------------------------------
  // Recognising where a rotation stands
  // ---------------------------------------------------------------------------

  datatype RotationState =
    | Clean
    | KeysImported
    | PendingActivation(cycle: int)
    | PendingOnChainOnly(cycle: int)
    | KeysActivatedNeedSwap
    | PartialSwap

  /** What the node reports about the delegate's keys; `None` when the query fails. */
  datatype ChainStatus = ChainStatus(pending: bool, cycle: Option<int>)

  /** From the end of the workflow backwards; `None` is an error that ends the invocation. */
  function DetectState(m: Aliases, status: Option<ChainStatus>, active: Option<Hash>): Option<RotationState> {
    if OldExist(m) then Some(PartialSwap)
    else if status.None? then None
    else if status.value.pending then
      if status.value.cycle.None? then None
      else if PendingExist(m) then Some(PendingActivation(status.value.cycle.value))
      else Some(PendingOnChainOnly(status.value.cycle.value))
    else if PendingExist(m) then
      if active.None? then None
      else if active.value == (if Pending(Consensus) in m then m[Pending(Consensus)] else "") then Some(KeysActivatedNeedSwap)
      else Some(KeysImported)
    else Some(Clean)
  }

  /** The gate before any backup is forgotten. */
  predicate SigningVerified(alive: bool, signerHolds: bool, active: Option<Hash>, expected: Hash) {
    alive && signerHolds && active == Some(expected)
  }

  // ---------------------------------------------------------------------------
  // One invocation
  // ---------------------------------------------------------------------------

  datatype Rename = Rename(from: Alias, to: Alias)

  const BACKUP_CONSENSUS := Rename(Live(Consensus), Old(Consensus))
  const BACKUP_COMPANION := Rename(Live(Companion), Old(Companion))
  const RESTORE_CONSENSUS := Rename(Old(Consensus), Live(Consensus))
  const RESTORE_COMPANION := Rename(Old(Companion), Live(Companion))
  const PROMOTE_CONSENSUS := Rename(Pending(Consensus), Live(Consensus))
  const PROMOTE_COMPANION := Rename(Pending(Companion), Live(Companion))
  const DEMOTE_CONSENSUS := Rename(Live(Consensus), Pending(Consensus))

  /** The four renames of a promotion, and what undoes a failure of each. */
  function Forward(step: nat): Rename {
    if step == 1 then BACKUP_CONSENSUS
    else if step == 2 then BACKUP_COMPANION
    else if step == 3 then PROMOTE_CONSENSUS
    else PROMOTE_COMPANION
  }

  function UndoAfter(step: nat): seq<Rename> {
    if step <= 1 then []
    else if step == 2 then [RESTORE_CONSENSUS]
    else if step == 3 then [RESTORE_CONSENSUS, RESTORE_COMPANION]
    else [DEMOTE_CONSENSUS, RESTORE_CONSENSUS, RESTORE_COMPANION]
  }

  /** Where an invocation is. */
  datatype Pc =
    | Idle
    | Probing(replace: bool, dry: bool)
    | Decided(state: RotationState, replace: bool, dry: bool)
    | Clearing(left: seq<Role>, restart: bool, dry: bool)
    | Connecting(dry: bool, pending: bool)
    | Importing(consensus: Hash, companion: Hash, left: seq<Role>, submit: bool)
    | Submitting
    | Monitoring
    | SwapReady
    | Promoting(step: nat)
    | Undoing(ops: seq<Rename>)
    | Starting(resumed: bool)
    | Verifying(resumed: bool)
    | AskCleanup
    | Cleaning(left: seq<Role>)
    | AskRollback
    | RollingBack(ops: seq<Rename>)

  /** A rename may report failure after it already changed the primary file. */
  datatype RenameOutcome = Applied | FailedUnchanged | FailedChanged

  datatype Label =
    | Stop
    | Start(ready: bool, replace: bool, dry: bool)
    | Detect(status: Option<ChainStatus>, active: Option<Hash>)
    | Handle(agree: bool)
    | Connect(consensus: Hash, companion: Hash, submit: bool)
    | Answer(ok: bool)
    | TryRename(outcome: RenameOutcome)
    | Verify(alive: bool, signer: set<Hash>, active: Option<Hash>)

  datatype Event =
    | Stopped
    | Detected(wallet: Aliases, status: Option<ChainStatus>, active: Option<Hash>, state: RotationState)
    | Cleared(role: Role, wallet: Aliases)
    | Imported(consensus: Hash, companion: Hash)
    | FoundPending
    | Submitted
    | Activated
    | PromotionBegan(wallet: Aliases)
    | Verified(wallet: Aliases, alive: bool, signer: set<Hash>, active: Option<Hash>)
    | Unverified(wallet: Aliases, alive: bool, signer: set<Hash>, active: Option<Hash>)
    | RollbackBegan
    | Forgot(role: Role, wallet: Aliases)

  datatype World = World(aliases: Aliases, pc: Pc, log: seq<Event>)

  function Renamed(m: Aliases, r: Rename): Aliases {
    if r.from in m then (m - {r.from})[r.to := m[r.from]] else m
  }

  predicate Succeeds(m: Aliases, r: Rename, o: RenameOutcome) {
    o.Applied? && r.from in m
  }

  function AfterTry(m: Aliases, r: Rename, o: RenameOutcome): Aliases {
    if o.FailedUnchanged? then m else Renamed(m, r)
  }

  function Halt(w: World): World {
    w.(pc := Idle, log := w.log + [Stopped])
  }

  /** Resumed states go on for real, dry run or not; only a fresh rotation is told about it. */
  function HandleState(w: World, st: RotationState, replace: bool, dry: bool, agree: bool): World {
    if replace then
      match st
      case PartialSwap => Halt(w)
      case KeysActivatedNeedSwap => Halt(w)
      case Clean => w.(pc := Connecting(dry, false))
      case _ => w.(pc := Clearing([Consensus, Companion], true, dry))
    else
      match st
      case PartialSwap => w.(pc := Starting(true))
      case KeysImported => w.(pc := if agree then Submitting else Clearing([Consensus, Companion], false, dry))
      case PendingActivation(_) => w.(pc := Monitoring)
      case PendingOnChainOnly(_) => if agree then w.(pc := Connecting(false, true)) else Halt(w)
      case KeysActivatedNeedSwap => if agree then w.(pc := SwapReady) else Halt(w)
      case Clean => w.(pc := Connecting(dry, false))
  }

  /** `forget address` on a pending alias, one role after the other. */
  function ClearStep(w: World, left: seq<Role>, restart: bool, dry: bool, ok: bool): World {
    if !ok then Halt(w)
    else if left == [] then (if restart then w.(pc := Connecting(dry, false)) else Halt(w))
    else World(w.aliases - {Pending(left[0])}, Clearing(left[1..], restart, dry), w.log + [Cleared(left[0], w.aliases)])
  }

  /**
   * The new device's keys. When they are pending on chain already, nothing is submitted again; a
   * dry run imports and submits nothing, but goes on with keys that are pending.
   */
  function ConnectStep(w: World, dry: bool, pending: bool, consensus: Hash, companion: Hash, submit: bool): World {
    var found := pending || !submit;
    var w' := if found then w.(log := w.log + [FoundPending]) else w;
    if !dry then w'.(pc := Importing(consensus, companion, [Consensus, Companion], !found))
    else if found then w'.(pc := Monitoring)
    else Halt(w)
  }

  function ImportStep(w: World, c: Hash, k: Hash, left: seq<Role>, submit: bool, ok: bool): World {
    if !ok then Halt(w)
    else if left == [] then w.(pc := if submit then Submitting else Monitoring, log := w.log + [Imported(c, k)])
    else w.(aliases := w.aliases[Pending(left[0]) := if left[0].Consensus? then c else k], pc := Importing(c, k, left[1..], submit))
  }

  /** The four aliases resolve, or nothing is changed. */
  function BeginStep(w: World, ok: bool): World {
    if !ok then Halt(w)
    else if Pending(Consensus) in w.aliases && Pending(Companion) in w.aliases && Live(Consensus) in w.aliases && Live(Companion) in w.aliases
    then w.(pc := Promoting(1), log := w.log + [PromotionBegan(w.aliases)])
    else Halt(w)
  }

  function PromoteStep(w: World, step: nat, o: RenameOutcome): World {
    var after := AfterTry(w.aliases, Forward(step), o);
    if Succeeds(w.aliases, Forward(step), o)
    then w.(aliases := after, pc := if step < 4 then Promoting(step + 1) else Starting(false))
    else w.(aliases := after, pc := Undoing(UndoAfter(step)))
  }

  /** A failed undo is reported but does not stop the others. */
  function UndoStep(w: World, ops: seq<Rename>, o: RenameOutcome): World {
    if ops == [] then Halt(w)
    else w.(aliases := AfterTry(w.aliases, ops[0], o), pc := Undoing(ops[1..]))
  }

  function VerifyStep(w: World, resumed: bool, alive: bool, signer: set<Hash>, active: Option<Hash>): World {
    if Live(Consensus) in w.aliases
       && SigningVerified(alive, w.aliases[Live(Consensus)] in signer, active, w.aliases[Live(Consensus)])
    then w.(pc := AskCleanup, log := w.log + [Verified(w.aliases, alive, signer, active)])
    else
      var w' := w.(log := w.log + [Unverified(w.aliases, alive, signer, active)]);
      if resumed then w'.(pc := AskRollback) else Halt(w')
  }

  /** Only a backup that resolved is forgotten; a failed removal is reported and the next one tried. */
  function ForgetStep(w: World, left: seq<Role>, ok: bool): World {
    if left == [] then Halt(w)
    else if ok && Old(left[0]) in w.aliases then
      World(w.aliases - {Old(left[0])}, Cleaning(left[1..]), w.log + [Forgot(left[0], w.aliases)])
    else w.(pc := Cleaning(left[1..]))
  }

  /** Restoring the old keys on request stops at the first failure. */
  function RollbackStep(w: World, ops: seq<Rename>, o: RenameOutcome): World {
    if ops == [] then Halt(w)
    else
      var after := AfterTry(w.aliases, ops[0], o);
      if Succeeds(w.aliases, ops[0], o) then w.(aliases := after, pc := RollingBack(ops[1..])) else Halt(w.(aliases := after))
  }

  /** One step. Any error, cancellation or crash is a `Stop`; a label that does not fit changes nothing. */
  function Step(w: World, l: Label): World {
    if l.Stop? then Halt(w)
    else
      match w.pc
      case Idle =>
        if l.Start? && l.ready && Live(Consensus) in w.aliases then w.(pc := Probing(l.replace, l.dry)) else w
      case Probing(replace, dry) =>
        if !l.Detect? then w
        else
          var st := DetectState(w.aliases, l.status, l.active);
          if st.Some?
          then w.(pc := Decided(st.value, replace, dry), log := w.log + [Detected(w.aliases, l.status, l.active, st.value)])
          else Halt(w)
      case Decided(st, replace, dry) => if l.Handle? then HandleState(w, st, replace, dry, l.agree) else w
      case Clearing(left, restart, dry) => if l.Answer? then ClearStep(w, left, restart, dry, l.ok) else w
      case Connecting(dry, pending) => if l.Connect? then ConnectStep(w, dry, pending, l.consensus, l.companion, l.submit) else w
      case Importing(c, k, left, submit) => if l.Answer? then ImportStep(w, c, k, left, submit, l.ok) else w
      case Submitting => if !l.Answer? then w else if l.ok then w.(pc := Monitoring, log := w.log + [Submitted]) else Halt(w)
      case Monitoring => if !l.Answer? then w else if l.ok then w.(pc := SwapReady, log := w.log + [Activated]) else Halt(w)
      case SwapReady => if l.Answer? then BeginStep(w, l.ok) else w
      case Promoting(step) => if l.TryRename? then PromoteStep(w, step, l.outcome) else w
      case Undoing(ops) => if l.TryRename? then UndoStep(w, ops, l.outcome) else w
      case Starting(resumed) => if !l.Answer? then w else if l.ok then w.(pc := Verifying(resumed)) else Halt(w)
      case Verifying(resumed) => if l.Verify? then VerifyStep(w, resumed, l.alive, l.signer, l.active) else w
      case AskCleanup => if !l.Answer? then w else if l.ok then w.(pc := Cleaning([Consensus, Companion])) else Halt(w)
      case Cleaning(left) => if l.Answer? then ForgetStep(w, left, l.ok) else w
      case AskRollback =>
        if !l.Answer? then w
        else if l.ok then w.(pc := RollingBack([RESTORE_CONSENSUS, RESTORE_COMPANION]), log := w.log + [RollbackBegan])
        else Halt(w)
      case RollingBack(ops) => if l.TryRename? then RollbackStep(w, ops, l.outcome) else w
  }

  function Run(w: World, ls: seq<Label>): World
    decreases |ls|
  {
    if ls == [] then w else Run(Step(w, ls[0]), ls[1..])
  }

  /** A first invocation on any wallet. */
  predicate Initial(w: World) {
    w.pc.Idle? && w.log == []
  }

  // ---------------------------------------------------------------------------
  // Invariants of every run
  // ---------------------------------------------------------------------------

  /** Between detection and promotion no backup exists. */
  predicate BeforeSwap(pc: Pc) {
    match pc
    case Decided(st, _, _) => !st.PartialSwap?
    case Clearing(_, _, _) => true
    case Connecting(_, _) => true
    case Importing(_, _, _, _) => true
    case Submitting => true
    case Monitoring => true
    case SwapReady => true
    case Promoting(step) => step == 1
    case _ => false
  }

  /** The check that licenses a cleanup: the signer holds the live consensus key and the chain uses it. */
  predicate GoodCheck(e: Event) {
    && e.Verified? && e.alive && Live(Consensus) in e.wallet
    && e.wallet[Live(Consensus)] in e.signer && e.active == Some(e.wallet[Live(Consensus)])
  }

  /** The log ends with a good check followed only by forgets, made with the same live key. */
  ghost predicate CheckedSince(log: seq<Event>, j: int, m: Aliases) {
    && 0 <= j < |log| && GoodCheck(log[j])
    && (forall k | j < k < |log| :: log[k].Forgot?)
    && Live(Consensus) in m && m[Live(Consensus)] == log[j].wallet[Live(Consensus)]
  }

  predicate SameLive(m: Aliases, m': Aliases) {
    Live(Consensus) in m && Live(Consensus) in m' && m[Live(Consensus)] == m'[Live(Consensus)]
  }

  /** Every forget in the log is preceded by a good check with no stop in between. */
  ghost predicate ForgetLicensed(log: seq<Event>, i: int)
    requires 0 <= i < |log| && log[i].Forgot?
  {
    exists j :: 0 <= j < i && GoodCheck(log[j]) && SameLive(log[i].wallet, log[j].wallet)
             && forall k | j < k < i :: log[k].Forgot?
  }

  predicate IsRestore(r: Rename) {
    r == RESTORE_CONSENSUS || r == RESTORE_COMPANION
  }

  ghost predicate Inv(w: World) {
    && (BeforeSwap(w.pc) ==> !OldExist(w.aliases))
    && (w.pc.Promoting? ==> 1 <= w.pc.step <= 4 && (w.pc.step <= 2 ==> Old(Companion) !in w.aliases))
    && (w.pc.Undoing? ==> forall r | r in w.pc.ops :: IsRestore(r) || r == DEMOTE_CONSENSUS)
    && (w.pc.RollingBack? ==> forall r | r in w.pc.ops :: IsRestore(r))
    && (w.pc.AskCleanup? || w.pc.Cleaning? ==> exists j :: CheckedSince(w.log, j, w.aliases))
    && (forall i | 0 <= i < |w.log| && w.log[i].PromotionBegan? :: !OldExist(w.log[i].wallet))
    && (forall i | 0 <= i < |w.log| && w.log[i].Forgot? :: ForgetLicensed(w.log, i))
  }

  lemma LogGrows(log: seq<Event>, e: Event)
    requires forall i | 0 <= i < |log| && log[i].Forgot? :: ForgetLicensed(log, i)
    requires e.Forgot? ==> ForgetLicensed(log + [e], |log|)
    ensures forall i | 0 <= i < |log + [e]| && (log + [e])[i].Forgot? :: ForgetLicensed(log + [e], i)
  {
    forall i | 0 <= i < |log| && log[i].Forgot?
      ensures ForgetLicensed(log + [e], i)
    {
      var j :| 0 <= j < i && GoodCheck(log[j]) && SameLive(log[i].wallet, log[j].wallet)
            && forall k | j < k < i :: log[k].Forgot?;
      assert (log + [e])[j] == log[j];
    }
  }

  lemma HaltKeeps(w: World)
    requires Inv(w)
    ensures Inv(Halt(w))
  {
    LogGrows(w.log, Stopped);
  }

  lemma ForgetKeeps(w: World, left: seq<Role>, ok: bool)
    requires Inv(w) && w.pc == Cleaning(left)
    ensures Inv(ForgetStep(w, left, ok))
  {
    if left == [] {
      HaltKeeps(w);
    } else if ok && Old(left[0]) in w.aliases {
      var w' := ForgetStep(w, left, ok);
      var e := w'.log[|w.log|];
      var j :| CheckedSince(w.log, j, w.aliases);
      assert (w.log + [e])[j] == w.log[j];
      assert ForgetLicensed(w.log + [e], |w.log|);
      LogGrows(w.log, e);
      assert CheckedSince(w'.log, j, w'.aliases);
    }
  }

  lemma VerifyKeeps(w: World, resumed: bool, alive: bool, signer: set<Hash>, active: Option<Hash>)
    requires Inv(w) && w.pc == Verifying(resumed)
    ensures Inv(VerifyStep(w, resumed, alive, signer, active))
  {
    var w' := VerifyStep(w, resumed, alive, signer, active);
    if w'.pc.AskCleanup? {
      LogGrows(w.log, Verified(w.aliases, alive, signer, active));
      assert CheckedSince(w'.log, |w.log|, w'.aliases);
    } else {
      LogGrows(w.log, Unverified(w.aliases, alive, signer, active));
      HaltKeeps(w.(log := w.log + [Unverified(w.aliases, alive, signer, active)], pc := AskRollback));
    }
  }

  lemma RenamingKeeps(w: World, l: Label)
    requires Inv(w) && l.TryRename?
    ensures Inv(Step(w, l))
  {
    match w.pc
    case Promoting(step) =>
    case Undoing(ops) => if ops == [] { HaltKeeps(w); }
    case RollingBack(ops) =>
      if ops != [] {
        HaltKeeps(w.(aliases := AfterTry(w.aliases, ops[0], l.outcome), pc := AskRollback));
      }
      HaltKeeps(w);
    case _ =>
  }

  lemma BeginKeeps(w: World, ok: bool)
    requires Inv(w) && w.pc.SwapReady?
    ensures Inv(BeginStep(w, ok))
  {
    HaltKeeps(w);
    LogGrows(w.log, PromotionBegan(w.aliases));
  }

  /** A step that changes no alias and logs at most one event that is no forget. */
  lemma QuietlyKeeps(w: World, w': World)
    requires Inv(w) && (BeforeSwap(w'.pc) ==> !OldExist(w'.aliases))
    requires !w'.pc.Promoting? && !w'.pc.Undoing? && !w'.pc.AskCleanup? && !w'.pc.Cleaning?
    requires w'.pc.RollingBack? ==> w'.pc.ops == [RESTORE_CONSENSUS, RESTORE_COMPANION]
    requires w'.log == w.log || (exists e :: w'.log == w.log + [e] && !e.Forgot? && !e.PromotionBegan?)
    ensures Inv(w')
  {
    if w'.log != w.log {
      var e :| w'.log == w.log + [e] && !e.Forgot? && !e.PromotionBegan?;
      LogGrows(w.log, e);
    }
  }

  lemma StepKeeps(w: World, l: Label)
    requires Inv(w)
    ensures Inv(Step(w, l))
  {
    HaltKeeps(w);
    if l.TryRename? {
      RenamingKeeps(w, l);
    } else if !l.Stop? {
      match w.pc
      case SwapReady => if l.Answer? { BeginKeeps(w, l.ok); }
      case Verifying(resumed) => if l.Verify? { VerifyKeeps(w, resumed, l.alive, l.signer, l.active); }
      case Cleaning(left) => if l.Answer? { ForgetKeeps(w, left, l.ok); }
      case AskCleanup =>
      case Promoting(_) =>
      case Undoing(_) =>
      case _ => OtherStepKeeps(w, l);
    }
  }

  lemma OtherStepKeeps(w: World, l: Label)
    requires Inv(w) && !l.TryRename? && !l.Stop?
    requires !w.pc.SwapReady? && !w.pc.Verifying? && !w.pc.Cleaning? && !w.pc.AskCleanup? && !w.pc.Promoting? && !w.pc.Undoing?
    ensures Inv(Step(w, l))
  {
    var w' := Step(w, l);
    if w' != w {
      assert w'.log == w.log || (exists e :: w'.log == w.log + [e] && !e.Forgot? && !e.PromotionBegan?) by {
        if w'.log != w.log {
          assert w'.log == w.log + [w'.log[|w.log|]];
        }
      }
      QuietlyKeeps(w, w');
    }
  }

  lemma {:induction false} RunKeeps(w: World, ls: seq<Label>)
    requires Inv(w)
    ensures Inv(Run(w, ls))
    decreases |ls|
  {
    if ls != [] {
      StepKeeps(w, ls[0]);
      RunKeeps(Step(w, ls[0]), ls[1..]);
    }
  }

  /**
   * Over every run of invocations, errors and crashes: promotion starts only on a wallet without
   * backups, and a backup is forgotten only after a check, in the same invocation, in which the
   * signer held the live consensus key and that key was active on chain.
   */
  lemma RotationIsSafe(w: World, ls: seq<Label>, i: nat)
    requires Initial(w) && i < |Run(w, ls).log|
    ensures var log := Run(w, ls).log;
            && (log[i].PromotionBegan? ==> !OldExist(log[i].wallet))
            && (log[i].Forgot? ==> ForgetLicensed(log, i))
  {
    RunKeeps(w, ls);
  }

  /** A backup's value leaves its alias only to become live again or through a licensed forget. */
  ghost predicate BackupSurvives(w: World, w': World, role: Role) {
    Old(role) in w.aliases ==>
      || (Old(role) in w'.aliases && w'.aliases[Old(role)] == w.aliases[Old(role)])
      || (Live(role) in w'.aliases && w'.aliases[Live(role)] == w.aliases[Old(role)])
      || (w'.log != [] && w'.log[|w'.log| - 1].Forgot? && w'.log[|w'.log| - 1].role == role
          && w'.log[|w'.log| - 1].wallet == w.aliases && ForgetLicensed(w'.log, |w'.log| - 1))
  }

  lemma StepKeepsBackup(w: World, l: Label, role: Role)
    requires Inv(w)
    ensures BackupSurvives(w, Step(w, l), role)
  {
    if w.pc.Cleaning? && l.Answer? {
      StepKeeps(w, l);
    } else if (w.pc.Undoing? || w.pc.RollingBack?) && w.pc.ops != [] {
      assert w.pc.ops[0] in w.pc.ops;
    }
  }

  /** No step of any run overwrites or drops a backup without licence. */
  lemma BackupsSurviveRuns(w: World, ls: seq<Label>, l: Label, role: Role)
    requires Initial(w)
    ensures BackupSurvives(Run(w, ls), Step(Run(w, ls), l), role)
  {
    RunKeeps(w, ls);
    StepKeepsBackup(Run(w, ls), l, role);
  }

  // ---------------------------------------------------------------------------
  // What a crash can leave behind
  // ---------------------------------------------------------------------------

  /** `l` then `more`, one step at a time. */
  lemma RunCons(w: World, l: Label, more: seq<Label>)
    ensures Run(w, [l] + more) == Run(Step(w, l), more)
  {
    assert ([l] + more)[1..] == more;
  }

  lemma {:induction false} RunConcat(w: World, ls: seq<Label>, more: seq<Label>)
    ensures Run(w, ls + more) == Run(Run(w, ls), more)
    decreases |ls|
  {
    if ls == [] {
      assert ls + more == more;
    } else {
      assert (ls + more)[1..] == ls[1..] + more;
      RunConcat(Step(w, ls[0]), ls[1..], more);
    }
  }

  lemma RunTwo(w: World, a: Label, b: Label)
    ensures Run(w, [a, b]) == Step(Step(w, a), b)
  {
    RunCons(w, a, [b]);
    RunCons(Step(w, a), b, []);
    assert [a, b] == [a] + [b] && [b] == [b] + [];
  }

  lemma RunThree(w: World, a: Label, b: Label, c: Label)
    ensures Run(w, [a, b, c]) == Step(Step(Step(w, a), b), c)
  {
    RunCons(w, a, [b, c]);
    assert [a, b, c] == [a] + [b, c];
    RunTwo(Step(w, a), b, c);
  }

  ghost predicate CanChange(w: World) {
    exists ls: seq<Label> :: Run(w, ls).aliases != w.aliases
  }

  /** Without a live consensus alias no run touches the wallet. */
  lemma {:induction false} StuckWithoutLiveConsensus(w: World, ls: seq<Label>)
    requires w.pc.Idle? && Live(Consensus) !in w.aliases
    ensures Run(w, ls).pc.Idle? && Run(w, ls).aliases == w.aliases
    decreases |ls|
  {
    if ls != [] {
      StuckWithoutLiveConsensus(Step(w, ls[0]), ls[1..]);
    }
  }

  /** A resumed swap whose consensus key checks out reaches the cleanup with the wallet untouched. */
  lemma ResumeReachesCleanup(w: World, status: Option<ChainStatus>, dry: bool)
    requires w.pc.Idle? && Live(Consensus) in w.aliases && OldExist(w.aliases)
    ensures var live := w.aliases[Live(Consensus)];
            var w' := Run(Run(w, [Start(true, false, dry), Detect(status, None), Handle(true)]),
                          [Answer(true), Verify(true, {live}, Some(live)), Answer(true)]);
            w'.pc == Cleaning([Consensus, Companion]) && w'.aliases == w.aliases && w.log <= w'.log
  {
    var live := w.aliases[Live(Consensus)];
    RunThree(w, Start(true, false, dry), Detect(status, None), Handle(true));
    var w1 := Run(w, [Start(true, false, dry), Detect(status, None), Handle(true)]);
    assert w1.pc == Starting(true) && w1.aliases == w.aliases;
    RunThree(w1, Answer(true), Verify(true, {live}, Some(live)), Answer(true));
  }

  /** With one, some run does: forgetting a backup, clearing a pending key, or importing one. */
  lemma UnstuckWithLiveConsensus(w: World)
    requires w.pc.Idle? && Live(Consensus) in w.aliases
    ensures CanChange(w)
  {
    var pending := Detect(Some(ChainStatus(true, Some(0))), None);
    if OldExist(w.aliases) {
      ResumeReachesCleanup(w, None, false);
      var live := w.aliases[Live(Consensus)];
      var a, b := [Start(true, false, false), Detect(None, None), Handle(true)], [Answer(true), Verify(true, {live}, Some(live)), Answer(true)];
      RunConcat(w, a, b);
      var w' := Run(w, a + b);
      RunConcat(w, a + b, [Answer(true), Answer(true)]);
      RunTwo(w', Answer(true), Answer(true));
      assert Old(Companion) !in Run(w, a + b + [Answer(true), Answer(true)]).aliases
          && Old(Consensus) !in Run(w, a + b + [Answer(true), Answer(true)]).aliases;
    } else if PendingExist(w.aliases) {
      var a, b := [Start(true, true, false), pending, Handle(true)], [Answer(true), Answer(true)];
      RunThree(w, a[0], a[1], a[2]);
      var w' := Run(w, a);
      assert w'.aliases == w.aliases && w'.pc == Clearing([Consensus, Companion], true, false);
      RunTwo(w', Answer(true), Answer(true));
      RunConcat(w, a, b);
      assert !PendingExist(Run(w, a + b).aliases);
    } else {
      var a, b := [Start(true, false, false), pending, Handle(true)], [Connect("", "", false), Answer(true)];
      RunThree(w, a[0], a[1], a[2]);
      var w' := Run(w, a);
      assert w'.aliases == w.aliases && w'.pc == Connecting(false, true);
      RunTwo(w', b[0], b[1]);
      RunConcat(w, a, b);
      assert Pending(Consensus) in Run(w, a + b).aliases;
    }
  }

  /** The re-runs can touch an idle wallet exactly when it has a live consensus alias. */
  lemma CanChangeIff(w: World)
    requires w.pc.Idle?
    ensures CanChange(w) <==> Live(Consensus) in w.aliases
  {
    if Live(Consensus) in w.aliases {
      UnstuckWithLiveConsensus(w);
    } else {
      forall ls: seq<Label>
        ensures Run(w, ls).aliases == w.aliases
      {
        StuckWithoutLiveConsensus(w, ls);
      }
    }
  }

  ghost predicate AtPromotion(w: World) {
    && w.pc == Promoting(1) && Live(Consensus) in w.aliases && Live(Companion) in w.aliases
    && Pending(Consensus) in w.aliases && Pending(Companion) in w.aliases
  }

  /** Promotion cut off after its first or second rename: the consensus key is parked and nothing is live. */
  lemma CutOffBeforeThird(w: World)
    requires AtPromotion(w)
    ensures var t := TryRename(Applied);
            forall w' | w' == Run(w, [t, Stop]) || w' == Run(w, [t, t, Stop]) ::
              && w'.pc.Idle? && !CanChange(w')
              && Old(Consensus) in w'.aliases && w'.aliases[Old(Consensus)] == w.aliases[Live(Consensus)]
  {
    var t := TryRename(Applied);
    RunTwo(w, t, Stop);
    RunThree(w, t, t, Stop);
    CanChangeIff(Run(w, [t, Stop]));
    CanChangeIff(Run(w, [t, t, Stop]));
  }

  /** Promotion cut off after its third rename: the companion is backed up but not yet promoted. */
  lemma CutOffAfterThird(w: World)
    requires AtPromotion(w)
    ensures var w' := Run(w, [TryRename(Applied), TryRename(Applied)] + [TryRename(Applied), Stop]);
            && w'.pc.Idle? && Droppable(w'.aliases)
            && w'.aliases[Old(Companion)] == w.aliases[Live(Companion)]
            && w'.aliases[Live(Consensus)] == w.aliases[Pending(Consensus)]
  {
    var t := TryRename(Applied);
    RunConcat(w, [t, t], [t, Stop]);
    RunTwo(w, t, t);
    RunTwo(Run(w, [t, t]), t, Stop);
  }

  // ---------------------------------------------------------------------------
  // When an outgoing companion key is dropped without a successor
  // ---------------------------------------------------------------------------

  /** A live consensus alias and a companion backup without a live companion, as a crash after the third rename leaves them. */
  predicate Droppable(m: Aliases) {
    Live(Consensus) in m && Live(Companion) !in m && Old(Companion) in m
  }

  /** No crash is needed: a failed fourth step whose last restore fails as well leaves such a wallet. */
  lemma LastRestoreFails(w: World)
    requires w.pc == Promoting(4) && Live(Companion) !in w.aliases
    requires Live(Consensus) in w.aliases && Old(Consensus) in w.aliases && Old(Companion) in w.aliases
    ensures var (no, yes) := (TryRename(FailedUnchanged), TryRename(Applied));
            var w' := Run(w, [no, yes, yes] + [no, no]);
            w'.pc.Idle? && Droppable(w'.aliases)
  {
    var no, yes := TryRename(FailedUnchanged), TryRename(Applied);
    RunConcat(w, [no, yes, yes], [no, no]);
    RunThree(w, no, yes, yes);
    assert Run(w, [no, yes, yes]).pc == Undoing([RESTORE_COMPANION]);
    RunTwo(Run(w, [no, yes, yes]), no, no);
  }

  /** The companion's backup was forgotten while no companion alias was live. */
  predicate DropsCompanion(e: Event) {
    e.Forgot? && e.role.Companion? && Live(Companion) !in e.wallet
  }

  /** The labels of one invocation after its start. */
  ghost predicate OneInvocation(ls: seq<Label>) {
    forall l | l in ls :: !l.Start?
  }

  /** What an invocation that began on wallet `m` knows about its wallet; `base` is where its log begins. */
  ghost predicate Traced(w: World, m: Aliases, base: nat) {
    && base <= |w.log| && Live(Consensus) in m
    && (match w.pc
        case Probing(_, _) => w.aliases == m
        case Decided(_, _, _) => w.aliases == m
        case Starting(resumed) => if resumed then w.aliases == m else Live(Companion) in w.aliases
        case Verifying(resumed) => if resumed then w.aliases == m else Live(Companion) in w.aliases
        case AskCleanup => Live(Companion) in w.aliases || w.aliases == m
        case Cleaning(_) =>
          Live(Companion) in w.aliases || (Live(Companion) !in m && (Old(Companion) in w.aliases ==> Old(Companion) in m))
        case _ => true)
    && (forall i | base <= i < |w.log| && DropsCompanion(w.log[i]) :: Droppable(m))
  }

  lemma TracedStep(w: World, m: Aliases, base: nat, l: Label)
    requires Traced(w, m, base) && !l.Start?
    ensures Traced(Step(w, l), m, base)
  {
  }

  lemma {:induction false} TracedRun(w: World, m: Aliases, base: nat, ls: seq<Label>)
    requires Traced(w, m, base) && OneInvocation(ls)
    ensures Traced(Run(w, ls), m, base)
    decreases |ls|
  {
    if ls != [] {
      TracedStep(w, m, base, ls[0]);
      TracedRun(Step(w, ls[0]), m, base, ls[1..]);
    }
  }

  /** Some invocation on this wallet drops the companion key. */
  ghost predicate CanDrop(w: World) {
    exists start: Label, ls: seq<Label>, i ::
      && start.Start? && OneInvocation(ls)
      && |w.log| <= i < |Run(w, [start] + ls).log| && DropsCompanion(Run(w, [start] + ls).log[i])
  }

  /** Resuming verifies the consensus key only and then forgets both backups. */
  lemma ResumeCanDropCompanion(w: World)
    requires w.pc.Idle? && Droppable(w.aliases)
    ensures CanDrop(w)
  {
    var live := w.aliases[Live(Consensus)];
    var start := Start(true, false, false);
    var a, b := [Detect(None, None), Handle(true)], [Answer(true), Verify(true, {live}, Some(live)), Answer(true)];
    var c := [Answer(true), Answer(true)];
    ResumeReachesCleanup(w, None, false);
    assert [start] + a == [start, Detect(None, None), Handle(true)];
    RunConcat(w, [start] + a, b);
    RunConcat(w, [start] + a + b, c);
    var w' := Run(w, [start] + a + b);
    RunTwo(w', c[0], c[1]);
    assert [start] + a + b + c == [start] + (a + b + c);
    var log := Run(w, [start] + (a + b + c)).log;
    assert DropsCompanion(log[|log| - 1]);
  }

  /** An invocation can drop the companion key exactly on the droppable wallets, however they came about. */
  lemma CanDropIff(w: World)
    requires w.pc.Idle?
    ensures CanDrop(w) <==> Droppable(w.aliases)
  {
    if Droppable(w.aliases) {
      ResumeCanDropCompanion(w);
    }
    if CanDrop(w) {
      var start: Label, ls: seq<Label>, i :|
        && start.Start? && OneInvocation(ls)
        && |w.log| <= i < |Run(w, [start] + ls).log| && DropsCompanion(Run(w, [start] + ls).log[i]);
      RunCons(w, start, ls);
      if Live(Consensus) in w.aliases {
        TracedRun(Step(w, start), w.aliases, |w.log|, ls);
      } else {
        IdleRun(Step(w, start), ls);
      }
    }
  }

  /** Nothing but a start leaves the idle state. */
  lemma {:induction false} IdleRun(w: World, ls: seq<Label>)
    requires w.pc.Idle? && OneInvocation(ls)
    ensures var w' := Run(w, ls);
            w'.pc.Idle? && w'.aliases == w.aliases && w.log <= w'.log && forall i | |w.log| <= i < |w'.log| :: w'.log[i].Stopped?
    decreases |ls|
  {
    if ls != [] {
      assert ls[0] in ls;
      IdleRun(Step(w, ls[0]), ls[1..]);
    }
  }

  // ---------------------------------------------------------------------------
  // What a dry run changes
  // ---------------------------------------------------------------------------

  predicate BothLiveAndPending(m: Aliases) {
    Pending(Consensus) in m && Pending(Companion) in m && Live(Consensus) in m && Live(Companion) in m
  }

  /** The recognised states from which a dry run goes on to change the wallet. */
  predicate DryChanges(m: Aliases, st: RotationState, replace: bool) {
    match st
    case Clean => false
    case PartialSwap => !replace
    case KeysImported => true
    case PendingActivation(_) => replace || BothLiveAndPending(m)
    case PendingOnChainOnly(_) => !replace
    case KeysActivatedNeedSwap => !replace && BothLiveAndPending(m)
  }

  /** A dry run about to act on the state it recognised. */
  ghost predicate DryDecided(w: World, status: Option<ChainStatus>, active: Option<Hash>) {
    && w.pc.Decided? && w.pc.dry && Live(Consensus) in w.aliases
    && DetectState(w.aliases, status, active) == Some(w.pc.state)
  }

  ghost predicate InvocationChanges(w: World) {
    exists ls: seq<Label> :: OneInvocation(ls) && Run(w, ls).aliases != w.aliases
  }

  /** A dry run on its way to the end without a change. */
  predicate Quiet(w: World) {
    match w.pc
    case Idle => true
    case Decided(st, replace, dry) =>
      dry && !DryChanges(w.aliases, st, replace) && (st.Clean? || st.PendingOnChainOnly? ==> !PendingExist(w.aliases))
    case Clearing(_, _, dry) => dry && !PendingExist(w.aliases)
    case Connecting(dry, _) => dry && !PendingExist(w.aliases)
    case Monitoring => !BothLiveAndPending(w.aliases)
    case SwapReady => !BothLiveAndPending(w.aliases)
    case _ => false
  }

  lemma QuietStep(w: World, l: Label)
    requires Quiet(w) && !l.Start?
    ensures Quiet(Step(w, l)) && Step(w, l).aliases == w.aliases
  {
    if w.pc.Clearing? && w.pc.left != [] {
      assert w.pc.left[0] == Consensus || w.pc.left[0] == Companion;
      assert w.aliases - {Pending(w.pc.left[0])} == w.aliases;
    }
  }

  lemma {:induction false} QuietRun(w: World, ls: seq<Label>)
    requires Quiet(w) && OneInvocation(ls)
    ensures Run(w, ls).aliases == w.aliases
    decreases |ls|
  {
    if ls != [] {
      assert ls[0] in ls;
      QuietStep(w, ls[0]);
      QuietRun(Step(w, ls[0]), ls[1..]);
    }
  }

  /** Both pending aliases are cleared when the operator declines, or asks for a replacement. */
  lemma ClearingChanges(w: World, agree: bool)
    requires w.pc.Decided? && PendingExist(w.aliases)
    requires Step(w, Handle(agree)) == w.(pc := Clearing([Consensus, Companion], w.pc.replace, w.pc.dry))
    ensures InvocationChanges(w)
  {
    var ls := [Handle(agree), Answer(true), Answer(true)];
    RunThree(w, ls[0], ls[1], ls[2]);
    assert !PendingExist(Run(w, ls).aliases);
    assert OneInvocation(ls);
  }

  /** Once the swap is confirmed, the first rename moves the live consensus alias. */
  lemma SwapChanges(w: World, before: seq<Label>)
    requires OneInvocation(before) && BothLiveAndPending(w.aliases)
    requires Run(w, before).pc == SwapReady && Run(w, before).aliases == w.aliases
    ensures InvocationChanges(w)
  {
    var ls := [Answer(true), TryRename(Applied)];
    RunTwo(Run(w, before), ls[0], ls[1]);
    RunConcat(w, before, ls);
    assert OneInvocation(before + ls);
    assert Live(Consensus) !in Run(w, before + ls).aliases;
  }

  lemma ResumeChanges(w: World)
    requires w.pc.Decided? && w.pc.state.PartialSwap? && !w.pc.replace && Live(Consensus) in w.aliases && OldExist(w.aliases)
    ensures InvocationChanges(w)
  {
    var live := w.aliases[Live(Consensus)];
    var a, b := [Handle(true), Answer(true), Verify(true, {live}, Some(live))], [Answer(true), Answer(true), Answer(true)];
    RunThree(w, a[0], a[1], a[2]);
    RunThree(Run(w, a), b[0], b[1], b[2]);
    RunConcat(w, a, b);
    assert OneInvocation(a + b);
    assert !OldExist(Run(w, a + b).aliases);
  }

  lemma ImportChanges(w: World)
    requires w.pc.Decided? && w.pc.state.PendingOnChainOnly? && !w.pc.replace && !PendingExist(w.aliases)
    ensures InvocationChanges(w)
  {
    var ls := [Handle(true), Connect("", "", false), Answer(true)];
    RunThree(w, ls[0], ls[1], ls[2]);
    assert OneInvocation(ls) && Pending(Consensus) in Run(w, ls).aliases;
  }

  /**
   * `--dry-run` reaches only a fresh rotation: from a recognised state the rest of the invocation
   * can change the wallet exactly in the cases of `DryChanges`.
   */
  lemma DryRunChangesIff(w: World, status: Option<ChainStatus>, active: Option<Hash>)
    requires DryDecided(w, status, active)
    ensures InvocationChanges(w) <==> DryChanges(w.aliases, w.pc.state, w.pc.replace)
  {
    var st, replace := w.pc.state, w.pc.replace;
    if !DryChanges(w.aliases, st, replace) {
      forall ls: seq<Label> | OneInvocation(ls)
        ensures Run(w, ls).aliases == w.aliases
      {
        QuietRun(w, ls);
      }
    } else if st.PartialSwap? {
      ResumeChanges(w);
    } else if st.PendingOnChainOnly? {
      ImportChanges(w);
    } else if st.KeysImported? || replace {
      ClearingChanges(w, false);
    } else if st.PendingActivation? {
      RunTwo(w, Handle(true), Answer(true));
      SwapChanges(w, [Handle(true), Answer(true)]);
    } else {
      RunCons(w, Handle(true), []);
      assert [Handle(true)] + [] == [Handle(true)];
      SwapChanges(w, [Handle(true)]);
    }
  }
}
