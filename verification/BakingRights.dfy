/** Scanning for the next baking right in batches (host-utility/src/blockchain.rs). */
module BakingRights {
  /** What one batch query returns: the delegate's levels in it, the seed limit, or another error. */
  datatype Answer = Answered(levels: seq<int>) | SeedNotComputed | Unanswered

  datatype ScanResult = Found(level: int) | NoneScheduled | QueryError | BadBatchSize | StepByZero

  /** `i64` division by two, truncating toward zero. */
  function HalfCycle(blocksPerCycle: int): int {
    if blocksPerCycle < 0 then -((-blocksPerCycle) / 2) else blocksPerCycle / 2
  }

  datatype Batch = Batch(lo: int, hi: int)

  function BatchAt(current: int, blocksPerCycle: int, i: nat): Batch
    requires blocksPerCycle >= 2
  {
    var size, last := HalfCycle(blocksPerCycle), current + 2 * blocksPerCycle;
    var lo := current + 1 + i * size;
    Batch(lo, if lo + size - 1 < last then lo + size - 1 else last)
  }

  /** How many batches cover two cycles. */
  function BatchCount(blocksPerCycle: int): nat
    requires blocksPerCycle >= 2
  {
    if blocksPerCycle % 2 == 0 then 4 else if blocksPerCycle == 3 then 6 else 5
  }

  lemma CountCovers(current: int, blocksPerCycle: int)
    requires blocksPerCycle >= 2
    ensures var n := BatchCount(blocksPerCycle);
            BatchAt(current, blocksPerCycle, n).lo > current + 2 * blocksPerCycle
            && BatchAt(current, blocksPerCycle, n - 1).lo <= current + 2 * blocksPerCycle
  {
    var size := HalfCycle(blocksPerCycle);
    assert blocksPerCycle == 2 * size || blocksPerCycle == 2 * size + 1;
    assert 4 * size <= 2 * blocksPerCycle <= 4 * size + 2;
  }

  lemma MulMonotone(i: nat, j: nat, size: int)
    requires i <= j && size >= 0
    ensures i * size <= j * size
  {
  }

  lemma DivBounds(offset: nat, size: int)
    requires size > 0
    ensures offset / size * size <= offset < offset / size * size + size
  {
  }

  /** A batch that starts inside the horizon is one of the counted ones, and conversely. */
  lemma CountedIff(current: int, blocksPerCycle: int, i: nat)
    requires blocksPerCycle >= 2
    ensures i < BatchCount(blocksPerCycle) <==> BatchAt(current, blocksPerCycle, i).lo <= current + 2 * blocksPerCycle
  {
    CountCovers(current, blocksPerCycle);
    var n, size := BatchCount(blocksPerCycle), HalfCycle(blocksPerCycle);
    if i < n {
      MulMonotone(i, n - 1, size);
    } else {
      MulMonotone(n, i, size);
    }
  }

  /** Batches follow one another without overlap. */
  lemma BatchesOrdered(current: int, blocksPerCycle: int, i: nat, j: nat)
    requires blocksPerCycle >= 2 && i < j
    ensures BatchAt(current, blocksPerCycle, i).hi < BatchAt(current, blocksPerCycle, j).lo
  {
    var size := HalfCycle(blocksPerCycle);
    MulMonotone(i + 1, j, size);
    assert (i + 1) * size == i * size + size;
  }

  ghost predicate Within(level: int, b: Batch) {
    b.lo <= level <= b.hi
  }

  /** The batches partition the two-cycle horizon: each level lies in exactly one of them. */
  lemma BatchesPartition(current: int, blocksPerCycle: int, level: int) returns (i: nat)
    requires blocksPerCycle >= 2 && current < level <= current + 2 * blocksPerCycle
    ensures i < BatchCount(blocksPerCycle) <= 6 && (blocksPerCycle % 2 == 0 ==> BatchCount(blocksPerCycle) == 4)
    ensures Within(level, BatchAt(current, blocksPerCycle, i))
    ensures forall j: nat | j != i :: !Within(level, BatchAt(current, blocksPerCycle, j))
  {
    var size := HalfCycle(blocksPerCycle);
    var offset := level - current - 1;
    DivBounds(offset, size);
    i := offset / size;
    assert BatchAt(current, blocksPerCycle, i).lo == current + 1 + i * size;
    CountedIff(current, blocksPerCycle, i);
    forall j: nat | j != i
      ensures !Within(level, BatchAt(current, blocksPerCycle, j))
    {
      if j < i {
        BatchesOrdered(current, blocksPerCycle, j, i);
      } else {
        BatchesOrdered(current, blocksPerCycle, i, j);
      }
    }
  }

  /** Every batch asked about lies inside the horizon. */
  lemma BatchesInside(current: int, blocksPerCycle: int, i: nat)
    requires blocksPerCycle >= 2 && i < BatchCount(blocksPerCycle)
    ensures var b := BatchAt(current, blocksPerCycle, i);
            current < b.lo <= b.hi <= current + 2 * blocksPerCycle
  {
    CountedIff(current, blocksPerCycle, i);
    MulMonotone(0, i, HalfCycle(blocksPerCycle));
  }

  method Least(levels: seq<int>) returns (m: int)
    requires levels != []
    ensures m in levels && forall l | l in levels :: m <= l
  {
    m := levels[0];
    for i := 1 to |levels|
      invariant m in levels[..i] && forall l | l in levels[..i] :: m <= l
    {
      assert levels[..i + 1] == levels[..i] + [levels[i]];
      if levels[i] < m {
        m := levels[i];
      }
    }
    assert levels[..|levels|] == levels;
  }

  /** No right was reported by any of the first `calls` queries. */
  ghost predicate NothingSeen(answers: nat -> Answer, calls: nat) {
    forall i: nat | i < calls && answers(i).Answered? :: answers(i).levels == []
  }

  ghost predicate SomeAnswer(answers: nat -> Answer, calls: nat) {
    exists i: nat :: i < calls && answers(i).Answered?
  }

  /** Before the last of `calls` queries none hit the seed limit. */
  ghost predicate KeptGoing(answers: nat -> Answer, calls: nat) {
    forall i: nat | i + 1 < calls :: !answers(i).SeedNotComputed?
  }

  /** The whole horizon was asked about, or the last query hit the seed limit. */
  ghost predicate Exhausted(answers: nat -> Answer, calls: nat, count: nat) {
    calls == count || (exists i: nat :: i + 1 == calls && answers(i).SeedNotComputed?)
  }

  /**
   * What a scan reports. A level found is the least one any query of the scan reported; otherwise
   * nothing was reported by any query, and "none scheduled" rests on at least one answer.
   */
  ghost predicate ScanReport(answers: nat -> Answer, count: nat, r: ScanResult, calls: nat) {
    calls <= count && KeptGoing(answers, calls) &&
    match r
    case Found(level) =>
      (exists i: nat :: i + 1 == calls && answers(i).Answered? && level in answers(i).levels)
      && (forall i: nat, l | i < calls && answers(i).Answered? && l in answers(i).levels :: level <= l)
    case NoneScheduled => NothingSeen(answers, calls) && SomeAnswer(answers, calls) && Exhausted(answers, calls, count)
    case QueryError => !SomeAnswer(answers, calls) && Exhausted(answers, calls, count)
    case _ => false
  }

  /** What a node that answers for ranges of levels returns to each query of the scan. */
  function Asked(current: int, blocksPerCycle: int, node: (int, int) -> Answer): nat -> Answer
    requires blocksPerCycle >= 2
  {
    (i: nat) => node(BatchAt(current, blocksPerCycle, i).lo, BatchAt(current, blocksPerCycle, i).hi)
  }

  /**
   * Query batch after batch until one holds a right, the seed limit is reached or the horizon is
   * covered. `node(lo, hi)` is what a query for these levels returns.
   */
  method QueryNextBakingRights(current: int, blocksPerCycle: int, node: (int, int) -> Answer)
    returns (r: ScanResult, calls: nat)
    ensures r.BadBatchSize? <==> blocksPerCycle <= -2
    ensures r.StepByZero? <==> -1 <= blocksPerCycle <= 1
    ensures blocksPerCycle < 2 ==> calls == 0
    ensures blocksPerCycle >= 2 ==> ScanReport(Asked(current, blocksPerCycle, node), BatchCount(blocksPerCycle), r, calls)
  {
    calls := 0;
    var size := HalfCycle(blocksPerCycle);
    if size < 0 {
      return BadBatchSize, 0;
    }
    if size == 0 {
      return StepByZero, 0;
    }
    var last := current + 2 * blocksPerCycle;
    var queriedAny := false;
    var lo := current + 1;
    ghost var answers := Asked(current, blocksPerCycle, node);
    CountedIff(current, blocksPerCycle, 0);
    while lo <= last
      invariant lo == BatchAt(current, blocksPerCycle, calls).lo && calls <= BatchCount(blocksPerCycle)
      invariant calls < BatchCount(blocksPerCycle) <==> lo <= last
      invariant NothingSeen(answers, calls)
      invariant queriedAny == SomeAnswer(answers, calls)
      invariant forall i: nat | i < calls :: !answers(i).SeedNotComputed?
      decreases last - lo
    {
      var hi := if lo + size - 1 < last then lo + size - 1 else last;
      var answer := node(lo, hi);
      assert answer == answers(calls);
      CountedIff(current, blocksPerCycle, calls + 1);
      calls := calls + 1;
      assert calls * size == (calls - 1) * size + size;
      if answer.SeedNotComputed? {
        break;
      }
      if answer.Answered? {
        queriedAny := true;
        if answer.levels != [] {
          var level := Least(answer.levels);
          return Found(level), calls;
        }
      }
      lo := lo + size;
    }
    r := if queriedAny then NoneScheduled else QueryError;
  }

  /** The node's answer lists exactly the delegate's rights of the batch it was asked about. */
  ghost predicate Truthful(a: Answer, b: Batch, mine: int -> bool) {
    a.Answered? ==> forall l :: l in a.levels <==> Within(l, b) && mine(l)
  }

  /** It does so for whatever range it is asked about. */
  ghost predicate TruthfulNode(node: (int, int) -> Answer, mine: int -> bool) {
    forall lo, hi :: Truthful(node(lo, hi), Batch(lo, hi), mine)
  }

  /**
   * Against a truthful node a found level is an own right inside the horizon, and no own right
   * before it can hide anywhere but in a batch whose query failed.
   */
  lemma FoundIsNextRight(current: int, blocksPerCycle: int, node: (int, int) -> Answer, mine: int -> bool, level: int, calls: nat, earlier: int)
    requires blocksPerCycle >= 2 && TruthfulNode(node, mine)
    requires ScanReport(Asked(current, blocksPerCycle, node), BatchCount(blocksPerCycle), Found(level), calls)
    ensures current < level <= current + 2 * blocksPerCycle && mine(level)
    ensures current < earlier < level && mine(earlier) ==>
              exists i: nat :: i < calls && Asked(current, blocksPerCycle, node)(i).Unanswered? && Within(earlier, BatchAt(current, blocksPerCycle, i))
  {
    var answers := Asked(current, blocksPerCycle, node);
    var k: nat :| k + 1 == calls && answers(k).Answered? && level in answers(k).levels;
    assert Truthful(answers(k), BatchAt(current, blocksPerCycle, k), mine);
    BatchesInside(current, blocksPerCycle, k);
    if current < earlier < level && mine(earlier) {
      var i := BatchesPartition(current, blocksPerCycle, earlier);
      if k < i {
        BatchesOrdered(current, blocksPerCycle, k, i);
      }
      assert Truthful(answers(i), BatchAt(current, blocksPerCycle, i), mine);
    }
  }

  /** Against a truthful node "none scheduled" leaves only failed or never-asked batches unaccounted. */
  lemma NoneScheduledExact(current: int, blocksPerCycle: int, node: (int, int) -> Answer, mine: int -> bool, calls: nat, level: int)
    requires blocksPerCycle >= 2 && TruthfulNode(node, mine)
    requires ScanReport(Asked(current, blocksPerCycle, node), BatchCount(blocksPerCycle), NoneScheduled, calls)
    requires current < level <= current + 2 * blocksPerCycle && mine(level)
    ensures exists i: nat :: i < BatchCount(blocksPerCycle) && Within(level, BatchAt(current, blocksPerCycle, i))
              && (i >= calls || !Asked(current, blocksPerCycle, node)(i).Answered?)
  {
    var answers := Asked(current, blocksPerCycle, node);
    var i := BatchesPartition(current, blocksPerCycle, level);
    assert Truthful(answers(i), BatchAt(current, blocksPerCycle, i), mine);
  }
}
