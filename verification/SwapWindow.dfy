/** Choosing a swap window between a delegate's baking slots (host-utility/src/rotate_keys.rs). */
module SwapWindow {
  import opened Prelude

  /** A baking right as the node reports it; missing members are `None`. */
  datatype Right = Right(delegate: Option<string>, round: Option<int>, level: Option<int>)

  datatype Window = Window(start: int, end: int)

  const MIN_GAP: int := 30

  predicate Ours(r: Right, delegate: string) {
    r.delegate == Some(delegate) && r.round == Some(0) && r.level.Some?
  }

  lemma OursIs(r: Right, delegate: string)
    ensures Ours(r, delegate) <==> r.level.Some? && r == Right(Some(delegate), Some(0), Some(r.level.value))
  {
  }

  /** The delegate's own round-0 levels among the reported rights. */
  ghost predicate OwnSlot(rights: seq<Right>, delegate: string, level: int) {
    Right(Some(delegate), Some(0), Some(level)) in rights
  }

  predicate Sorted(s: seq<int>) {
    forall i, j | 0 <= i < j < |s| :: s[i] <= s[j]
  }

  /** Keeping a list of levels sorted. */
  function Insert(x: int, s: seq<int>): seq<int> {
    if s == [] then [x]
    else if x <= s[0] then [x] + s
    else [s[0]] + Insert(x, s[1..])
  }

  lemma {:induction false} InsertFacts(x: int, s: seq<int>)
    requires Sorted(s)
    ensures Sorted(Insert(x, s)) && forall y :: y in Insert(x, s) <==> y == x || y in s
  {
    if s != [] && x > s[0] {
      var tail := s[1..];
      assert forall j | 0 <= j < |tail| :: tail[j] == s[j + 1];
      InsertFacts(x, tail);
      var rest := Insert(x, tail);
      forall k | 0 <= k < |rest|
        ensures s[0] <= rest[k]
      {
        assert rest[k] in rest;
        if rest[k] != x {
          var j :| 0 <= j < |tail| && tail[j] == rest[k];
        }
      }
      assert s == [s[0]] + tail;
    }
  }

  method OwnSlots(rights: seq<Right>, delegate: string) returns (slots: seq<int>)
    ensures Sorted(slots) && forall l :: l in slots <==> OwnSlot(rights, delegate, l)
  {
    slots := [];
    for i := 0 to |rights|
      invariant Sorted(slots) && forall l :: l in slots <==> OwnSlot(rights[..i], delegate, l)
    {
      assert rights[..i + 1] == rights[..i] + [rights[i]];
      OursIs(rights[i], delegate);
      if Ours(rights[i], delegate) {
        InsertFacts(rights[i].level.value, slots);
        slots := Insert(rights[i].level.value, slots);
      }
    }
    assert rights[..|rights|] == rights;
  }

  /** Gap sizes as the search measures them: distance to the first slot, or between adjacent slots. */
  function Gap(start: int, slots: seq<int>, i: nat): int
    requires i < |slots|
  {
    if i == 0 then slots[0] - start else slots[i] - slots[i - 1]
  }

  /** The levels of gap `i`: everything before the slot that ends it and after the previous one. */
  function GapWindow(start: int, slots: seq<int>, i: nat): Window
    requires i < |slots|
  {
    Window(if i == 0 then start else slots[i - 1] + 1, slots[i] - 1)
  }

  /** The first gap of maximal size, if that size reaches the minimum. */
  ghost predicate IsBest(start: int, slots: seq<int>, n: nat, best: Option<nat>, size: int)
    requires n <= |slots|
  {
    && (best.None? ==> size == 0 && forall i: nat | i < n :: Gap(start, slots, i) < MIN_GAP)
    && (best.Some? ==> best.value < n && size == Gap(start, slots, best.value) >= MIN_GAP
                       && (forall i: nat | i < n :: Gap(start, slots, i) <= size)
                       && (forall i: nat | i < best.value :: Gap(start, slots, i) < size))
  }

  method FindGap(start: int, slots: seq<int>) returns (best: Option<nat>, window: Option<Window>)
    ensures exists size :: IsBest(start, slots, |slots|, best, size)
    ensures window == if best.Some? then Some(GapWindow(start, slots, best.value)) else None
  {
    best, window := None, None;
    var size := 0;
    if slots != [] {
      var gap := slots[0] - start;
      if gap >= MIN_GAP {
        best, window, size := Some(0), Some(Window(start, slots[0] - 1)), gap;
      }
      for i := 1 to |slots|
        invariant IsBest(start, slots, i, best, size)
        invariant window == if best.Some? then Some(GapWindow(start, slots, best.value)) else None
      {
        gap := slots[i] - slots[i - 1];
        assert gap == Gap(start, slots, i);
        if gap >= MIN_GAP && gap > size {
          best, window, size := Some(i), Some(Window(slots[i - 1] + 1, slots[i] - 1)), gap;
        }
      }
    }
    assert IsBest(start, slots, |slots|, best, size);
  }

  // ---------------------------------------------------------------------------
  // What the window is good for
  // ---------------------------------------------------------------------------

  function Length(w: Window): int {
    w.end - w.start + 1
  }

  ghost predicate Free(w: Window, slots: seq<int>) {
    forall l | l in slots :: !(w.start <= l <= w.end)
  }

  /** A free interval inside the cycle that ends before some own slot. */
  ghost predicate Candidate(start: int, slots: seq<int>, w: Window) {
    start <= w.start <= w.end && Free(w, slots) && exists l | l in slots :: w.end < l
  }

  /** The gap that contains a candidate. */
  lemma {:induction false} EnclosingGap(start: int, slots: seq<int>, w: Window, n: nat) returns (i: nat)
    requires Sorted(slots) && Candidate(start, slots, w)
    requires n < |slots| && w.end < slots[n]
    ensures i <= n && GapWindow(start, slots, i).start <= w.start && w.end <= GapWindow(start, slots, i).end
  {
    if n == 0 {
      i := 0;
    } else if w.end < slots[n - 1] {
      i := EnclosingGap(start, slots, w, n - 1);
    } else {
      i := n;
      assert slots[n - 1] in slots;
    }
  }

  lemma GapWindowLength(start: int, slots: seq<int>, i: nat)
    requires i < |slots|
    ensures Length(GapWindow(start, slots, i)) == if i == 0 then Gap(start, slots, i) else Gap(start, slots, i) - 1
  {
  }

  /** The chosen window holds no own slot and no candidate interval is longer. */
  lemma BestWindowIsLongest(start: int, slots: seq<int>, best: nat, size: int, w: Window)
    requires Sorted(slots) && IsBest(start, slots, |slots|, Some(best), size) && Candidate(start, slots, w)
    ensures Free(GapWindow(start, slots, best), slots) && Length(w) <= Length(GapWindow(start, slots, best))
  {
    GapIsFree(start, slots, best);
    var l :| l in slots && w.end < l;
    var n :| 0 <= n < |slots| && slots[n] == l;
    var i := EnclosingGap(start, slots, w, n);
    GapWindowLength(start, slots, i);
    GapWindowLength(start, slots, best);
    assert Gap(start, slots, i) <= size;
  }

  lemma GapIsFree(start: int, slots: seq<int>, i: nat)
    requires Sorted(slots) && i < |slots|
    ensures Free(GapWindow(start, slots, i), slots)
  {
  }

  /** When the default window is used, no interval between own slots reaches 30 levels. */
  lemma FallbackMeansNoGap(start: int, slots: seq<int>, size: int, w: Window)
    requires Sorted(slots) && IsBest(start, slots, |slots|, None, size) && Candidate(start, slots, w)
    ensures Length(w) < MIN_GAP
  {
    var l :| l in slots && w.end < l;
    var n :| 0 <= n < |slots| && slots[n] == l;
    var i := EnclosingGap(start, slots, w, n);
    GapWindowLength(start, slots, i);
    assert Gap(start, slots, i) < MIN_GAP;
  }

  /** The node reports only levels it was asked about: the first 100 of the cycle, or fewer. */
  ghost predicate WithinQuery(start: int, blocksPerCycle: int, rights: seq<Right>, delegate: string) {
    forall l | OwnSlot(rights, delegate, l) :: start <= l < start + (if blocksPerCycle < 100 then blocksPerCycle else 100)
  }

  /** The window shown to the operator, for a cycle that begins at `start`. */
  method CalculateSwapWindow(start: int, blocksPerCycle: int, rights: seq<Right>, delegate: string) returns (w: Window, gapBased: bool)
    ensures gapBased ==>
              && (forall l | OwnSlot(rights, delegate, l) :: !(w.start <= l <= w.end))
              && 29 <= Length(w)
              && (forall a, b | start <= a <= b && (exists l :: b < l && OwnSlot(rights, delegate, l))
                    && (forall l | OwnSlot(rights, delegate, l) :: !(a <= l <= b)) :: Length(Window(a, b)) <= Length(w))
    ensures gapBased && WithinQuery(start, blocksPerCycle, rights, delegate) ==>
              start <= w.start <= w.end < start + (if blocksPerCycle < 100 then blocksPerCycle else 100)
    ensures !gapBased ==> w == Window(start, start + 30)
    ensures !gapBased ==> forall a, b | start <= a <= b && (exists l :: b < l && OwnSlot(rights, delegate, l))
                    && (forall l | OwnSlot(rights, delegate, l) :: !(a <= l <= b))   :: Length(Window(a, b)) < 30
    // the fallback window is itself free exactly when the delegate has no slot at all
    ensures !gapBased && WithinQuery(start, blocksPerCycle, rights, delegate) ==>
              ((exists l :: OwnSlot(rights, delegate, l)) <==> exists l :: w.start <= l <= w.end && OwnSlot(rights, delegate, l))
  {
    var slots := OwnSlots(rights, delegate);
    var best, window := FindGap(start, slots);
    ghost var size :| IsBest(start, slots, |slots|, best, size);
    if best.Some? {
      w, gapBased := window.value, true;
      assert slots[best.value] in slots;
      assert best.value > 0 ==> slots[best.value - 1] in slots;
      GapIsFree(start, slots, best.value);
      forall a, b | start <= a <= b && (exists l :: b < l && OwnSlot(rights, delegate, l))
                    && (forall l | OwnSlot(rights, delegate, l) :: !(a <= l <= b))
        ensures Length(Window(a, b)) <= Length(w)
      {
        assert Candidate(start, slots, Window(a, b));
        BestWindowIsLongest(start, slots, best.value, size, Window(a, b));
      }
    } else {
      w, gapBased := Window(start, start + MIN_GAP), false;
      if slots != [] {
        assert slots[0] in slots && Gap(start, slots, 0) < MIN_GAP;
      }
      assert (exists l :: OwnSlot(rights, delegate, l)) ==> slots != [];
      forall a, b | start <= a <= b && (exists l :: b < l && OwnSlot(rights, delegate, l))
                    && (forall l | OwnSlot(rights, delegate, l) :: !(a <= l <= b))
        ensures Length(Window(a, b)) < MIN_GAP
      {
        assert Candidate(start, slots, Window(a, b));
        FallbackMeansNoGap(start, slots, size, Window(a, b));
      }
    }
  }
}
