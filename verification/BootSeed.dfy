/**
 * What consuming a staged boot config does on the device's next boot, and how the host's
 * "superseded" verdict relates to it (host-utility/src/disk.rs, rpi-signer/src/watermark_setup.rs,
 * libs/signer/src/high_watermark.rs).
 */
module BootSeed {
  import opened Prelude
  import opened Card
  import HighWatermark

  // ---------------------------------------------------------------------------
  // The rule the host documents: seed every file, never lower one
  // ---------------------------------------------------------------------------

  function SeededStatus(s: FileStatus, level: U32): FileStatus {
    if s.Valid? && s.level >= level then s else Valid(level)
  }

  /** Consuming the config would change no floor level and no chain id. */
  ghost predicate DocumentedNoop(c: CardState, bc: BootConfig) {
    && ChainCurrent(c.chainInfo, bc.chainId)
    && forall k, f | k in c.watermarks && f in k.files :: SeededStatus(f.status, bc.level) == f.status
  }

  /** On its own chain a config is judged superseded exactly when consuming it would change nothing. */
  lemma SupersededIffNoop(c: CardState, bc: BootConfig)
    requires c.inspection.Inspected? && c.watermarks != [] && forall k | k in c.watermarks :: k.files != []
    ensures Superseded(c, bc.chainId, bc) <==> DocumentedNoop(c, bc)
  {
    if DocumentedNoop(c, bc) {
      forall k, f | k in c.watermarks && f in k.files
        ensures FileCovers(f, bc.level)
      {
        assert SeededStatus(f.status, bc.level) == f.status;
      }
    }
  }

  // ---------------------------------------------------------------------------
  // The rule the device runs: one floor per key, from marks it can authenticate
  // ---------------------------------------------------------------------------

  /** What only the device knows: which marks verify under its MAC key, and their rounds. */
  datatype DeviceView = DeviceView(authentic: (string, nat) -> bool, round: (string, nat) -> U32)

  /** The three watermark files are either all listed or the directory is absent. */
  ghost predicate FullFileLists(c: CardState) {
    forall k | k in c.watermarks :: k.files == [] || |k.files| == HighWatermark.OPS
  }

  /** The mark the device loads for one file. */
  function LoadedMark(k: KeyWatermarks, i: nat, v: DeviceView): Option<HighWatermark.Mark> {
    if i < |k.files| && k.files[i].status.Valid? && v.authentic(k.pkh, i)
    then Some(HighWatermark.Mark(k.files[i].status.level, v.round(k.pkh, i)))
    else None
  }

  function LoadedRow(k: KeyWatermarks, v: DeviceView): (r: seq<HighWatermark.Cell>)
    ensures |r| == HighWatermark.OPS
    ensures forall i | 0 <= i < HighWatermark.OPS :: r[i].entry == LoadedMark(k, i, v)
  {
    seq(HighWatermark.OPS, i requires 0 <= i < HighWatermark.OPS => HighWatermark.Cell(LoadedMark(k, i, v), None, LoadedMark(k, i, v)))
  }

  /** The device reads a config only after setup, with no migration pending, and only if it validates. */
  predicate DeviceConsumes(c: CardState, bc: BootConfig) {
    && c.setupComplete && !c.migrationPending
    && StartsWith(bc.chainId, "Net") && 0 < bc.level <= 100_000_000
  }

  /** Some authenticated mark of the key is at or above the level. */
  predicate HasFloor(k: KeyWatermarks, level: U32, v: DeviceView) {
    exists i | 0 <= i < |k.files| :: FileCovers(k.files[i], level) && v.authentic(k.pkh, i)
  }

  /** Nothing about the key's entries changes when the level is seeded. */
  ghost predicate SeedLeaves(k: KeyWatermarks, level: U32, v: DeviceView) {
    HighWatermark.SeededCells(LoadedRow(k, v), level, []) == LoadedRow(k, v)
  }

  lemma SeedLeavesIff(k: KeyWatermarks, level: U32, v: DeviceView)
    requires k.files == [] || |k.files| == HighWatermark.OPS
    ensures SeedLeaves(k, level, v) <==> HasFloor(k, level, v)
  {
    var row := LoadedRow(k, v);
    var max := HighWatermark.MaxLevel(row);
    if HasFloor(k, level, v) {
      var i :| 0 <= i < |k.files| && FileCovers(k.files[i], level) && v.authentic(k.pkh, i);
      assert row[i].entry.Some? && row[i].entry.value.level >= level;
    } else {
      if max.Some? {
        var i :| 0 <= i < |row| && row[i].entry.Some? && row[i].entry.value.level == max.value;
        assert LoadedMark(k, i, v).Some? && !FileCovers(k.files[i], level);
      }
      var seeded := HighWatermark.UpdatedCells(row, level, []);
      assert seeded[0].entry == Some(HighWatermark.Mark(level, 0));
      assert row[0].entry != Some(HighWatermark.Mark(level, 0));
    }
  }

  /** Consuming the config on the next boot would change neither the chain id nor any key's floor. */
  ghost predicate BootNoop(c: CardState, bc: BootConfig, v: DeviceView) {
    DeviceConsumes(c, bc) ==>
      ChainCurrent(c.chainInfo, bc.chainId) && forall k | k in c.watermarks :: SeedLeaves(k, bc.level, v)
  }

  function Prefix(s: string): nat {
    if |s| < 3 then |s| else 3
  }

  /** A config the device does not take changes nothing: before setup, during a migration, or when it does not validate. */
  lemma NotTaken(c: CardState, bc: BootConfig, v: DeviceView)
    requires !c.setupComplete || c.migrationPending || bc.chainId[..Prefix(bc.chainId)] != "Net" || bc.level == 0 || bc.level > 100_000_000
    ensures BootNoop(c, bc, v)
  {
  }

  /** The exact no-op condition on the device: one authenticated mark per key is enough. */
  lemma BootNoopIff(c: CardState, bc: BootConfig, v: DeviceView)
    requires FullFileLists(c) && c.setupComplete && !c.migrationPending && bc.chainId[..Prefix(bc.chainId)] == "Net" && 1 <= bc.level <= 100_000_000
    ensures BootNoop(c, bc, v)
       <==> (ChainCurrent(c.chainInfo, bc.chainId) && forall k | k in c.watermarks :: HasFloor(k, bc.level, v))
  {
    forall k | k in c.watermarks {
      SeedLeavesIff(k, bc.level, v);
    }
  }

  /**
   * A superseded config is a no-op on the device exactly when every key still has one mark the
   * device can authenticate: the host has no MAC key and cannot see this part.
   */
  lemma SupersededNoopIff(c: CardState, bc: BootConfig, v: DeviceView)
    requires FullFileLists(c) && DeviceConsumes(c, bc) && Superseded(c, bc.chainId, bc)
    ensures BootNoop(c, bc, v)
       <==> forall k | k in c.watermarks :: exists i | 0 <= i < |k.files| :: v.authentic(k.pkh, i)
  {
    BootNoopIff(c, bc, v);
    forall k | k in c.watermarks
      ensures HasFloor(k, bc.level, v) <==> exists i | 0 <= i < |k.files| :: v.authentic(k.pkh, i)
    {
      if i :| 0 <= i < |k.files| && v.authentic(k.pkh, i) {
        assert k.files[i] in k.files && FileCovers(k.files[i], bc.level);
      }
    }
  }

  /** Deleting a superseded config loses nothing when the marks on the card are the device's own. */
  lemma DeletionIsSafe(c: CardState, bc: BootConfig, v: DeviceView)
    requires FullFileLists(c) && Superseded(c, bc.chainId, bc)
    requires forall k, i | k in c.watermarks && 0 <= i < |k.files| :: v.authentic(k.pkh, i)
    ensures BootNoop(c, bc, v)
  {
    if DeviceConsumes(c, bc) {
      forall k | k in c.watermarks
        ensures exists i | 0 <= i < |k.files| :: v.authentic(k.pkh, i)
      {
        assert k.files != [] && v.authentic(k.pkh, 0);
      }
      SupersededNoopIff(c, bc, v);
    }
  }

  /** A config that is a no-op on the device is called superseded exactly when every file covers its level. */
  lemma NoopSupersededIff(c: CardState, bc: BootConfig, v: DeviceView)
    requires FullFileLists(c) && DeviceConsumes(c, bc) && BootNoop(c, bc, v)
    ensures Superseded(c, bc.chainId, bc) <==>
              && c.inspection.Inspected? && c.watermarks != []
              && forall k, f | k in c.watermarks && f in k.files :: FileCovers(f, bc.level)
  {
    BootNoopIff(c, bc, v);
  }

  /** The verdict is stricter than the device: a no-op config can be kept because one file lags behind. */
  lemma NoopNotSuperseded()
    ensures exists c: CardState, bc: BootConfig, v: DeviceView ::
              FullFileLists(c) && DeviceConsumes(c, bc) && BootNoop(c, bc, v) && !Superseded(c, bc.chainId, bc)
  {
    var bc := BootConfig("NetX", 150);
    var high := WatermarkFile("block_watermark", Valid(200), DEVICE_OWNER);
    var low := WatermarkFile("attestation_watermark", Valid(100), DEVICE_OWNER);
    var k := KeyWatermarks("tz4", true, DEVICE_OWNER, [high, low, low]);
    var c := CardState(Inspected, true, false, KeysAbsent, Present("NetX", None, None), [k], true, None, Some(bc));
    var v := DeviceView((pkh, i) => true, (pkh, i) => 0);
    assert k.files[1] == low && !FileCovers(low, 150);
    assert k in c.watermarks && low in k.files;
    assert !Superseded(c, bc.chainId, bc);
    assert FileCovers(k.files[0], 150);
    assert bc.chainId[..3] == "Net";
    BootNoopIff(c, bc, v);
  }
}
