/**
 * Hashing the rootfs partition of an image while it streams past (host-utility/src/rootfs.rs).
 * The partition table is the legacy MBR of section 5.2.1 of the UEFI Specification.
 */
module Rootfs {
  import opened Prelude

  const SECTOR_SIZE: nat := 512
  const MBR_LEN: nat := 512
  /** Offset of partition entry 2 in the partition table. */
  const PARTITION_2_ENTRY: nat := 446 + 16

  datatype RootfsError = Truncated | NoSignature | NoPartition | ZeroExtent | ImageTooShort

  function U32Le(b: seq<Byte>, at: nat): (r: nat)
    requires at + 4 <= |b|
    ensures r <= U32_MAX
  {
    b[at] as int + 256 * (b[at + 1] as int) + 65536 * (b[at + 2] as int) + 16777216 * (b[at + 3] as int)
  }

  /** Byte range `[start, end)` of partition 2. */
  function RootfsRegion(mbr: seq<Byte>): (r: Result<(nat, nat), RootfsError>)
    ensures r.Ok? ==> MBR_LEN <= r.value.0 < r.value.1
  {
    if |mbr| < MBR_LEN then Err(Truncated)
    else if mbr[510] != 0x55 || mbr[511] != 0xAA then Err(NoSignature)
    else if mbr[PARTITION_2_ENTRY + 4] == 0 then Err(NoPartition)
    else
      var lbaStart, sectors := U32Le(mbr, PARTITION_2_ENTRY + 8), U32Le(mbr, PARTITION_2_ENTRY + 12);
      if lbaStart == 0 || sectors == 0 then Err(ZeroExtent)
      else Ok((lbaStart * SECTOR_SIZE, (lbaStart + sectors) * SECTOR_SIZE))
  }

  function Min(a: int, b: int): int {
    if a < b then a else b
  }

  function Max(a: int, b: int): int {
    if a < b then b else a
  }

  /** The part of `[lo, hi)` that the stream has reached. */
  function Slice(s: seq<Byte>, lo: nat, hi: nat): seq<Byte>
    requires lo <= hi
  {
    s[Min(lo, |s|)..Min(hi, |s|)]
  }

  /** The table of a stream is its first sector. */
  function TableOf(stream: seq<Byte>): seq<Byte> {
    stream[..Min(MBR_LEN, |stream|)]
  }

  /** The simple form: wait for the whole image, then hash partition 2 of it. */
  function RootfsDigest<D>(image: seq<Byte>, hash: seq<Byte> -> D): Result<D, RootfsError> {
    if |image| < MBR_LEN then Err(Truncated)
    else
      var region := RootfsRegion(TableOf(image));
      if region.Err? then Err(region.error)
      else if |image| < region.value.1 then Err(ImageTooShort)
      else Ok(hash(image[region.value.0..region.value.1]))
  }

  /** A range of a concatenation that starts in the first part. */
  lemma RangeAcross(s: seq<Byte>, buf: seq<Byte>, lo: nat, hi: nat)
    requires lo <= |s| <= hi <= |s| + |buf|
    ensures (s + buf)[lo..hi] == s[lo..] + buf[..hi - |s|]
  {
    var x, y := (s + buf)[lo..hi], s[lo..] + buf[..hi - |s|];
    forall i | 0 <= i < |x|
      ensures x[i] == y[i]
    {
      assert x[i] == (s + buf)[lo + i];
    }
  }

  lemma RangeAfter(s: seq<Byte>, buf: seq<Byte>, lo: nat, hi: nat)
    requires |s| <= lo <= hi <= |s| + |buf|
    ensures (s + buf)[lo..hi] == buf[lo - |s|..hi - |s|]
  {
    var x, y := (s + buf)[lo..hi], buf[lo - |s|..hi - |s|];
    forall i | 0 <= i < |x|
      ensures x[i] == y[i]
    {
      assert x[i] == (s + buf)[lo + i];
    }
  }

  lemma RangeWithin(s: seq<Byte>, buf: seq<Byte>, lo: nat, hi: nat)
    requires lo <= hi <= |s|
    ensures (s + buf)[lo..hi] == s[lo..hi]
  {
  }

  /** The bytes of `[lo, hi)` that arrive with one more buffer. */
  function Arriving(n: nat, buf: seq<Byte>, lo: nat, hi: nat): seq<Byte> {
    var a, b := Max(n, lo), Min(n + |buf|, hi);
    if a < b then buf[a - n..b - n] else []
  }

  lemma SliceGrows(s: seq<Byte>, buf: seq<Byte>, lo: nat, hi: nat)
    requires lo < hi
    ensures Slice(s + buf, lo, hi) == Slice(s, lo, hi) + Arriving(|s|, buf, lo, hi)
  {
    if hi <= |s| {
      RangeWithin(s, buf, lo, hi);
    } else if lo < |s| {
      var b := Min(|s| + |buf|, hi);
      RangeAcross(s, buf, lo, b);
      assert Slice(s, lo, hi) == s[lo..];
      assert Arriving(|s|, buf, lo, hi) == buf[..b - |s|];
    } else {
      assert Slice(s, lo, hi) == [];
      if lo < |s| + |buf| {
        RangeAfter(s, buf, lo, Min(|s| + |buf|, hi));
      }
    }
  }

  lemma TableGrows(stream: seq<Byte>, buf: seq<Byte>)
    ensures |stream| < MBR_LEN ==> TableOf(stream) + buf[..Min(MBR_LEN - |stream|, |buf|)] == TableOf(stream + buf)
    ensures |stream| >= MBR_LEN ==> TableOf(stream + buf) == TableOf(stream)
  {
  }

  lemma NothingYet(stream: seq<Byte>, lo: nat, hi: nat)
    requires |stream| <= lo <= hi
    ensures Slice(stream, lo, hi) == []
  {
  }

  /** The streaming form: a sink that parses the table as it arrives and hashes one region. */
  class RootfsRegionHasher {
    var pos: nat
    var mbr: seq<Byte>
    var region: Option<(nat, nat)>
    /** What the digest has absorbed so far. */
    var absorbed: seq<Byte>
    /** Every byte accepted so far. */
    ghost var stream: seq<Byte>

    ghost predicate Valid()
      reads this
    {
      && pos == |stream|
      && mbr == TableOf(stream)
      && (|stream| < MBR_LEN ==> region.None? && absorbed == [])
      && (|stream| >= MBR_LEN ==>
            && RootfsRegion(mbr).Ok? && region == Some(RootfsRegion(mbr).value)
            && absorbed == Slice(stream, region.value.0, region.value.1))
    }

    /** An unusable table was seen: no later byte changes that. */
    ghost predicate Poisoned()
      reads this
    {
      |mbr| == MBR_LEN && region.None?
    }

    constructor ()
      ensures Valid() && stream == []
    {
      pos, mbr, region, absorbed := 0, [], None, [];
      stream := [];
    }

    method Write(buf: seq<Byte>) returns (r: Result<nat, RootfsError>)
      requires Valid() || Poisoned()
      modifies this
      ensures old(Valid()) ==>
                var seen := old(stream) + buf;
                if |old(stream)| < MBR_LEN <= |seen| && RootfsRegion(TableOf(seen)).Err?
                then r == Err(RootfsRegion(TableOf(seen)).error) && Poisoned()
                else r == Ok(|buf|) && Valid() && stream == seen
      ensures !old(Valid()) ==> r == Ok(|buf|) && Poisoned()
    {
      TableGrows(stream, buf);
      if |mbr| < MBR_LEN {
        var take := Min(MBR_LEN - |mbr|, |buf|);
        mbr := mbr + buf[..take];
        if |mbr| == MBR_LEN {
          var parsed := RootfsRegion(mbr);
          if parsed.Err? {
            return Err(parsed.error);
          }
          region := Some(parsed.value);
          NothingYet(stream, parsed.value.0, parsed.value.1);
        }
      }
      if region.Some? {
        Absorb(buf);
        SliceGrows(stream, buf, region.value.0, region.value.1);
      }
      pos := pos + |buf|;
      stream := stream + buf;
      return Ok(|buf|);
    }

    /** Feed the digest with the part of the buffer that lies in the region. */
    method Absorb(buf: seq<Byte>)
      requires region.Some?
      modifies this`absorbed
      ensures absorbed == old(absorbed) + Arriving(pos, buf, region.value.0, region.value.1)
    {
      var lo := Max(pos, region.value.0);
      var hi := Min(pos + |buf|, region.value.1);
      if lo < hi {
        absorbed := absorbed + buf[lo - pos..hi - pos];
      }
    }

    method Finish<D>(hash: seq<Byte> -> D) returns (r: Result<D, RootfsError>)
      requires Valid() || Poisoned()
      ensures Valid() ==> r == RootfsDigest(stream, hash)
      ensures Poisoned() ==> r.Err?
    {
      if region.None? {
        return Err(Truncated);
      }
      if pos < region.value.1 {
        return Err(ImageTooShort);
      }
      return Ok(hash(absorbed));
    }
  }

  function Concat(chunks: seq<seq<Byte>>): seq<Byte> {
    if chunks == [] then [] else Concat(chunks[..|chunks| - 1]) + chunks[|chunks| - 1]
  }

  lemma {:induction false} ConcatPrefix(chunks: seq<seq<Byte>>, i: nat)
    requires i <= |chunks|
    ensures Concat(chunks[..i]) <= Concat(chunks)
  {
    if i < |chunks| {
      ConcatPrefix(chunks[..|chunks| - 1], i);
      assert chunks[..|chunks| - 1][..i] == chunks[..i];
    } else {
      assert chunks[..i] == chunks;
    }
  }

  /** A table that is unusable stays unusable, whatever follows it. */
  lemma BadTableIsFinal<D>(seen: seq<Byte>, image: seq<Byte>, hash: seq<Byte> -> D)
    requires seen <= image && |seen| >= MBR_LEN && RootfsRegion(TableOf(seen)).Err?
    ensures RootfsDigest(image, hash) == Err(RootfsRegion(TableOf(seen)).error)
  {
    assert TableOf(image) == TableOf(seen);
  }

  /** Chunking does not matter: any way of splitting an image gives the result for the whole image. */
  method HashChunks<D>(chunks: seq<seq<Byte>>, hash: seq<Byte> -> D) returns (r: Result<D, RootfsError>)
    ensures r == RootfsDigest(Concat(chunks), hash)
  {
    var hasher := new RootfsRegionHasher();
    for i := 0 to |chunks|
      invariant hasher.Valid() && hasher.stream == Concat(chunks[..i])
    {
      assert chunks[..i + 1][..i] == chunks[..i];
      ghost var seen := Concat(chunks[..i + 1]);
      var w := hasher.Write(chunks[i]);
      if w.Err? {
        ConcatPrefix(chunks, i + 1);
        BadTableIsFinal(seen, Concat(chunks), hash);
        return Err(w.error);
      }
    }
    assert chunks[..|chunks|] == chunks;
    r := hasher.Finish(hash);
  }

  /** The digest exists exactly when the table is valid and the image reaches the end of partition 2. */
  lemma DigestExistsIff<D>(image: seq<Byte>, hash: seq<Byte> -> D)
    ensures RootfsDigest(image, hash).Ok? <==>
              |image| >= MBR_LEN && RootfsRegion(image[..MBR_LEN]).Ok? && |image| >= RootfsRegion(image[..MBR_LEN]).value.1
    ensures RootfsDigest(image, hash).Ok? ==>
              var (start, end) := RootfsRegion(image[..MBR_LEN]).value;
              RootfsDigest(image, hash).value == hash(image[start..end])
  {
    if |image| >= MBR_LEN {
      assert TableOf(image) == image[..MBR_LEN];
    }
  }

  // ---------------------------------------------------------------------------
  // The tee
  // ---------------------------------------------------------------------------

  lemma ResumeAt(base: seq<Byte>, data: seq<Byte>, sent: nat, n: nat)
    requires sent + n <= |data|
    ensures base + data[..sent] + data[sent..][..n] == base + data[..sent + n]
  {
    assert data[..sent] + data[sent..][..n] == data[..sent + n];
  }

  datatype IoError = Interrupted | WriteZero | Other

  /** Forwards every byte to an inner writer and hashes the bytes that writer accepted. */
  /** How much of `total` bytes a writer takes that gives these answers to one write after another. */
  function Delivered(total: nat, answers: seq<Result<nat, IoError>>): (n: nat)
    ensures n <= total
  {
    if total == 0 || answers == [] then 0
    else
      match answers[0]
      case Err(Interrupted) => Delivered(total, answers[1..])
      case Err(_) => 0
      case Ok(n) => if n == 0 then 0 else if n >= total then total else n + Delivered(total - n, answers[1..])
  }

  /** After `i` answers, `sent` bytes are delivered and the rest is up to the remaining answers. */
  ghost predicate Underway(total: nat, answers: seq<Result<nat, IoError>>, i: nat, sent: nat) {
    i <= |answers| && sent <= total && Delivered(total, answers) == sent + Delivered(total - sent, answers[i..])
  }

  lemma UnderwayStep(total: nat, answers: seq<Result<nat, IoError>>, i: nat, sent: nat)
    requires i < |answers| && sent < total && Underway(total, answers, i, sent)
    ensures answers[i] == Err(Interrupted) ==> Underway(total, answers, i + 1, sent)
    ensures answers[i].Err? && !answers[i].error.Interrupted? ==> Delivered(total, answers) == sent
    ensures answers[i] == Ok(0) ==> Delivered(total, answers) == sent
    ensures answers[i].Ok? && answers[i].value > 0 ==> Underway(total, answers, i + 1, sent + Min(answers[i].value, total - sent))
  {
    assert answers[i..][0] == answers[i] && answers[i..][1..] == answers[i + 1..];
  }

  lemma UnderwayEnds(total: nat, answers: seq<Result<nat, IoError>>, i: nat, sent: nat)
    requires Underway(total, answers, i, sent) && (sent == total || i == |answers|)
    ensures Delivered(total, answers) == sent
  {
  }

  /** How many bytes the answers would take in all. */
  function Capacity(answers: seq<Result<nat, IoError>>): nat {
    if answers == [] then 0 else (if answers[0].Ok? then answers[0].value else 0) + Capacity(answers[1..])
  }

  /** A writer that never refuses and has room for all of it takes all of it. */
  lemma {:induction false} WillingWriterTakesAll(total: nat, answers: seq<Result<nat, IoError>>)
    requires forall a | a in answers :: if a.Ok? then a.value > 0 else a.error.Interrupted?
    ensures Delivered(total, answers) == if Capacity(answers) < total then Capacity(answers) else total
  {
    if total > 0 && answers != [] {
      assert answers[0] in answers;
      if answers[0].Err? {
        WillingWriterTakesAll(total, answers[1..]);
      } else if answers[0].value < total {
        WillingWriterTakesAll(total - answers[0].value, answers[1..]);
      }
    }
  }

  class HashingWriter {
    /** Everything the inner writer has accepted. */
    var accepted: seq<Byte>
    var hasher: RootfsRegionHasher
    var failure: Option<RootfsError>

    ghost predicate Valid()
      reads this, hasher
    {
      && (failure.None? ==> hasher.Valid() && hasher.stream == accepted)
      && (failure.Some? ==> |accepted| >= MBR_LEN && RootfsRegion(TableOf(accepted)) == Err(failure.value))
    }

    constructor ()
      ensures Valid() && fresh(hasher) && accepted == []
    {
      hasher := new RootfsRegionHasher();
      accepted, failure := [], None;
    }

    /** `inner` is what the wrapped writer answers; it is passed on unchanged. */
    method Write(buf: seq<Byte>, inner: Result<nat, IoError>) returns (r: Result<nat, IoError>)
      requires Valid() && (inner.Ok? ==> inner.value <= |buf|)
      modifies this, hasher
      ensures Valid() && hasher == old(hasher)
      ensures r == inner
      ensures accepted == old(accepted) + if inner.Ok? then buf[..inner.value] else []
    {
      if inner.Err? {
        return inner;
      }
      var n := inner.value;
      ghost var before := accepted;
      accepted := accepted + buf[..n];
      if failure.None? && n > 0 {
        var w := hasher.Write(buf[..n]);
        if w.Err? {
          failure := Some(w.error);
        }
      }
      assert failure.Some? && |before| >= MBR_LEN ==> TableOf(accepted) == TableOf(before);
      return inner;
    }

    /** The hash is the simple form's verdict on exactly the accepted bytes. */
    method Finish<D>(hash: seq<Byte> -> D) returns (r: Result<D, RootfsError>)
      requires Valid()
      ensures r == RootfsDigest(accepted, hash)
    {
      if failure.Some? {
        return Err(failure.value);
      }
      r := hasher.Finish(hash);
    }

    /** Offer what is left after `sent` bytes; an inner writer cannot accept more than it was given. */
    method Offer(ghost base: seq<Byte>, data: seq<Byte>, sent: nat, answer: Result<nat, IoError>) returns (w: Result<nat, IoError>)
      requires Valid() && sent <= |data| && accepted == base + data[..sent]
      modifies this, hasher
      ensures Valid() && hasher == old(hasher)
      ensures w == if answer.Ok? then Ok(Min(answer.value, |data| - sent)) else answer
      ensures accepted == base + data[..if w.Ok? then sent + w.value else sent]
    {
      w := Write(data[sent..], if answer.Ok? then Ok(Min(answer.value, |data| - sent)) else answer);
      if w.Ok? {
        ResumeAt(base, data, sent, w.value);
      }
    }

    /** Re-sending what a short write left over, until all is accepted or an error ends it. */
    method WriteAll(data: seq<Byte>, answers: seq<Result<nat, IoError>>) returns (r: Result<(), IoError>, sent: nat)
      requires Valid()
      modifies this, hasher
      ensures Valid() && hasher == old(hasher)
      ensures sent == Delivered(|data|, answers) && accepted == old(accepted) + data[..sent]
      ensures r.Ok? <==> sent == |data|
    {
      sent := 0;
      assert answers[0..] == answers;
      var i := 0;
      while i < |answers| && sent < |data|
        invariant sent <= |data| && Valid() && hasher == old(hasher)
        invariant accepted == old(accepted) + data[..sent]
        invariant Underway(|data|, answers, i, sent)
      {
        UnderwayStep(|data|, answers, i, sent);
        var w := Offer(old(accepted), data, sent, answers[i]);
        i := i + 1;
        if w.Err? {
          if w.error.Interrupted? {
            continue;
          }
          return Err(w.error), sent;
        }
        if w.value == 0 {
          return Err(WriteZero), sent;
        }
        sent := sent + w.value;
      }
      UnderwayEnds(|data|, answers, i, sent);
      r := if sent == |data| then Ok(()) else Err(Other);
    }
  }
}

/** The legacy MBR of section 5.2.1 of the UEFI Specification, as it is laid out on a disk. */
module PartitionTable {
  import opened Prelude
  import opened Rootfs

  /** One of the four partition records; the C/H/S addresses are three bytes each. */
  datatype Record = Record(boot: Byte, firstChs: seq<Byte>, kind: Byte, lastChs: seq<Byte>, lba: U32, sectors: U32)

  /** The `n` low-order bytes of a number, least significant first. */
  function LittleEndian(v: nat, n: nat): (r: seq<Byte>)
    ensures |r| == n
  {
    if n == 0 then [] else [v % 256] + LittleEndian(v / 256, n - 1)
  }

  ghost predicate Proper(records: seq<Record>) {
    |records| == 4 && forall r | r in records :: |r.firstChs| == 3 && |r.lastChs| == 3
  }

  function RecordBytes(r: Record): seq<Byte> {
    [r.boot] + r.firstChs + [r.kind] + r.lastChs + LittleEndian(r.lba, 4) + LittleEndian(r.sectors, 4)
  }

  /** Boot code and disk signature, four records, and the two signature bytes. */
  function TableBytes(code: seq<Byte>, records: seq<Record>): seq<Byte>
    requires |code| == 446 && |records| == 4
  {
    code + RecordBytes(records[0]) + RecordBytes(records[1]) + RecordBytes(records[2]) + RecordBytes(records[3]) + [0x55, 0xAA]
  }

  lemma LittleEndianValue(v: U32)
    ensures U32Le(LittleEndian(v, 4), 0) == v
  {
    var v1, v2, v3 := v / 256, v / 256 / 256, v / 256 / 256 / 256;
    assert LittleEndian(v, 4) == [v % 256] + LittleEndian(v1, 3);
    assert LittleEndian(v1, 3) == [v1 % 256] + LittleEndian(v2, 2);
    assert LittleEndian(v2, 2) == [v2 % 256] + LittleEndian(v3, 1);
    assert LittleEndian(v3, 1) == [v3 % 256] + LittleEndian(v3 / 256, 0);
    assert v3 < 256;
  }

  lemma RecordFields(r: Record)
    requires |r.firstChs| == 3 && |r.lastChs| == 3
    ensures var b := RecordBytes(r);
            |b| == 16 && b[4] == r.kind && b[8..12] == LittleEndian(r.lba, 4) && b[12..16] == LittleEndian(r.sectors, 4)
  {
  }

  lemma Regrouped(code: seq<Byte>, a: seq<Byte>, b: seq<Byte>, c: seq<Byte>, d: seq<Byte>, e: seq<Byte>)
    ensures code + a + b + c + d + e == (code + a) + b + (c + d + e)
  {
  }

  lemma MiddleOf(x: seq<Byte>, y: seq<Byte>, z: seq<Byte>)
    ensures (x + y + z)[|x|..|x| + |y|] == y && (x + y + z)[|x| + |y|..] == z
  {
  }

  lemma SecondRecord(code: seq<Byte>, records: seq<Record>)
    requires |code| == 446 && Proper(records)
    ensures var t := TableBytes(code, records);
            |t| == 512 && t[462..478] == RecordBytes(records[1]) && t[510] == 0x55 && t[511] == 0xAA
  {
    var r0, r1, r2, r3 := RecordBytes(records[0]), RecordBytes(records[1]), RecordBytes(records[2]), RecordBytes(records[3]);
    RecordFields(records[0]);
    RecordFields(records[1]);
    RecordFields(records[2]);
    RecordFields(records[3]);
    Regrouped(code, r0, r1, r2, r3, [0x55, 0xAA]);
    var t, tail := TableBytes(code, records), r2 + r3 + [0x55, 0xAA];
    MiddleOf(code + r0, r1, tail);
    assert t[478..] == tail && tail[32] == 0x55 && tail[33] == 0xAA;
  }

  lemma U32LeAt(b: seq<Byte>, at: nat, v: U32)
    requires at + 4 <= |b| && b[at..at + 4] == LittleEndian(v, 4)
    ensures U32Le(b, at) == v
  {
    LittleEndianValue(v);
    var field := b[at..at + 4];
    assert field[0] == b[at] && field[1] == b[at + 1] && field[2] == b[at + 2] && field[3] == b[at + 3];
  }

  /** The region read from a partition table is the extent of its second record. */
  lemma RegionIsSecondPartition(code: seq<Byte>, records: seq<Record>)
    requires |code| == 446 && Proper(records)
    ensures var r := records[1];
            RootfsRegion(TableBytes(code, records)) ==
              if r.kind == 0 then Err(NoPartition)
              else if r.lba == 0 || r.sectors == 0 then Err(ZeroExtent)
              else Ok((r.lba * 512, (r.lba + r.sectors) * 512))
  {
    var t, r := TableBytes(code, records), records[1];
    SecondRecord(code, records);
    RecordFields(r);
    var b := t[462..478];
    assert t[466] == b[4] && t[470..474] == b[8..12] && t[474..478] == b[12..16];
    U32LeAt(t, 470, r.lba);
    U32LeAt(t, 474, r.sectors);
  }

  /** A sector that is no partition table is refused for what it lacks. */
  lemma NoTable(mbr: seq<Byte>)
    ensures RootfsRegion(mbr) == Err(Truncated) <==> |mbr| < 512
    ensures RootfsRegion(mbr) == Err(NoSignature) <==> |mbr| >= 512 && (mbr[510] != 0x55 || mbr[511] != 0xAA)
  {
  }

  /** The digest of an image that begins with a partition table is the hash of its second partition. */
  lemma DigestOfSecondPartition<D>(image: seq<Byte>, hash: seq<Byte> -> D, code: seq<Byte>, records: seq<Record>)
    requires |code| == 446 && Proper(records) && |image| >= 512 && image[..512] == TableBytes(code, records)
    ensures var r := records[1];
            RootfsDigest(image, hash) ==
              if r.kind == 0 then Err(NoPartition)
              else if r.lba == 0 || r.sectors == 0 then Err(ZeroExtent)
              else if |image| < (r.lba + r.sectors) * 512 then Err(ImageTooShort)
              else Ok(hash(image[r.lba * 512..(r.lba + r.sectors) * 512]))
  {
    RegionIsSecondPartition(code, records);
    assert TableOf(image) == image[..512];
  }
}
