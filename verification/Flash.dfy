/** Reading a flashed card back and recording its rootfs hash (host-utility/src/image.rs). */
module Flash {
  import opened Prelude
  import opened Rootfs
  import opened PartitionTable

  /** A sink that hashes and counts. */
  class HashCounter {
    var absorbed: seq<Byte>
    var bytes: nat

    ghost predicate Valid()
      reads this
    {
      bytes == |absorbed|
    }

    constructor ()
      ensures Valid() && absorbed == []
    {
      absorbed, bytes := [], 0;
    }

    method Write(buf: seq<Byte>)
      requires Valid()
      modifies this
      ensures Valid() && absorbed == old(absorbed) + buf
    {
      absorbed := absorbed + buf;
      bytes := bytes + |buf|;
    }
  }

  /** Copy the first `len` bytes of a reader into a hash; `sizes` says how much each read returns at most. */
  method HashReaderPrefix<D>(content: seq<Byte>, len: nat, sizes: nat -> nat, hash: seq<Byte> -> D) returns (digest: D, read: nat)
    requires forall i: nat :: sizes(i) > 0
    ensures read == Min(len, |content|) && digest == hash(content[..read])
  {
    var sink := new HashCounter();
    var limit := Min(len, |content|);
    var at: nat, i: nat := 0, 0;
    while at < limit
      invariant at <= limit && sink.Valid() && sink.absorbed == content[..at]
    {
      var n := Min(sizes(i), limit - at);
      assert content[..at] + content[at..at + n] == content[..at + n];
      sink.Write(content[at..at + n]);
      at, i := at + n, i + 1;
    }
    digest, read := hash(sink.absorbed), sink.bytes;
  }

  datatype ReadbackError = ReadShort | Mismatch

  /** Compare the card with the decompressed image. */
  method VerifyReadback<D(==)>(image: seq<Byte>, device: seq<Byte>, sizes: nat -> nat, hash: seq<Byte> -> D) returns (e: Option<ReadbackError>)
    requires forall i: nat :: sizes(i) > 0
    ensures e.None? <==> |device| >= |image| && hash(device[..|image|]) == hash(image)
    ensures e == Some(ReadShort) <==> |device| < |image|
    ensures e == Some(Mismatch) <==> |device| >= |image| && hash(device[..|image|]) != hash(image)
  {
    var expected, len := HashReaderPrefix(image, |image|, sizes, hash);
    assert image[..|image|] == image;
    var actual, read := HashReaderPrefix(device, len, sizes, hash);
    if read != len {
      return Some(ReadShort);
    }
    if actual != expected {
      return Some(Mismatch);
    }
    return None;
  }

  ghost predicate CollisionFree<D(!new)>(hash: seq<Byte> -> D) {
    forall a, b :: hash(a) == hash(b) ==> a == b
  }

  datatype FlashError = WriteFailed | Readback(error: ReadbackError)

  /** The rootfs hash a manifest may carry. */
  function Recordable<D>(r: Result<D, RootfsError>): Option<D> {
    if r.Ok? then Some(r.value) else None
  }

  /**
   * Write, read back, then record. `answers` is how the write pipe responds and `device` is what
   * the card holds afterwards; nothing ties the two together except the read-back.
   */
  method FinishFlash<D(!new,==)>(image: seq<Byte>, answers: seq<Result<nat, IoError>>, device: seq<Byte>, sizes: nat -> nat,
      skipVerify: bool, hash: seq<Byte> -> D) returns (manifest: Result<Option<D>, FlashError>)
    requires forall i: nat :: sizes(i) > 0
    // each outcome exactly when it should be
    ensures manifest == Err(WriteFailed) <==> Delivered(|image|, answers) < |image|
    ensures manifest == Err(Readback(ReadShort)) <==> Delivered(|image|, answers) == |image| && !skipVerify && |device| < |image|
    ensures manifest == Err(Readback(Mismatch)) <==>
              Delivered(|image|, answers) == |image| && !skipVerify && |device| >= |image| && hash(device[..|image|]) != hash(image)
    ensures manifest.Ok? ==> (manifest.value.Some? <==> RootfsDigest(image, hash).Ok?)
    ensures manifest.Ok? && manifest.value.Some? ==> RootfsDigest(image, hash) == Ok(manifest.value.value)
    ensures manifest.Ok? ==> manifest.value == Recordable(RootfsDigest(image, hash))
    ensures manifest.Ok? && !skipVerify ==> |device| >= |image| && hash(device[..|image|]) == hash(image)
    ensures manifest.Ok? && !skipVerify && CollisionFree(hash) ==>
              device[..|image|] == image && manifest.value == Recordable(RootfsDigest(device[..|image|], hash))
    ensures !skipVerify && |device| >= |image| && device[..|image|] == image ==> manifest.Ok? || manifest == Err(WriteFailed)
  {
    var tee := new HashingWriter();
    var written, sent := tee.WriteAll(image, answers);
    if written.Err? {
      return Err(WriteFailed);
    }
    assert tee.accepted == image by {
      assert image[..sent] == image;
    }
    var digest := tee.Finish(hash);
    if !skipVerify {
      var e := VerifyReadback(image, device, sizes, hash);
      if e.Some? {
        return Err(Readback(e.value));
      }
    }
    return Ok(Recordable(digest));
  }

  /**
   * After a verified flash the recorded hash is the hash of the card's own partition 2, at the
   * byte range the card's own table names.
   */
  lemma RecordedHashIsOnCard<D(!new)>(image: seq<Byte>, device: seq<Byte>, hash: seq<Byte> -> D, recorded: D)
    requires CollisionFree(hash)
    requires |device| >= |image| && hash(device[..|image|]) == hash(image)
    requires Recordable(RootfsDigest(image, hash)) == Some(recorded)
    ensures |device| >= MBR_LEN && RootfsRegion(device[..MBR_LEN]).Ok?
    ensures var (start, end) := RootfsRegion(device[..MBR_LEN]).value;
            end <= |device| && recorded == hash(device[start..end])
  {
    assert device[..|image|] == image;
    DigestExistsIff(image, hash);
    assert image[..MBR_LEN] == device[..MBR_LEN];
    var (start, end) := RootfsRegion(device[..MBR_LEN]).value;
    assert image[start..end] == device[start..end];
  }

  /** In particular, when the card begins with a partition table, it is the hash of the second partition on the card. */
  lemma RecordedHashIsSecondPartition<D(!new)>(image: seq<Byte>, device: seq<Byte>, hash: seq<Byte> -> D, recorded: D,
                                               code: seq<Byte>, records: seq<Record>)
    requires CollisionFree(hash)
    requires |device| >= |image| && hash(device[..|image|]) == hash(image)
    requires Recordable(RootfsDigest(image, hash)) == Some(recorded)
    requires |code| == 446 && Proper(records) && |device| >= 512 && device[..512] == TableBytes(code, records)
    ensures var r := records[1];
            && r.kind != 0 && 0 < r.lba && 0 < r.sectors && (r.lba + r.sectors) * 512 <= |device|
            && recorded == hash(device[r.lba * 512..(r.lba + r.sectors) * 512])
  {
    RecordedHashIsOnCard(image, device, hash, recorded);
    RegionIsSecondPartition(code, records);
  }
}
