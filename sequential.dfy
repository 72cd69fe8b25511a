/**
 * The sequential S3 benchmark: upload `total_size` bytes in `upload_size` parts to
 * `some_file.data`, then read the object back front to back in `download_size`
 * ranges. The read phase takes the object's length to be `bytes_written`, the
 * upload size rounded up to whole parts, not the requested `total_size`.
 */
module SequentialBench {
  import opened Outcomes
  import opened Arith
  import opened Ranges
  import opened Storage
  import opened Multipart

  /** The flags; `skip_upload` is parsed but the program uploads regardless. */
  datatype Args = Args(
    uploadSize: Option<nat>,
    downloadSize: Option<nat>,
    totalSize: Option<nat>,
    accessKey: Option<string>,
    secretKey: Option<string>,
    skipUpload: bool,
    bucket: string)

  datatype Config = Config(totalSize: nat, uploadSize: nat, downloadSize: nat)

  const MiB: nat := 1024 * 1024

  const ObjectName: ObjectPath := "some_file.data"

  /** Defaults: 1 GiB in 8 MiB parts, read back in 32 MiB ranges. */
  function Configure(args: Args): (c: Config)
    ensures c.totalSize == (if args.totalSize.Some? then args.totalSize.value else 1024 * MiB)
    ensures c.uploadSize == (if args.uploadSize.Some? then args.uploadSize.value else 8 * MiB)
    ensures c.downloadSize == (if args.downloadSize.Some? then args.downloadSize.value else 32 * MiB)
  {
    Config(
      args.totalSize.UnwrapOr(1024 * MiB),
      args.uploadSize.UnwrapOr(8 * MiB),
      args.downloadSize.UnwrapOr(32 * MiB))
  }

  /** The reads of an object of `length` bytes in `size` ranges, in the order they are issued. */
  function ReadLog(path: ObjectPath, length: nat, size: nat): (log: seq<Op>)
    requires size > 0 || length == 0
  {
    var c := Chunks(length, size);
    seq(|c|, (k: nat) requires k < |c| => GetRange(path, c[k].start, c[k].end))
  }

  /** The read loop over `bytes_read`. With `download_size == 0` and a non-empty object it never ends. */
  method ReadSequentially(path: ObjectPath, length: nat, downloadSize: nat) returns (r: Outcome<seq<Op>>)
    ensures !r.Panicked?
    ensures r.Diverges? <==> length > 0 && downloadSize == 0
    ensures r.Finished? ==> r.value == ReadLog(path, length, downloadSize)
  {
    if length > 0 && downloadSize == 0 {
      return Diverges;
    }
    var log := [];
    var bytesRead: nat := 0;
    ghost var k: nat := 0;
    while bytesRead < length
      invariant bytesRead == k * downloadSize
      invariant log == seq(k, (i: nat) => GetRange(path, Chunk(i, downloadSize).start, Chunk(i, downloadSize).end))
      invariant k == 0 || bytesRead < length + downloadSize
      decreases length - bytesRead
    {
      log := log + [GetRange(path, bytesRead, bytesRead + downloadSize)];
      bytesRead := bytesRead + downloadSize;
      k := k + 1;
    }
    if length > 0 {
      CeilDivIff(length, downloadSize, k);
    } else if k > 0 {
      assert false;
    }
    return Finished(log);
  }

  /** Every call of one run: the upload, then the reads over the rounded-up length. */
  function RunLog(c: Config): seq<Op>
    requires c.uploadSize > 0 || c.totalSize == 0
    requires c.downloadSize > 0 || Written(c.totalSize, c.uploadSize) == 0
  {
    UploadLog(ObjectName, c.totalSize, c.uploadSize)
      + ReadLog(ObjectName, Written(c.totalSize, c.uploadSize), c.downloadSize)
  }

  /** The whole program. It never ends when a loop's step is 0 while there is something to cover. */
  method Run(args: Args) returns (r: Outcome<seq<Op>>)
    ensures var c := Configure(args);
      && !r.Panicked?
      && (r.Diverges? <==>
            (c.totalSize > 0 && c.uploadSize == 0) ||
            (c.uploadSize > 0 && c.downloadSize == 0 && Written(c.totalSize, c.uploadSize) > 0))
      && (r.Finished? ==> r.value == RunLog(c))
  {
    var cfg := Configure(args);
    var upload := UploadFixedParts(ObjectName, cfg.totalSize, cfg.uploadSize);
    if !upload.Finished? {
      return Diverges;
    }
    var totalSize := upload.value.bytesWritten;
    var readBack := ReadSequentially(ObjectName, totalSize, cfg.downloadSize);
    if !readBack.Finished? {
      return Diverges;
    }
    return Finished(upload.value.log + readBack.value);
  }

  /**
   * The read phase asks for `[0, download_size)`, `[download_size, 2 * download_size)`, ...:
   * contiguous from 0, ceiling of `length / download_size` requests, the last one
   * reaching past `length` by less than one range, unclamped.
   */
  lemma ReadLogCovers(path: ObjectPath, length: nat, size: nat)
    requires size > 0
    ensures var log := ReadLog(path, length, size);
      && |log| == CeilDiv(length, size)
      && (forall k :: 0 <= k < |log| ==> log[k] == GetRange(path, k * size, k * size + size))
      && (log != [] ==> log[0].start == 0)
      && (forall k :: 0 <= k < |log| - 1 ==> log[k].end == log[k + 1].start)
      && (forall k :: 0 <= k < |log| ==> log[k].start < length)
      && (log != [] ==> length <= log[|log| - 1].end < length + size)
  {
    ChunksContiguous(length, size);
  }

  /**
   * Reading uses the rounded-up length: 100 bytes in 64-byte parts are stored as 128
   * bytes and read in four 40-byte ranges, three of which would cover the requested 100.
   */
  lemma ReadsUseRoundedUpLength()
    ensures Written(100, 64) == 128
    ensures RunLog(Config(100, 64, 40)) ==
      [OpenMultipart(ObjectName), PutPart(64), PutPart(64), Complete,
       GetRange(ObjectName, 0, 40), GetRange(ObjectName, 40, 80),
       GetRange(ObjectName, 80, 120), GetRange(ObjectName, 120, 160)]
    ensures |ReadLog(ObjectName, 100, 40)| == 3
  {
    assert CeilDiv(100, 64) == 2;
    assert CeilDiv(128, 40) == 4;
    assert CeilDiv(100, 40) == 3;
  }

  /** With the defaults the program sends 128 parts of 8 MiB and then 32 reads of 32 MiB. */
  lemma DefaultRun()
    ensures var c := Configure(Args(None, None, None, None, None, false, ""));
      && Written(c.totalSize, c.uploadSize) == c.totalSize
      && |UploadLog(ObjectName, c.totalSize, c.uploadSize)| == 128 + 2
      && |ReadLog(ObjectName, Written(c.totalSize, c.uploadSize), c.downloadSize)| == 32
  {
    assert CeilDiv(1024 * MiB, 8 * MiB) == 128;
    assert CeilDiv(1024 * MiB, 32 * MiB) == 32;
  }
}
