/**
 * The GCS upload benchmark: one multipart upload of `total_size` bytes in
 * `part_size` parts, every part carved from the same buffer.
 */
module GcsUpload {
  import opened Outcomes
  import opened Arith
  import opened Storage
  import opened Multipart

  datatype Args = Args(partSize: Option<nat>, totalSize: Option<nat>, bucket: string, path: Option<string>)

  datatype Config = Config(bucket: string, path: ObjectPath, totalSize: nat, partSize: nat)

  const MiB: nat := 1024 * 1024
  const TiB: nat := 1024 * 1024 * MiB

  /** Defaults: 2 TiB in 10 MiB parts, to `big_upload.data`. */
  function Configure(args: Args): (c: Config)
    ensures c.bucket == args.bucket
    ensures c.path == (if args.path.Some? then args.path.value else "big_upload.data")
    ensures c.totalSize == (if args.totalSize.Some? then args.totalSize.value else 2 * TiB)
    ensures c.partSize == (if args.partSize.Some? then args.partSize.value else 10 * MiB)
  {
    Config(
      args.bucket,
      args.path.UnwrapOr("big_upload.data"),
      args.totalSize.UnwrapOr(2 * TiB),
      args.partSize.UnwrapOr(10 * MiB))
  }

  /** The whole program: one upload, never ending when `part_size == 0` and there is data to send. */
  method Run(args: Args) returns (r: Outcome<seq<Op>>)
    ensures var c := Configure(args);
      && !r.Panicked?
      && (r.Diverges? <==> c.totalSize > 0 && c.partSize == 0)
      && (r.Finished? ==> r.value == UploadLog(c.path, c.totalSize, c.partSize))
  {
    var cfg := Configure(args);
    var upload := UploadFixedParts(cfg.path, cfg.totalSize, cfg.partSize);
    if !upload.Finished? {
      return Diverges;
    }
    return Finished(upload.value.log);
  }

  /**
   * 10 MiB does not divide 2 TiB: the default run sends 209716 full parts and stores
   * 8 MiB more than was asked for.
   */
  lemma DefaultUploadOvershoots()
    ensures var c := Configure(Args(None, None, "", None));
      && CeilDiv(c.totalSize, c.partSize) == 209716
      && Written(c.totalSize, c.partSize) == c.totalSize + 8 * MiB
  {
    assert CeilDiv(2 * TiB, 10 * MiB) == 209716;
  }
}
