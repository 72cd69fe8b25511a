/**
 * The fixed-size multipart upload loop shared by the sequential S3 benchmark and the
 * GCS upload benchmark: open a session, send parts of one constant size while
 * `bytes_written < total_size`, then complete the session once.
 */
module Multipart {
  import opened Outcomes
  import opened Arith
  import opened Storage

  /** The calls of an upload of `total` bytes in `partSize` parts. */
  function UploadLog(path: ObjectPath, total: nat, partSize: nat): seq<Op>
    requires partSize > 0 || total == 0
  {
    [OpenMultipart(path)] + seq(CeilDiv(total, partSize), _ => PutPart(partSize)) + [Complete]
  }

  /** The value of `bytes_written` when the loop stops: `total` rounded up to whole parts. */
  function Written(total: nat, partSize: nat): nat
    requires partSize > 0 || total == 0
  {
    CeilDiv(total, partSize) * partSize
  }

  datatype Upload = Upload(log: seq<Op>, bytesWritten: nat)

  /** The upload loop. With `part_size == 0` and a non-empty object `bytes_written` never moves. */
  method UploadFixedParts(path: ObjectPath, totalSize: nat, partSize: nat) returns (r: Outcome<Upload>)
    ensures !r.Panicked?
    ensures r.Diverges? <==> totalSize > 0 && partSize == 0
    ensures r.Finished? ==> r.value.log == UploadLog(path, totalSize, partSize)
    ensures r.Finished? ==> r.value.bytesWritten == Written(totalSize, partSize)
  {
    var log := [OpenMultipart(path)];
    if totalSize > 0 && partSize == 0 {
      return Diverges;
    }
    var bytesWritten: nat := 0;
    ghost var parts: nat := 0;
    while bytesWritten < totalSize
      invariant bytesWritten == parts * partSize
      invariant log == [OpenMultipart(path)] + seq(parts, _ => PutPart(partSize))
      invariant parts == 0 || bytesWritten < totalSize + partSize
      decreases totalSize - bytesWritten
    {
      log := log + [PutPart(partSize)];
      bytesWritten := bytesWritten + partSize;
      parts := parts + 1;
    }
    if totalSize > 0 {
      CeilDivIff(totalSize, partSize, parts);
    } else if parts > 0 {
      assert false;
    }
    log := log + [Complete];
    return Finished(Upload(log, bytesWritten));
  }

  /**
   * The session is opened first and completed last and exactly once; everything in
   * between is a part of exactly `partSize` bytes, and there are ceiling of
   * `total / partSize` of them.
   */
  lemma UploadLogShape(path: ObjectPath, total: nat, partSize: nat)
    requires partSize > 0 || total == 0
    ensures var log := UploadLog(path, total, partSize);
      && |log| == CeilDiv(total, partSize) + 2
      && log[0] == OpenMultipart(path)
      && log[|log| - 1] == Complete
      && (forall i :: 0 < i < |log| - 1 ==> log[i] == PutPart(partSize))
      && (forall i :: 0 <= i < |log| - 1 ==> log[i] != Complete)
  {
    var log := UploadLog(path, total, partSize);
    forall i | 0 < i < |log| - 1
      ensures log[i] == PutPart(partSize)
    {
      assert log[i] == seq(CeilDiv(total, partSize), _ => PutPart(partSize))[i - 1];
    }
  }

  /**
   * The loop stops at the first multiple of `partSize` that is not below `total`:
   * it overshoots by less than one part, and lands exactly on `total` iff the part
   * size divides it.
   */
  lemma WrittenBounds(total: nat, partSize: nat)
    requires partSize > 0
    ensures Written(total, partSize) >= total
    ensures Written(total, partSize) % partSize == 0
    ensures total > 0 ==> Written(total, partSize) - partSize < total
    ensures Written(total, partSize) == total <==> total % partSize == 0
  {
    var k := CeilDiv(total, partSize);
    CeilDivIff(total, partSize, k);
    DivModOfSum(0, k, partSize);
    if total % partSize == 0 {
      var q := total / partSize;
      assert total == q * partSize;
      CeilDivIff(total, partSize, q);
    }
  }

  /** An empty object sends no part, yet the session is still completed. */
  lemma EmptyUploadCompletes(path: ObjectPath, partSize: nat)
    ensures UploadLog(path, 0, partSize) == [OpenMultipart(path), Complete]
  {
  }

  /** 1024 bytes in 256-byte parts: four parts, then one completion. */
  lemma FourPartExample(path: ObjectPath)
    ensures UploadLog(path, 1024, 256)
         == [OpenMultipart(path), PutPart(256), PutPart(256), PutPart(256), PutPart(256), Complete]
  {
    assert CeilDiv(1024, 256) == 4;
  }
}
