/**
 * The random-access benchmark: `num_files` objects of `num_rows / num_files` rows
 * each are uploaded under one prefix, then every iteration shuffles the row
 * numbers `0 .. num_rows - 1` and reads the first `takes_per_iter` of them, one
 * row (`bytes_per_row` bytes) per request, from the object that holds it.
 */
module RandomAccess {
  import opened Outcomes
  import opened Arith
  import opened Decimal
  import opened Storage

  // ----- command line -----

  datatype Args = Args(
    numFiles: Option<nat>,
    numRows: Option<nat>,
    bytesPerRow: Option<nat>,
    maxConcurrentReads: Option<nat>,
    accessKey: Option<string>,
    secretKey: Option<string>,
    skipUpload: bool,
    baseUri: string,
    path: Option<string>,
    numIterations: Option<nat>,
    takesPerIter: Option<nat>)

  datatype Config = Config(
    path: ObjectPath,
    numIterations: nat,
    numFiles: nat,
    numRows: nat,
    bytesPerRow: nat,
    maxConcurrentReads: nat,
    takesPerIter: nat,
    skipUpload: bool,
    store: Backend)

  /** Defaults: prefix `rab_files`, 5 iterations, 10 files, 1,000,000 rows of 8 bytes,
      10,000 reads in flight and 10,000 reads per iteration. */
  function Configure(args: Args): (c: Config)
    ensures c.path == (if args.path.Some? then args.path.value else "rab_files")
    ensures c.numIterations == (if args.numIterations.Some? then args.numIterations.value else 5)
    ensures c.numFiles == (if args.numFiles.Some? then args.numFiles.value else 10)
    ensures c.numRows == (if args.numRows.Some? then args.numRows.value else 1000000)
    ensures c.bytesPerRow == (if args.bytesPerRow.Some? then args.bytesPerRow.value else 8)
    ensures c.maxConcurrentReads == (if args.maxConcurrentReads.Some? then args.maxConcurrentReads.value else 10000)
    ensures c.takesPerIter == (if args.takesPerIter.Some? then args.takesPerIter.value else 10000)
    ensures c.skipUpload == args.skipUpload
    ensures c.store == MakeStore(args.baseUri, args.accessKey, args.secretKey)
  {
    Config(
      args.path.UnwrapOr("rab_files"),
      args.numIterations.UnwrapOr(5),
      args.numFiles.UnwrapOr(10),
      args.numRows.UnwrapOr(1000000),
      args.bytesPerRow.UnwrapOr(8),
      args.maxConcurrentReads.UnwrapOr(10000),
      args.takesPerIter.UnwrapOr(10000),
      args.skipUpload,
      MakeStore(args.baseUri, args.accessKey, args.secretKey))
  }

  // ----- the store -----

  /** The backend `make_store` builds, with what it passes to the builder. */
  datatype Backend =
    | AmazonS3(bucket: string, region: string, accessKey: Option<string>, secretKey: Option<string>)
    | GoogleCloud(bucket: string)
    | InMemory
    | LocalFileSystem(root: string)

  predicate StartsWith(s: string, prefix: string)
  {
    |prefix| <= |s| && s[..|prefix|] == prefix
  }

  /**
   * Picks the backend from the prefix of `base_uri`, trying `s3://`, then `gs://`, then
   * the literal `memory`, and otherwise a local directory. The GCS bucket is cut
   * after 4 characters, so it keeps the `/` that follows `gs:/`.
   */
  function MakeStore(baseUri: string, accessKey: Option<string>, secretKey: Option<string>): (b: Backend)
    ensures b.AmazonS3? <==> StartsWith(baseUri, "s3://")
    ensures b.AmazonS3? ==> "s3://" + b.bucket == baseUri && b.region == "us-east-1"
    ensures b.AmazonS3? ==> b.accessKey == accessKey && b.secretKey == secretKey
    ensures b.GoogleCloud? <==> !StartsWith(baseUri, "s3://") && StartsWith(baseUri, "gs://")
    ensures b.GoogleCloud? ==> "gs:/" + b.bucket == baseUri && b.bucket != [] && b.bucket[0] == '/'
    ensures b.InMemory? <==> !StartsWith(baseUri, "s3://") && !StartsWith(baseUri, "gs://") && baseUri == "memory"
    ensures b.LocalFileSystem? ==> b.root == baseUri
  {
    if StartsWith(baseUri, "s3://") then AmazonS3(baseUri[5..], "us-east-1", accessKey, secretKey)
    else if StartsWith(baseUri, "gs://") then GoogleCloud(baseUri[4..])
    else if baseUri == "memory" then InMemory
    else LocalFileSystem(baseUri)
  }

  /** `gs://bench` names the GCS bucket `/bench`; `s3://bench` names the S3 bucket `bench`. */
  lemma BucketSlicing()
    ensures MakeStore("gs://bench", None, None) == GoogleCloud("/bench")
    ensures MakeStore("s3://bench", None, None) == AmazonS3("bench", "us-east-1", None, None)
    ensures MakeStore("memory", None, None) == InMemory
    ensures MakeStore("gs:/bench", None, None) == LocalFileSystem("gs:/bench")
  {
    assert StartsWith("gs://bench", "gs://");
    assert "gs:/bench"[..5][4] == 'b';
  }

  // ----- the upload phase -----

  /** `num_rows / num_files`: the files together hold all rows but the `num_rows % num_files` last ones. */
  function RowsPerFile(numRows: nat, numFiles: nat): (r: nat)
    requires numFiles > 0
    ensures numFiles * r <= numRows < numFiles * r + numFiles
    ensures numRows - numFiles * r == numRows % numFiles
  {
    numRows / numFiles
  }

  /** The calls that upload file `i`: one part holding the whole file. */
  function FileUpload(path: ObjectPath, i: nat, size: nat): seq<Op>
  {
    [OpenMultipart(Child(path, Dec(i))), PutPart(size), Complete]
  }

  /** The calls that upload files `0 .. count - 1`, in order. */
  function FileUploads(path: ObjectPath, count: nat, size: nat): seq<Op>
  {
    if count == 0 then [] else FileUploads(path, count - 1, size) + FileUpload(path, count - 1, size)
  }

  /**
   * The `for file_idx in 0..num_files` loop. The capacity `num_rows - offset` never
   * goes below `rows_per_file`, so every file gets exactly `rows_per_file` rows.
   */
  method UploadFiles(path: ObjectPath, numFiles: nat, numRows: nat, bytesPerRow: nat, rowsPerFile: nat)
    returns (log: seq<Op>)
    requires numFiles > 0 && rowsPerFile == numRows / numFiles
    ensures log == FileUploads(path, numFiles, rowsPerFile * bytesPerRow)
  {
    log := [];
    for fileIdx := 0 to numFiles
      invariant log == FileUploads(path, fileIdx, rowsPerFile * bytesPerRow)
    {
      var offset := fileIdx * rowsPerFile;
      FileFits(fileIdx, numFiles, numRows, rowsPerFile);
      var capacity: nat := numRows - offset;
      var rowsThisFile := Min(rowsPerFile, capacity);
      assert rowsThisFile == rowsPerFile;
      var uploadSize := rowsThisFile * bytesPerRow;
      log := log + [OpenMultipart(Child(path, Dec(fileIdx))), PutPart(uploadSize), Complete];
    }
  }

  /** File `fileIdx` ends within the rows: its offset plus `rows_per_file` is at most `num_rows`. */
  lemma FileFits(fileIdx: nat, numFiles: nat, numRows: nat, rowsPerFile: nat)
    requires fileIdx < numFiles && rowsPerFile == numRows / numFiles
    ensures fileIdx * rowsPerFile + rowsPerFile <= numRows
  {
    MulLeft(fileIdx + 1, numFiles, rowsPerFile);
    assert numFiles * rowsPerFile <= numRows;
  }

  /** File `i` is opened as `path/i`, receives one part of `size` bytes and is completed. */
  lemma {:induction false} FileUploadsAt(path: ObjectPath, count: nat, size: nat, i: nat)
    requires i < count
    ensures |FileUploads(path, count, size)| == 3 * count
    ensures FileUploads(path, count, size)[3 * i] == OpenMultipart(Child(path, Dec(i)))
    ensures FileUploads(path, count, size)[3 * i + 1] == PutPart(size)
    ensures FileUploads(path, count, size)[3 * i + 2] == Complete
  {
    if i < count - 1 {
      FileUploadsAt(path, count - 1, size, i);
    } else if count > 1 {
      FileUploadsAt(path, count - 1, size, 0);
    }
  }

  // ----- the read phase -----

  /** A read of one row: the file that holds it and the byte range inside that file. */
  datatype PointRead = PointRead(file: nat, start: nat, end: nat)

  /** The guard `if file_id > 10 { panic!() }` uses this literal, not `num_files`. */
  const AbortAbove: nat := 10

  /** Where row `addr` is read from: file `addr / rows_per_file`, row `addr % rows_per_file` inside it. */
  function PointReadFor(addr: nat, rowsPerFile: nat, bytesPerRow: nat): (r: PointRead)
    requires rowsPerFile > 0
    ensures r.file * rowsPerFile <= addr < r.file * rowsPerFile + rowsPerFile
    ensures r.start == (addr - r.file * rowsPerFile) * bytesPerRow
    ensures r.end == r.start + bytesPerRow
    ensures r.end <= rowsPerFile * bytesPerRow
  {
    var fileOffset := (addr % rowsPerFile) * bytesPerRow;
    MulLeft(addr % rowsPerFile + 1, rowsPerFile, bytesPerRow);
    PointRead(addr / rowsPerFile, fileOffset, fileOffset + bytesPerRow)
  }

  /**
   * Under `u64` arithmetic: when a whole file's size `rows_per_file * bytes_per_row`
   * fits in 64 bits, so do the `file_offset` and `read_end` of every read.
   */
  lemma PointReadFitsU64(addr: nat, rowsPerFile: nat, bytesPerRow: nat)
    requires rowsPerFile > 0 && rowsPerFile * bytesPerRow <= U64Max
    ensures var r := PointReadFor(addr, rowsPerFile, bytesPerRow);
      r.start <= r.end <= U64Max
  {
  }

  /** The request a planned read sends: `get_range(&path/file, start..end)`. */
  function Request(path: ObjectPath, r: PointRead): Op
  {
    GetRange(Child(path, Dec(r.file)), r.start, r.end)
  }

  /** The guard passes for each of the first `m` addresses (and dividing by `rows_per_file` is possible). */
  predicate GuardHolds(perm: seq<nat>, m: nat, rowsPerFile: nat)
    requires m <= |perm|
  {
    forall i :: 0 <= i < m ==> rowsPerFile > 0 && perm[i] / rowsPerFile <= AbortAbove
  }

  /** The iteration plans all its reads. */
  predicate Completes(perm: seq<nat>, takes: nat, rowsPerFile: nat)
  {
    takes <= |perm| && GuardHolds(perm, takes, rowsPerFile)
  }

  /**
   * The panic of an iteration that does not complete, checked in the order the loop
   * body meets them at its first failing task: the `/ rows_per_file` by zero, then the
   * index past `row_ids`, then the guard.
   */
  function IterationPanic(perm: seq<nat>, takes: nat, rowsPerFile: nat): Panic
    requires !Completes(perm, takes, rowsPerFile)
  {
    if rowsPerFile == 0 && |perm| > 0 then DivisionByZero
    else if GuardHolds(perm, |perm|, rowsPerFile) then IndexOutOfBounds
    else Aborted
  }

  /** The requests of an iteration that completes: one per address among the first `takes`. */
  function PlannedReads(path: ObjectPath, perm: seq<nat>, takes: nat, rowsPerFile: nat, bytesPerRow: nat): seq<Op>
    requires Completes(perm, takes, rowsPerFile)
  {
    seq(takes, (i: nat) requires i < takes => Request(path, PointReadFor(perm[i], rowsPerFile, bytesPerRow)))
  }

  /**
   * The `for task_id in 0..takes_per_iter` loop of one iteration over the shuffled
   * row numbers `perm`. It stops at the first task that indexes past `perm`, divides
   * by a zero `rows_per_file`, or trips the guard.
   */
  method PlanIteration(path: ObjectPath, perm: seq<nat>, takes: nat, rowsPerFile: nat, bytesPerRow: nat)
    returns (r: Outcome<seq<Op>>)
    ensures !r.Diverges?
    ensures r.Finished? <==> Completes(perm, takes, rowsPerFile)
    ensures r.Finished? ==> r.value == PlannedReads(path, perm, takes, rowsPerFile, bytesPerRow)
    ensures !r.Finished? ==> r == Panicked(IterationPanic(perm, takes, rowsPerFile))
    ensures r == Panicked(IndexOutOfBounds) <==> takes > |perm| && GuardHolds(perm, |perm|, rowsPerFile)
    ensures r == Panicked(DivisionByZero) <==> rowsPerFile == 0 && takes > 0 && |perm| > 0
    ensures r == Panicked(Aborted) <==>
      rowsPerFile > 0 && exists i :: 0 <= i < Min(takes, |perm|) && perm[i] / rowsPerFile > AbortAbove
  {
    var readTasks := [];
    for taskId := 0 to takes
      invariant taskId <= |perm|
      invariant GuardHolds(perm, taskId, rowsPerFile)
      invariant taskId > 0 ==> rowsPerFile > 0
      invariant readTasks == seq(taskId, (i: nat) requires i < taskId =>
        Request(path, PointReadFor(perm[i], rowsPerFile, bytesPerRow)))
    {
      if taskId >= |perm| {
        return Panicked(IndexOutOfBounds);
      }
      var addr := perm[taskId];
      if rowsPerFile == 0 {
        return Panicked(DivisionByZero);
      }
      var fileId := addr / rowsPerFile;
      if fileId > AbortAbove {
        return Panicked(Aborted);
      }
      var fileOffset := (addr % rowsPerFile) * bytesPerRow;
      var readEnd := fileOffset + bytesPerRow;
      readTasks := readTasks + [GetRange(Child(path, Dec(fileId)), fileOffset, readEnd)];
    }
    return Finished(readTasks);
  }

  // ----- what the read phase guarantees -----

  /** `row_ids` after `shuffle`: some ordering of the row numbers `0 .. n - 1`. */
  predicate IsShuffle(perm: seq<nat>, n: nat)
  {
    && |perm| == n
    && (forall i :: 0 <= i < n ==> perm[i] < n)
    && (forall i, j :: 0 <= i < j < n ==> perm[i] != perm[j])
  }

  /** Two different rows never map to the same object and offset, as long as a row has at least one byte. */
  lemma PointReadInjective(a: nat, b: nat, rowsPerFile: nat, bytesPerRow: nat)
    requires rowsPerFile > 0 && bytesPerRow > 0 && a != b
    ensures var ra, rb := PointReadFor(a, rowsPerFile, bytesPerRow), PointReadFor(b, rowsPerFile, bytesPerRow);
      ra.file != rb.file || ra.start != rb.start
  {
    var ra, rb := PointReadFor(a, rowsPerFile, bytesPerRow), PointReadFor(b, rowsPerFile, bytesPerRow);
    if ra.file == rb.file && ra.start == rb.start {
      var x, y := a - ra.file * rowsPerFile, b - rb.file * rowsPerFile;
      if x < y {
        MulStrict(x, y, bytesPerRow);
      } else if y < x {
        MulStrict(y, x, bytesPerRow);
      }
    }
  }

  /** Zero-byte rows do collide: rows 0 and 1 of a file are both read as `[0, 0)`. */
  lemma ZeroByteRowsCollide()
    ensures PointReadFor(0, 2, 0) == PointReadFor(1, 2, 0) == PointRead(0, 0, 0)
  {
  }

  /** Within one iteration no two requests name the same object and offset. */
  lemma PlannedReadsDistinct(path: ObjectPath, perm: seq<nat>, n: nat, takes: nat, rowsPerFile: nat,
                             bytesPerRow: nat, i: nat, j: nat)
    requires IsShuffle(perm, n) && Completes(perm, takes, rowsPerFile) && bytesPerRow > 0
    requires i < j < takes
    ensures var plan := PlannedReads(path, perm, takes, rowsPerFile, bytesPerRow);
      plan[i].path != plan[j].path || plan[i].start != plan[j].start
  {
    var ri, rj := PointReadFor(perm[i], rowsPerFile, bytesPerRow), PointReadFor(perm[j], rowsPerFile, bytesPerRow);
    PointReadInjective(perm[i], perm[j], rowsPerFile, bytesPerRow);
    if Child(path, Dec(ri.file)) == Child(path, Dec(rj.file)) {
      ChildOfIndexInjective(path, ri.file, rj.file);
    }
  }

  /** A read targets an uploaded file exactly when its row is among the `num_files * rows_per_file` uploaded rows. */
  lemma ReadHitsUploadedFile(addr: nat, numFiles: nat, rowsPerFile: nat, bytesPerRow: nat)
    requires rowsPerFile > 0
    ensures PointReadFor(addr, rowsPerFile, bytesPerRow).file < numFiles <==> addr < numFiles * rowsPerFile
  {
    var f := PointReadFor(addr, rowsPerFile, bytesPerRow).file;
    if f < numFiles {
      MulLeft(f + 1, numFiles, rowsPerFile);
    } else {
      MulLeft(numFiles, f, rowsPerFile);
    }
  }

  /**
   * When `num_files` divides `num_rows`, every row read lies in an uploaded file; if
   * moreover `num_files <= 11`, the guard can never fire.
   */
  lemma EvenSplitStaysInFiles(perm: seq<nat>, numRows: nat, numFiles: nat, takes: nat)
    requires IsShuffle(perm, numRows) && takes <= numRows
    requires 0 < numFiles <= numRows && numRows % numFiles == 0
    ensures var rpf := RowsPerFile(numRows, numFiles);
      && rpf > 0
      && forall i :: 0 <= i < takes ==> perm[i] / rpf < numFiles
    ensures numFiles <= AbortAbove + 1 ==> Completes(perm, takes, RowsPerFile(numRows, numFiles))
  {
    var rpf := RowsPerFile(numRows, numFiles);
    assert numFiles * rpf == numRows;
    forall i | 0 <= i < takes
      ensures perm[i] / rpf < numFiles
    {
      ReadHitsUploadedFile(perm[i], numFiles, rpf, 0);
    }
  }

  /** With the defaults (10 files, 1,000,000 rows, 10,000 reads) every iteration plans all its reads. */
  lemma DefaultsNeverAbort(perm: seq<nat>)
    requires IsShuffle(perm, 1000000)
    ensures RowsPerFile(1000000, 10) == 100000
    ensures Completes(perm, 10000, 100000)
  {
    EvenSplitStaysInFiles(perm, 1000000, 10, 10000);
  }

  /**
   * The guard compares with 10, not with `num_files`: with 5 rows in 2 files of 2 rows,
   * row 4 is read from file `2`, which was never uploaded, and the guard lets it through.
   * The model records the request; the store's error for the missing object, which the
   * source turns into a panic at its `unwrap`, is not modelled.
   */
  lemma NeverUploadedFilePassesGuard()
    ensures RowsPerFile(5, 2) == 2
    ensures FileUploads("rab_files", 2, 2 * 8)
         == FileUpload("rab_files", 0, 16) + FileUpload("rab_files", 1, 16)
    ensures Completes([4, 3, 2, 1, 0], 5, 2)
    ensures PlannedReads("rab_files", [4, 3, 2, 1, 0], 1, 2, 8) == [GetRange(Child("rab_files", Dec(2)), 0, 8)]
  {
    assert Dec(2) == "2";
  }

  /** With one row per file, row 10 still passes the guard and row 11 aborts the run. */
  lemma GuardThreshold()
    ensures Completes([10], 1, 1)
    ensures !Completes([11], 1, 1)
  {
    assert [11][0] / 1 > AbortAbove;
  }

  // ----- the program -----

  /** What one run plans: the upload calls, then the requests of each iteration. */
  datatype Trace = Trace(uploads: seq<Op>, iterations: seq<seq<Op>>)

  /**
   * The program once its flags are resolved, given the shuffle each iteration draws.
   * With no files it panics on `num_rows / 0` even when the upload is skipped;
   * otherwise it finishes exactly when every iteration plans all its reads, and a
   * failing run ends with the panic of its first failing iteration.
   */
  method Benchmark(c: Config, shuffles: seq<seq<nat>>) returns (r: Outcome<Trace>)
    requires |shuffles| == c.numIterations
    requires forall k :: 0 <= k < |shuffles| ==> IsShuffle(shuffles[k], c.numRows)
    ensures !r.Diverges?
    ensures c.numFiles == 0 ==> r == Panicked(DivisionByZero)
    ensures c.numFiles > 0 ==>
      var rpf := RowsPerFile(c.numRows, c.numFiles);
      && (r.Finished? <==> forall k :: 0 <= k < |shuffles| ==> Completes(shuffles[k], c.takesPerIter, rpf))
      && (r.Finished? ==>
            && r.value.uploads ==
                 (if c.skipUpload then [] else FileUploads(c.path, c.numFiles, rpf * c.bytesPerRow))
            && |r.value.iterations| == |shuffles|
            && forall k :: 0 <= k < |shuffles| ==>
                 r.value.iterations[k] == PlannedReads(c.path, shuffles[k], c.takesPerIter, rpf, c.bytesPerRow))
      && (r.Panicked? ==>
            exists k :: 0 <= k < |shuffles|
              && (forall i :: 0 <= i < k ==> Completes(shuffles[i], c.takesPerIter, rpf))
              && !Completes(shuffles[k], c.takesPerIter, rpf)
              && r.panic == IterationPanic(shuffles[k], c.takesPerIter, rpf))
  {
    if c.numFiles == 0 {
      return Panicked(DivisionByZero);
    }
    var rowsPerFile := c.numRows / c.numFiles;
    var uploads := [];
    if !c.skipUpload {
      uploads := UploadFiles(c.path, c.numFiles, c.numRows, c.bytesPerRow, rowsPerFile);
    }
    var iterations := [];
    for k := 0 to c.numIterations
      invariant |iterations| == k
      invariant forall i :: 0 <= i < k ==>
        Completes(shuffles[i], c.takesPerIter, rowsPerFile) &&
        iterations[i] == PlannedReads(c.path, shuffles[i], c.takesPerIter, rowsPerFile, c.bytesPerRow)
    {
      var plan := PlanIteration(c.path, shuffles[k], c.takesPerIter, rowsPerFile, c.bytesPerRow);
      if !plan.Finished? {
        return Panicked(plan.panic);
      }
      iterations := iterations + [plan.value];
    }
    return Finished(Trace(uploads, iterations));
  }
}
