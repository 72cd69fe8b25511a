# object_store_bench: workload planning

A Dafny model of the workload-planning arithmetic inside four object-storage
benchmark programs. Each program's `main` sets up a store, optionally uploads
data, cuts a read workload into requests and fans those requests out. The model
keeps the sequential part that decides *which* calls are made:

- **S3 download benchmark** (`src/s3.rs`, module `S3Read`). Task `k` reads
  `[k * download_size, k * download_size + download_size)` and is appended to the
  list of client `k % num_clients`. Each task builds a `Range` header and counts
  the bytes and chunks of the body it receives.
- **Sequential S3 benchmark** (`src/main.rs`, module `SequentialBench`). It uploads
  `total_size` bytes in fixed-size parts, then reads the object back front to back.
- **GCS upload benchmark** (`src/upload.rs`, module `GcsUpload`). One fixed-size
  multipart upload. The upload loop it shares with `main.rs` is module `Multipart`.
- **Random-access benchmark** (`src/random_access.rs`, module `RandomAccess`). It
  picks a backend from the prefix of `base_uri`, uploads `num_files` files of
  `num_rows / num_files` rows each, and in every iteration reads the first
  `takes_per_iter` rows of a shuffle, one request per row.

Store calls are not performed. Each call the program would make becomes one
`Storage.Op` in a returned log: `OpenMultipart(path)`, `PutPart(len)`,
`Complete`, `GetRange(path, start, end)`. How a program ends is an
`Outcomes.Outcome`:
- `Finished(value)` when it returns normally;
- `Panicked(p)` for `% 0`, `/ 0`, an index past the end, or the explicit `panic!()`;
- `Diverges` for a loop whose guard never becomes false, such as a step size of 0 with data left to cover.

Shared pieces:
- `Arith` holds the ceiling division the loops compute.
- `Decimal` models Rust's integer formatting and how it reads back.
- `Ranges` holds the fixed-size range sequence that both download loops produce.

The code is modelled as written. A description of these programs as reading
`[0, total_size)` exactly, with the last range truncated to the object's length,
does not match the code. The code does not clamp: the last range reaches past
the end (`Ranges.LastRangeNotClamped`). In `main.rs` the reads cover the
rounded-up upload length (`SequentialBench.ReadsUseRoundedUpLength`). The model
follows the code.

## Model

| member | source | states |
|---|---|---|
| `Decimal.DecRoundTrip` | src/s3.rs:87 | `{}` formatting gives non-empty digit text with no leading zero, and reading the digits back gives the number |
| `Decimal.IndexOf` | src/s3.rs:87 | the first position of a character, or none when it does not occur; used to split `first-last` |
| `Storage.ChildOfIndexInjective` | src/random_access.rs:103 | `path.child(i.to_string())` names different objects for different `i` |
| `Ranges.ChunkCount` | src/s3.rs:78 | there are ceiling of `length / size` ranges: the last one reaches `length`, nothing reaches `length + size`, and none exist exactly when `length == 0` |
| `Ranges.ChunksContiguous` | src/s3.rs:82-83 | ranges start at 0, each ends where the next starts, every start is below `length`, and the last end lies in `[length, length + size)`, so it is not clamped |
| `Ranges.ChunksCover` | src/s3.rs:78-83 | every byte below `length` lies in exactly one range, number `b / size` |
| `Ranges.ChunksDisjoint` | src/s3.rs:82-83 | no byte lies in two different ranges |
| `Ranges.LastRangeNotClamped` | src/s3.rs:83 | 100 bytes in 40-byte ranges are read as `[0,40)`, `[40,80)`, `[80,120)` |
| `S3Read.Configure` | src/s3.rs:48-55 | defaults: object `some_file.data`, 8 clients, 8 reads in flight per client, 5 iterations, 32 MiB ranges |
| `S3Read.NewTaskLists` | src/s3.rs:73-77 | exactly `num_clients` task lists are made, all empty |
| `S3Read.AssignStep` | src/s3.rs:79-85 | handing out task `k` appends it to list `k % n` and leaves the other lists unchanged |
| `S3Read.PlanReads` | src/s3.rs:72-117 | with `total_size > 0`: no clients panics on `%`; a zero `download_size` never ends; otherwise the lists equal `Plan`, the round-robin assignment of ceiling of `total_size / download_size` tasks. With `total_size == 0` the lists are empty |
| `S3Read.PlanPlacement` | src/s3.rs:79-85 | task `k` is entry `k / n` of list `k % n` and carries the `k`-th range |
| `S3Read.PlanEntry` | src/s3.rs:79-85 | entry `j` of list `c` is task `c + j * n`, an existing task run by client `c` |
| `S3Read.PlanFitsU64` | src/s3.rs:79-83 | when `total_size + download_size <= 2^64`, the last `task_idx * download_size` the loop tests and every `read_end` fit in a `u64` |
| `S3Read.ShareEntry` | src/s3.rs:79-85 | the `j`-th task handed to client `c` in round-robin order is numbered below the task count |
| `S3Read.PlanExactlyOnce` | src/s3.rs:79-85 | an entry carrying task `k`'s range can only sit at list `k % n`, position `k / n` |
| `S3Read.PlanListOrdered` | src/s3.rs:85 | within a list, earlier entries end before later ones start, so tasks are in increasing order |
| `S3Read.PlanBalanced` | src/s3.rs:79 | list lengths differ by at most one and add up to the number of tasks |
| `S3Read.EmptyObjectPlansNothing` | src/s3.rs:78 | an empty object gives `n` empty lists |
| `S3Read.DefaultPlanOfOneGiB` | src/s3.rs:50-55 | with the defaults a 1 GiB object is read in 32 tasks, 4 per client |
| `S3Read.RangeHeaderRoundTrip` | src/s3.rs:87 | the text `bytes={start}-{end}` reads back as first position `read_start` and last position `read_end` |
| `S3Read.HeaderAsksOneExtraByte` | src/s3.rs:87 | the last position is inclusive (section 14.1.2 of RFC 9110), so each request names `download_size + 1` bytes; consecutive requests share exactly the byte at `read_end` |
| `S3Read.Consumed` | src/s3.rs:106 | consuming `cnt` bytes leaves `cnt` fewer bytes, all in non-empty segments |
| `S3Read.Body.ChunkLen` | src/s3.rs:103 | the current chunk is non-empty exactly while bytes remain, and is at most what remains |
| `S3Read.Body.Advance` | src/s3.rs:106 | `advance(cnt)` leaves `cnt` fewer bytes |
| `S3Read.CountBody` | src/s3.rs:100-107 | the loop ends with `num_bytes` equal to the body's length, `num_chunks` equal to its number of segments, and nothing left |
| `S3Read.Run` | src/s3.rs:71-117 | no iterations plan nothing; otherwise every iteration plans the same lists, or the first one panics or never ends |
| `Multipart.UploadFixedParts` | src/upload.rs:39-61 | a zero part size with data to send never ends; otherwise the log is `UploadLog` and `bytes_written` is `total_size` rounded up to whole parts |
| `Multipart.UploadLogShape` | src/upload.rs:49-61 | the log opens the session first, then has ceiling of `total / part` parts of exactly `part_size` bytes, then one `Complete`, which appears nowhere else |
| `Multipart.WrittenBounds` | src/main.rs:61-70 | `bytes_written` is a multiple of the part size, at least `total_size`, less than one part beyond it when `total_size > 0`, and equals it iff the part size divides `total_size` |
| `Multipart.EmptyUploadCompletes` | src/upload.rs:51-61 | with `total_size == 0` no part is sent but `complete` is still called |
| `Multipart.FourPartExample` | src/main.rs:61-71 | 1024 bytes in 256-byte parts: open, four parts of 256 bytes, one completion |
| `SequentialBench.Configure` | src/main.rs:46-48 | defaults: 1 GiB in 8 MiB parts, read back in 32 MiB ranges |
| `SequentialBench.ReadSequentially` | src/main.rs:79-90 | a zero `download_size` with a non-empty object never ends; otherwise the reads are `ReadLog`, the fixed-size ranges in order |
| `SequentialBench.ReadLogCovers` | src/main.rs:81-89 | there are ceiling of `length / download_size` reads; read `k` is `[k*size, k*size + size)`; they start at 0, are contiguous and start inside the object; the last ends at or past `length`, by less than one range |
| `SequentialBench.Run` | src/main.rs:46-90 | the program logs the upload followed by the reads over `bytes_written`; it never ends exactly when a loop's step is 0 while there is something to cover |
| `SequentialBench.ReadsUseRoundedUpLength` | src/main.rs:77 | 100 bytes in 64-byte parts are stored as 128 bytes and read in four 40-byte ranges, the last being `[120,160)`; three would cover the requested 100 |
| `SequentialBench.DefaultRun` | src/main.rs:46-48 | with the defaults: 128 parts of 8 MiB, no overshoot, then 32 reads |
| `GcsUpload.Configure` | src/upload.rs:26-30 | defaults: object `big_upload.data`, 2 TiB in 10 MiB parts |
| `GcsUpload.Run` | src/upload.rs:37-61 | the program logs exactly `UploadLog` of the configured size; it never ends exactly when `part_size == 0` with data to send |
| `GcsUpload.DefaultUploadOvershoots` | src/upload.rs:29-30 | the default run sends 209716 full parts and writes 8 MiB more than 2 TiB |
| `RandomAccess.Configure` | src/random_access.rs:52-61 | defaults: prefix `rab_files`, 5 iterations, 10 files, 1,000,000 rows, 8 bytes per row, 10,000 reads in flight, 10,000 reads per iteration; the store is `MakeStore` of `base_uri` |
| `RandomAccess.MakeStore` | src/random_access.rs:63-86 | checked in order: `s3://` gives S3 with the bucket after the prefix, region `us-east-1` and the given keys; else `gs://` gives GCS with the text after `gs:/`, which starts with `/`; else exactly `memory` gives in-memory; else a local directory rooted at `base_uri` |
| `RandomAccess.BucketSlicing` | src/random_access.rs:64-81 | `gs://bench` gives GCS bucket `/bench`, `s3://bench` gives S3 bucket `bench`, and `gs:/bench` falls through to a local directory |
| `RandomAccess.RowsPerFile` | src/random_access.rs:89 | the files hold `num_files * rows_per_file <= num_rows` rows; the last `num_rows % num_files` rows are in no file |
| `RandomAccess.FileFits` | src/random_access.rs:96-98 | a file's offset plus `rows_per_file` never exceeds `num_rows`, so `num_rows - offset` does not underflow and the `min` picks `rows_per_file` |
| `RandomAccess.UploadFiles` | src/random_access.rs:95-113 | the log is `FileUploads`: files `0 .. num_files - 1`, each of exactly `rows_per_file * bytes_per_row` bytes |
| `RandomAccess.FileUploadsAt` | src/random_access.rs:103-111 | file `i` is opened as `path/i`, gets one part of the file's size, and is completed |
| `RandomAccess.PointReadFor` | src/random_access.rs:123-129 | row `addr` is read from file `addr / rows_per_file` at row `addr % rows_per_file`; the read is `bytes_per_row` long and ends within the file's `rows_per_file * bytes_per_row` bytes |
| `RandomAccess.PointReadFitsU64` | src/random_access.rs:128-129 | when a file's `rows_per_file * bytes_per_row` bytes fit in a `u64`, so do each read's `file_offset` and `read_end` |
| `RandomAccess.PlanIteration` | src/random_access.rs:120-142 | the iteration plans its reads exactly when `takes_per_iter <= num_rows` and every address passes the guard. Otherwise it panics on the index, on `/ 0` or on the guard, under the conditions the loop order decides, and the panic is the one `IterationPanic` picks |
| `RandomAccess.PointReadInjective` | src/random_access.rs:123-129 | with `bytes_per_row > 0`, different rows give different `(file_id, file_offset)` |
| `RandomAccess.ZeroByteRowsCollide` | src/random_access.rs:128 | with `bytes_per_row == 0` two rows of one file are both read as `[0, 0)` |
| `RandomAccess.PlannedReadsDistinct` | src/random_access.rs:117-131 | within one iteration no two requests name the same object and offset |
| `RandomAccess.ReadHitsUploadedFile` | src/random_access.rs:123 | a read targets an uploaded file iff its row is below `num_files * rows_per_file` |
| `RandomAccess.EvenSplitStaysInFiles` | src/random_access.rs:123-127 | when `num_files` divides `num_rows`, every read's `addr / rows_per_file` is below `num_files`, and with at most 11 files the guard never fires |
| `RandomAccess.DefaultsNeverAbort` | src/random_access.rs:57-61 | with the defaults (100,000 rows per file) every iteration plans all 10,000 reads |
| `RandomAccess.NeverUploadedFilePassesGuard` | src/random_access.rs:124-127 | with 5 rows in 2 files, row 4 is read from file `2`, which was never uploaded, and the guard lets it through |
| `RandomAccess.GuardThreshold` | src/random_access.rs:124 | with one row per file, row 10 passes the guard and row 11 aborts |
| `RandomAccess.Benchmark` | src/random_access.rs:88-142 | no files panics on `/ 0`, even with the upload skipped. Otherwise the run finishes exactly when every iteration completes. It logs the uploads (none when skipped) and, per iteration, the `PlannedReads` of that iteration's shuffle. A failing run ends with the `IterationPanic` of its first iteration that does not complete, every earlier one having completed |

## Left out

- Every store call (`put_multipart`, `put_part`, `complete`, `get_range`, `get_object`, `head_object`, the builders) is foreign I/O. Each is recorded as an `Op` and never performed. Errors these calls return are not modelled; each would be a panic at its `unwrap`. One such case is `RandomAccess.NeverUploadedFilePassesGuard`: the read of a file that was never uploaded fails in the store, which the model does not capture.
- The S3 object length comes from `head_object`. It is an input of `S3Read.PlanReads` and `S3Read.Run`.
- `make_client` and credential resolution are SDK plumbing and are left out. So are the access and secret keys of `main.rs`, and the fresh clients `s3.rs` makes in every iteration.
- Any builder `build().unwrap()` can fail, including `LocalFileSystem::new_with_prefix` for a missing directory. That failure is environment-dependent I/O and is not modelled.
- `buffer_unordered` fan-out and tokio scheduling are left out: completion order is unspecified. Only the planned task lists are modelled. `threads_per_client` and `max_concurrent_reads` are kept as configuration and nothing else.
- `Instant` timing, the float throughput figures and all `println!` output are left out: they are clocks, floating point and output.
- The shuffle is an input. Each iteration's row order is any `IsShuffle` of `0 .. num_rows - 1`, not a particular random algorithm.
- `unsafe set_len` buffers are not modelled. Their content is irrelevant, so only a part's length is kept. Every part of an upload comes from one buffer of that length.
- clap parsing is reduced to `Option` fields and their `unwrap_or` defaults. The `skip_upload` flag of `main.rs` is parsed but never read by the code, and the model does the same.
- `src/parquet.rs` is not part of this model. It is a thin wrapper over the parquet/arrow reader and tokio file I/O.
- Integer widths are not modelled: sizes are unbounded. Rust's `u64`/`usize` overflow (a panic in debug builds, wrap-around in release builds) is absent. The fixed-step loops stay below their length plus one step. In `s3.rs` that is `total_size + download_size` (`S3Read.PlanFitsU64`). In `upload.rs` it is `total_size + part_size` (`Multipart.WrittenBounds`). In the reads of `main.rs` it is `bytes_written + download_size` (`SequentialBench.ReadLogCovers`). Within those bounds the model matches the source.
- RandomAccess.PlanIteration: the model matches `random_access.rs` only when `rows_per_file * bytes_per_row <= 2^64 - 1` (`RandomAccess.PointReadFitsU64`). Without that bound `(addr % rows_per_file) * bytes_per_row` overflows: a debug build panics, and a release build wraps, so two rows can share an offset. `RandomAccess.PlannedReadsDistinct` and `RandomAccess.Benchmark` carry the same bound.
- `Path::from` normalisation of object paths is not modelled. `Storage.Child` joins with `/`.
- When an iteration of the S3 or random-access benchmark panics, the outcome is only the panic. Reads already run in earlier iterations are not part of it.
- S3Read.CountBody: assumes every segment of the body is non-empty (`Body.Valid`). A body holding an empty segment with bytes after it would make the source loop forever. The model does not capture that.
- S3Read.Body.Advance: requires `cnt <= remaining()`, where Rust's `advance` panics. The counting loop never asks for more.
- How many bytes a server returns for an unclamped range is server behaviour and is left out.
