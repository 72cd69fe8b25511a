/**
 * The S3 download benchmark: the object's length comes from `head_object`, then
 * in every iteration one fresh client is made per client slot and the object is
 * cut into `download_size` ranges, task `k` going to client `k % num_clients`.
 * Each task sends a GET with a `Range` header and counts the body it receives.
 */
module S3Read {
  import opened Outcomes
  import opened Arith
  import opened Decimal
  import opened Ranges

  // ----- command line -----

  /** The flags the planner reads; `total_size` is parsed but unused, the length is taken from `head_object`. */
  datatype Args = Args(
    downloadSize: Option<nat>,
    totalSize: Option<nat>,
    bucket: string,
    path: Option<string>,
    numClients: Option<nat>,
    maxThreadsPerClient: Option<nat>,
    numIterations: Option<nat>)

  datatype Config = Config(
    bucket: string,
    path: string,
    numClients: nat,
    threadsPerClient: nat,
    numIterations: nat,
    downloadSize: nat)

  const MiB: nat := 1024 * 1024

  /** Every absent flag falls back to its default: 8 clients with 8 in-flight reads each,
      5 iterations, 32 MiB per range, object `some_file.data`. */
  function Configure(args: Args): (c: Config)
    ensures c.bucket == args.bucket
    ensures c.path == (if args.path.Some? then args.path.value else "some_file.data")
    ensures c.numClients == (if args.numClients.Some? then args.numClients.value else 8)
    ensures c.threadsPerClient == (if args.maxThreadsPerClient.Some? then args.maxThreadsPerClient.value else 8)
    ensures c.numIterations == (if args.numIterations.Some? then args.numIterations.value else 5)
    ensures c.downloadSize == (if args.downloadSize.Some? then args.downloadSize.value else 32 * MiB)
  {
    Config(
      args.bucket,
      args.path.UnwrapOr("some_file.data"),
      args.numClients.UnwrapOr(8),
      args.maxThreadsPerClient.UnwrapOr(8),
      args.numIterations.UnwrapOr(5),
      args.downloadSize.UnwrapOr(32 * MiB))
  }

  // ----- the read plan -----

  /** One planned download: the client slot that runs it and its `[read_start, read_end)`. */
  datatype ReadTask = ReadTask(client: nat, range: ByteRange)

  /** Task number `k` of the plan. */
  function TaskFor(k: nat, size: nat, n: nat): ReadTask
    requires n > 0
  {
    ReadTask(k % n, Chunk(k, size))
  }

  /** How many of the task numbers `0 .. count - 1` are congruent to `c` modulo `n`. */
  function Share(count: nat, n: nat, c: nat): nat
    requires n > 0
  {
    count / n + (if c < count % n then 1 else 0)
  }

  /** The per-client lists once tasks `0 .. count - 1` have been handed out round-robin:
      list `c` holds tasks `c, c + n, c + 2n, ...` in that order. */
  function Assigned(count: nat, size: nat, n: nat): seq<seq<ReadTask>>
    requires n > 0 || count == 0
  {
    seq(n, (c: nat) requires c < n =>
      seq(Share(count, n, c), (j: nat) => TaskFor(c + j * n, size, n)))
  }

  /** The inputs for which the planning loop finishes. */
  predicate Plannable(total: nat, size: nat, n: nat)
  {
    total == 0 || (n > 0 && size > 0)
  }

  /** The complete plan for an object of `total` bytes. */
  function Plan(total: nat, size: nat, n: nat): seq<seq<ReadTask>>
    requires size > 0 || total == 0
    requires n > 0 || total == 0
  {
    Assigned(CeilDiv(total, size), size, n)
  }

  /** Handing out task `k` appends it to list `k % n` and leaves every other list alone. */
  lemma AssignStep(k: nat, size: nat, n: nat)
    requires n > 0
    ensures var a := Assigned(k, size, n);
      Assigned(k + 1, size, n) == a[k % n := a[k % n] + [TaskFor(k, size, n)]]
  {
    var a, b := Assigned(k, size, n), Assigned(k + 1, size, n);
    var c0 := k % n;
    var a' := a[c0 := a[c0] + [TaskFor(k, size, n)]];
    DivModSucc(k, n);
    forall c | 0 <= c < n
      ensures b[c] == a'[c]
    {
      if c == c0 {
        assert Share(k, n, c) == k / n;
        assert Share(k + 1, n, c) == k / n + 1;
        assert c0 + (k / n) * n == k;
        assert |b[c]| == |a'[c]|;
        forall j | 0 <= j < |b[c]|
          ensures b[c][j] == a'[c][j]
        {
        }
      } else {
        assert Share(k + 1, n, c) == Share(k, n, c);
      }
    }
  }

  /** The `for _ in 0..num_clients` loop: one empty task list per client. */
  method NewTaskLists(n: nat) returns (lists: seq<seq<ReadTask>>)
    ensures |lists| == n
    ensures forall c :: 0 <= c < n ==> lists[c] == []
  {
    lists := [];
    for i := 0 to n
      invariant |lists| == i
      invariant forall c :: 0 <= c < i ==> lists[c] == []
    {
      lists := lists + [[]];
    }
  }

  /**
   * The planning loop of one iteration. With a non-empty object it panics on
   * `task_idx % 0` when there are no clients, and never stops when
   * `download_size == 0` (the guard `task_idx * 0 < total_size` stays true).
   */
  method PlanReads(totalSize: nat, downloadSize: nat, numClients: nat)
    returns (r: Outcome<seq<seq<ReadTask>>>)
    ensures r == Panicked(RemainderByZero) <==> totalSize > 0 && numClients == 0
    ensures r == Diverges <==> totalSize > 0 && numClients > 0 && downloadSize == 0
    ensures r.Finished? <==> Plannable(totalSize, downloadSize, numClients)
    ensures r.Finished? ==> r.value == Plan(totalSize, downloadSize, numClients)
  {
    var readTasks := NewTaskLists(numClients);
    if totalSize > 0 && numClients == 0 {
      return Panicked(RemainderByZero);
    }
    if totalSize > 0 && downloadSize == 0 {
      return Diverges;
    }
    forall c | 0 <= c < numClients
      ensures Assigned(0, downloadSize, numClients)[c] == []
    {
      assert Share(0, numClients, c) == 0;
    }
    var taskIdx: nat := 0;
    while taskIdx * downloadSize < totalSize
      invariant numClients > 0 || taskIdx == 0
      invariant readTasks == Assigned(taskIdx, downloadSize, numClients)
      invariant taskIdx == 0 || (taskIdx - 1) * downloadSize < totalSize
      decreases totalSize - taskIdx * downloadSize
    {
      var clientIdx := taskIdx % numClients;
      var readStart := taskIdx * downloadSize;
      var readEnd := readStart + downloadSize;
      AssignStep(taskIdx, downloadSize, numClients);
      readTasks := readTasks[clientIdx := readTasks[clientIdx] + [ReadTask(clientIdx, ByteRange(readStart, readEnd))]];
      assert (taskIdx + 1) * downloadSize == readEnd;
      taskIdx := taskIdx + 1;
    }
    if totalSize > 0 {
      assert (taskIdx - 1) * downloadSize + downloadSize == taskIdx * downloadSize;
      CeilDivIff(totalSize, downloadSize, taskIdx);
    } else if taskIdx > 0 {
      assert false;
    }
    return Finished(readTasks);
  }

  /** Task `k` of the object sits in list `k % n` at position `k / n`, carrying the `k`-th range. */
  lemma PlanPlacement(total: nat, size: nat, n: nat, k: nat)
    requires size > 0 && n > 0
    requires k < |Chunks(total, size)|
    ensures var p := Plan(total, size, n);
      k / n < |p[k % n]| && p[k % n][k / n] == ReadTask(k % n, Chunks(total, size)[k])
  {
    var c, j := k % n, k / n;
    ShareCounts(CeilDiv(total, size), n, k);
    assert c + j * n == k;
  }

  /** Task numbers below `count` are exactly those that fit in their residue's share. */
  lemma ShareCounts(count: nat, n: nat, k: nat)
    requires n > 0 && k < count
    ensures k / n < Share(count, n, k % n)
  {
    var c, j := k % n, k / n;
    var q, m := count / n, count % n;
    assert k == j * n + c;
    assert count == q * n + m;
    if j > q {
      MulLeft(q + 1, j, n);
      assert false;
    } else if j == q {
      assert c < m;
    }
  }

  /** Conversely, entry `j` of list `c` is task `c + j * n`: a task of the object, run by client `c`. */
  lemma PlanEntry(total: nat, size: nat, n: nat, c: nat, j: nat)
    requires size > 0 && n > 0 && c < n
    requires j < |Plan(total, size, n)[c]|
    ensures c + j * n < |Chunks(total, size)|
    ensures Plan(total, size, n)[c][j] == ReadTask(c, Chunks(total, size)[c + j * n])
  {
    var count := CeilDiv(total, size);
    assert j < Share(count, n, c);
    ShareEntry(count, n, c, j);
    DivModOfSum(c, j, n);
  }

  /** Position `j` of residue `c`'s share is a task number below `count`. */
  lemma ShareEntry(count: nat, n: nat, c: nat, j: nat)
    requires c < n && j < Share(count, n, c)
    ensures c + j * n < count
  {
    var q, m := count / n, count % n;
    assert count == q * n + m;
    if j < q {
      MulLeft(j + 1, q, n);
    }
  }

  /**
   * Under `u64` arithmetic: when `total + size` fits in 64 bits, the loop's last test
   * value `task_idx * download_size` and every planned `read_end` fit as well.
   */
  lemma PlanFitsU64(total: nat, size: nat, n: nat, c: nat, j: nat)
    requires size > 0 && n > 0 && c < n
    requires total + size <= U64Max + 1
    requires j < |Plan(total, size, n)[c]|
    ensures CeilDiv(total, size) * size <= U64Max
    ensures Plan(total, size, n)[c][j].range.end <= U64Max
  {
    var count := CeilDiv(total, size);
    CeilDivIff(total, size, count);
    PlanEntry(total, size, n, c, j);
    MulLeft(c + j * n + 1, count, size);
  }

  /** No task is planned twice: an entry whose range is task `k`'s sits at list `k % n`, position `k / n`. */
  lemma PlanExactlyOnce(total: nat, size: nat, n: nat, k: nat, c: nat, j: nat)
    requires size > 0 && n > 0 && c < n
    requires k < |Chunks(total, size)|
    requires j < |Plan(total, size, n)[c]|
    requires Plan(total, size, n)[c][j].range == Chunks(total, size)[k]
    ensures c == k % n && j == k / n
  {
    PlanEntry(total, size, n, c, j);
    var i := c + j * n;
    if i < k {
      MulStrict(i, k, size);
    } else if i > k {
      MulStrict(k, i, size);
    }
    DivModOfSum(c, j, n);
  }

  /** Each list holds its tasks in increasing order: earlier entries end before later ones start. */
  lemma PlanListOrdered(total: nat, size: nat, n: nat, c: nat, i: nat, j: nat)
    requires size > 0 && n > 0 && c < n
    requires i < j < |Plan(total, size, n)[c]|
    ensures Plan(total, size, n)[c][i].range.end <= Plan(total, size, n)[c][j].range.start
  {
    PlanEntry(total, size, n, c, i);
    PlanEntry(total, size, n, c, j);
    MulLeft(i + 1, j, n);
    MulLeft(c + i * n + 1, c + j * n, size);
  }

  /** The number of tasks in a collection of lists. */
  function TotalTasks(lists: seq<seq<ReadTask>>): nat
  {
    if lists == [] then 0 else TotalTasks(lists[..|lists| - 1]) + |lists[|lists| - 1]|
  }

  lemma {:induction false} AssignedPrefixTotal(count: nat, size: nat, n: nat, m: nat)
    requires n > 0 && m <= n
    ensures TotalTasks(Assigned(count, size, n)[..m]) == m * (count / n) + Min(m, count % n)
  {
    var a := Assigned(count, size, n);
    if m > 0 {
      AssignedPrefixTotal(count, size, n, m - 1);
      assert a[..m][..m - 1] == a[..m - 1];
      assert |a[m - 1]| == Share(count, n, m - 1);
      assert Min(m, count % n) == Min(m - 1, count % n) + (if m - 1 < count % n then 1 else 0);
      assert m * (count / n) == (m - 1) * (count / n) + count / n;
    }
  }

  /** Round-robin balance: list lengths differ by at most one, and together they hold every task. */
  lemma PlanBalanced(total: nat, size: nat, n: nat)
    requires size > 0 && n > 0
    ensures var p := Plan(total, size, n);
      && (forall c, d :: 0 <= c < n && 0 <= d < n ==> |p[c]| <= |p[d]| + 1)
      && TotalTasks(p) == |Chunks(total, size)|
  {
    var count := CeilDiv(total, size);
    var p := Plan(total, size, n);
    AssignedPrefixTotal(count, size, n, n);
    assert p[..n] == p;
  }

  /** With an empty object every client gets an empty list, whatever the range size. */
  lemma EmptyObjectPlansNothing(size: nat, n: nat)
    ensures Plan(0, size, n) == seq(n, _ => [])
  {
    forall c | 0 <= c < n
      ensures Plan(0, size, n)[c] == []
    {
      assert Share(0, n, c) == 0;
    }
  }

  /** With the default 8 clients and 32 MiB ranges a 1 GiB object is read in 32 tasks, 4 per client. */
  lemma DefaultPlanOfOneGiB()
    ensures var p := Plan(1024 * MiB, 32 * MiB, 8);
      |p| == 8 && forall c :: 0 <= c < 8 ==> |p[c]| == 4
  {
    assert CeilDiv(1024 * MiB, 32 * MiB) == 32;
  }

  // ----- the request -----

  /** `format!("bytes={}-{}", read_start, read_end)`. */
  function RangeHeader(r: ByteRange): string
  {
    "bytes=" + Dec(r.start) + "-" + Dec(r.end)
  }

  /** Reads a single byte-range of a `Range` header, `bytes=first-last` (section 14.1.2 of RFC 9110). */
  function ParseRangeHeader(h: string): Option<(nat, nat)>
  {
    if |h| < 6 || h[..6] != "bytes=" then None
    else
      var spec := h[6..];
      match IndexOf(spec, '-')
      case None => None
      case Some(i) =>
        match (ParseDec(spec[..i]), ParseDec(spec[i + 1..]))
        case (Some(first), Some(last)) => Some((first, last))
        case _ => None
  }

  /** The header text can be read back: it names `read_start` as first and `read_end` as last position. */
  lemma RangeHeaderRoundTrip(r: ByteRange)
    ensures ParseRangeHeader(RangeHeader(r)) == Some((r.start, r.end))
  {
    var a, b := Dec(r.start), Dec(r.end);
    DecRoundTrip(r.start);
    DecRoundTrip(r.end);
    var h := RangeHeader(r);
    assert h[..6] == "bytes=";
    var spec := h[6..];
    assert spec == a + "-" + b;
    assert spec[|a|] == '-';
    match IndexOf(spec, '-')
    case None =>
      assert false;
    case Some(i) =>
      assert i == |a|;
      assert spec[..i] == a && spec[i + 1..] == b;
  }

  /** Under RFC 9110 the last position is inclusive: a header names the bytes `first .. last`. */
  predicate Names(h: string, b: nat)
  {
    match ParseRangeHeader(h)
    case Some((first, last)) => first <= b <= last
    case None => false
  }

  /**
   * Because `read_end` is sent as the inclusive last position, every request asks for
   * `download_size + 1` bytes, and consecutive tasks both ask for the byte at `read_end`.
   */
  lemma HeaderAsksOneExtraByte(total: nat, size: nat, k: nat)
    requires size > 0
    requires k + 1 < |Chunks(total, size)|
    ensures var c := Chunks(total, size);
      && ParseRangeHeader(RangeHeader(c[k])) == Some((c[k].start, c[k].start + size))
      && forall b :: Names(RangeHeader(c[k]), b) && Names(RangeHeader(c[k + 1]), b) <==> b == c[k].end
  {
    var c := Chunks(total, size);
    RangeHeaderRoundTrip(c[k]);
    RangeHeaderRoundTrip(c[k + 1]);
    ChunksContiguous(total, size);
  }

  // ----- the body -----

  /** The number of bytes in a list of segment lengths. */
  function SegmentBytes(segments: seq<nat>): nat
  {
    if segments == [] then 0 else segments[0] + SegmentBytes(segments[1..])
  }

  /** What is left after consuming `cnt` bytes from the front (`Buf::advance`). */
  function Consumed(segments: seq<nat>, cnt: nat): (r: seq<nat>)
    requires cnt <= SegmentBytes(segments)
    requires forall i :: 0 <= i < |segments| ==> segments[i] > 0
    ensures SegmentBytes(r) == SegmentBytes(segments) - cnt
    ensures forall i :: 0 <= i < |r| ==> r[i] > 0
  {
    if cnt == 0 then segments
    else if cnt >= segments[0] then Consumed(segments[1..], cnt - segments[0])
    else [segments[0] - cnt] + segments[1..]
  }

  /**
   * A collected response body read through the `Buf` interface. Only the lengths of
   * its segments matter; every segment it holds is non-empty.
   */
  class Body {
    var segments: seq<nat>

    ghost predicate Valid()
      reads this
    {
      forall i :: 0 <= i < |segments| ==> segments[i] > 0
    }

    constructor (segments: seq<nat>)
      requires forall i :: 0 <= i < |segments| ==> segments[i] > 0
      ensures Valid() && this.segments == segments
    {
      this.segments := segments;
    }

    /** `remaining()` */
    function Remaining(): nat
      reads this
    {
      SegmentBytes(segments)
    }

    /** `chunk().len()`: the length of the first unread segment. */
    function ChunkLen(): (len: nat)
      reads this
      requires Valid()
      ensures len <= Remaining()
      ensures len > 0 <==> Remaining() > 0
    {
      if segments == [] then 0 else segments[0]
    }

    /** `advance(cnt)`, which panics when `cnt > remaining()`. */
    method Advance(cnt: nat)
      requires Valid() && cnt <= Remaining()
      modifies this
      ensures Valid()
      ensures segments == Consumed(old(segments), cnt)
      ensures Remaining() == old(Remaining()) - cnt
    {
      segments := Consumed(segments, cnt);
    }
  }

  /** The loop `while data.remaining() > 0`: it counts every byte of the body and one chunk per segment. */
  method CountBody(data: Body) returns (numBytes: nat, numChunks: nat)
    requires data.Valid()
    modifies data
    ensures numBytes == old(data.Remaining())
    ensures numChunks == old(|data.segments|)
    ensures data.Valid() && data.Remaining() == 0
  {
    numBytes, numChunks := 0, 0;
    while data.Remaining() > 0
      invariant data.Valid()
      invariant numBytes + data.Remaining() == old(data.Remaining())
      invariant numChunks + |data.segments| == old(|data.segments|)
      decreases |data.segments|
    {
      var bytesInChunk := data.ChunkLen();
      numBytes := numBytes + bytesInChunk;
      numChunks := numChunks + 1;
      assert Consumed(data.segments, bytesInChunk) == data.segments[1..];
      data.Advance(bytesInChunk);
    }
  }

  // ----- the program -----

  /** All iterations of the benchmark. Nothing is planned when there are no iterations; otherwise every
      iteration plans the same lists, or the first one panics or never ends. */
  method Run(args: Args, totalSize: nat) returns (r: Outcome<seq<seq<seq<ReadTask>>>>)
    ensures var c := Configure(args);
      && (c.numIterations == 0 ==> r == Finished([]))
      && (c.numIterations > 0 && totalSize > 0 && c.numClients == 0 ==> r == Panicked(RemainderByZero))
      && (c.numIterations > 0 && totalSize > 0 && c.numClients > 0 && c.downloadSize == 0 ==> r == Diverges)
      && (Plannable(totalSize, c.downloadSize, c.numClients) ==>
            r.Finished? && |r.value| == c.numIterations &&
            forall i :: 0 <= i < c.numIterations ==> r.value[i] == Plan(totalSize, c.downloadSize, c.numClients))
  {
    var cfg := Configure(args);
    var plans := [];
    for i := 0 to cfg.numIterations
      invariant i > 0 ==> Plannable(totalSize, cfg.downloadSize, cfg.numClients)
      invariant |plans| == i
      invariant forall k :: 0 <= k < i ==>
        Plannable(totalSize, cfg.downloadSize, cfg.numClients) &&
        plans[k] == Plan(totalSize, cfg.downloadSize, cfg.numClients)
    {
      var p := PlanReads(totalSize, cfg.downloadSize, cfg.numClients);
      match p
      case Panicked(e) => return Panicked(e);
      case Diverges => return Diverges;
      case Finished(lists) => plans := plans + [lists];
    }
    return Finished(plans);
  }
}
