/**
 * The object-store calls of the benchmarks, recorded as entries of an operation
 * log instead of being performed. Only what the planners decide is kept: the
 * object a call names, the length of a part, the byte range of a read.
 */
module Storage {
  import opened Decimal

  /** An object path such as `rab_files/3`. */
  type ObjectPath = string

  datatype Op =
    | OpenMultipart(path: ObjectPath)   // `put_multipart(&path)`
    | PutPart(len: nat)                 // `put_part` on the open session with a payload of `len` bytes
    | Complete                          // `complete()` on the open session
    | GetRange(path: ObjectPath, start: nat, end: nat)  // `get_range(&path, start..end)`

  /** `Path::child`: one more path segment under `parent`. */
  function Child(parent: ObjectPath, segment: string): (r: ObjectPath)
    ensures |r| == |parent| + 1 + |segment|
    ensures r[..|parent|] == parent && r[|parent|] == '/' && r[|parent| + 1..] == segment
  {
    parent + "/" + segment
  }

  /** Objects named by distinct indices under one parent are distinct objects. */
  lemma ChildOfIndexInjective(parent: ObjectPath, i: nat, j: nat)
    requires Child(parent, Dec(i)) == Child(parent, Dec(j))
    ensures i == j
  {
    var p := Child(parent, Dec(i));
    assert Dec(i) == p[|parent| + 1..] == Dec(j);
    DecInjective(i, j);
  }
}
