/** The schema of the info queries: `info_list`, sorted by parameter id
    and closed by a sentinel row, the category boundaries
    `first_info_ids`, and `getInfoTable`, which slices out one category
    (LuaOpenCL.cpp:12-18, 35-40, 512-665, 812-829). */
module Schema {

  import opened Catalog
  import opened Decoders

  /** `eInfoTable` without its `IT_MAX` count. */
  datatype Category =
    | PlatformInfo | DeviceInfo | ContextInfo | QueueInfo
    | MemInfo | ImageInfo | SamplerInfo | ProgramInfo
    | ProgramBuildInfo | KernelInfo | WorkGroupInfo | EventInfo
    | ProfilingInfo

  /** `IT_MAX`. */
  const NumCategories: nat := 13

  function Ordinal(c: Category): (o: nat)
    ensures o < NumCategories
  {
    match c
    case PlatformInfo => 0
    case DeviceInfo => 1
    case ContextInfo => 2
    case QueueInfo => 3
    case MemInfo => 4
    case ImageInfo => 5
    case SamplerInfo => 6
    case ProgramInfo => 7
    case ProgramBuildInfo => 8
    case KernelInfo => 9
    case WorkGroupInfo => 10
    case EventInfo => 11
    case ProfilingInfo => 12
  }

  /** The id of the row closing `info_list`, also the last boundary. */
  const Sentinel: int := 0xFFFF

  /** One row of `info_list`: the native parameter id, the field name the
      result is stored under, and the decoder. */
  datatype InfoRow = InfoRow(id: int, name: string, decoder: Decoder)

  /** What `getInfoTable` relies on: the list ends with the sentinel and
      the boundaries are `cl_ushort`s, one per category plus the closing
      one. */
  predicate WellFormed(rows: seq<InfoRow>, bounds: seq<int>)
  {
    && |rows| > 0
    && rows[|rows| - 1].id == Sentinel
    && |bounds| == NumCategories + 1
    && (forall k :: 0 <= k < |bounds| ==> 0 <= bounds[k] <= Sentinel)
  }

  /** Ids strictly increase along the list. */
  predicate Ascending(rows: seq<InfoRow>)
  {
    forall i, j :: 0 <= i < j < |rows| ==> rows[i].id < rows[j].id
  }

  /** Index of the first row at or after `i` whose id is at least `fid`;
      the sentinel guarantees there is one. */
  function FirstAtLeast(rows: seq<InfoRow>, fid: int, i: nat): (k: nat)
    requires i < |rows| && rows[|rows| - 1].id >= fid
    ensures i <= k < |rows|
    ensures forall j :: i <= j < k ==> rows[j].id < fid
    ensures rows[k].id >= fid
    decreases |rows| - i
  {
    if rows[i].id >= fid then i else FirstAtLeast(rows, fid, i + 1)
  }

  /** The slice of category `c`: from the first row with id at least its
      boundary to the first row with id at least the next boundary. */
  function InfoRange(rows: seq<InfoRow>, bounds: seq<int>, c: Category): Span
    requires WellFormed(rows, bounds)
  {
    var o := Ordinal(c);
    var i := FirstAtLeast(rows, bounds[o], 0);
    var j := FirstAtLeast(rows, bounds[o + 1], i);
    Span(i, j - i)
  }

  /** `getInfoTable`: two unguarded scans, each stopped by the first id at
      or above the boundary; the sentinel stops both. */
  method GetInfoTable(rows: seq<InfoRow>, bounds: seq<int>, c: Category) returns (start: nat, count: nat)
    requires WellFormed(rows, bounds)
    ensures start + count < |rows|
    ensures forall k :: 0 <= k < start ==> rows[k].id < bounds[Ordinal(c)]
    ensures rows[start].id >= bounds[Ordinal(c)]
    ensures forall k :: start <= k < start + count ==> rows[k].id < bounds[Ordinal(c) + 1]
    ensures rows[start + count].id >= bounds[Ordinal(c) + 1]
    ensures Ascending(rows) ==>
      forall k :: 0 <= k < |rows| ==>
        (start <= k < start + count <==> bounds[Ordinal(c)] <= rows[k].id < bounds[Ordinal(c) + 1])
  {
    var o := Ordinal(c);
    var fid := bounds[o];
    var i := 0;
    while rows[i].id < fid
      invariant i < |rows|
      invariant forall k :: 0 <= k < i ==> rows[k].id < fid
      decreases |rows| - i
    {
      i := i + 1;
    }
    fid := bounds[o + 1];
    var j := i;
    while rows[j].id < fid
      invariant i <= j < |rows|
      invariant forall k :: i <= k < j ==> rows[k].id < fid
      decreases |rows| - j
    {
      j := j + 1;
    }
    start, count := i, j - i;
  }

  /** Both scans agree with the functional reading. */
  lemma GetInfoTableIsInfoRange(rows: seq<InfoRow>, bounds: seq<int>, c: Category, start: nat, count: nat)
    requires WellFormed(rows, bounds)
    requires start + count < |rows|
    requires forall k :: 0 <= k < start ==> rows[k].id < bounds[Ordinal(c)]
    requires rows[start].id >= bounds[Ordinal(c)]
    requires forall k :: start <= k < start + count ==> rows[k].id < bounds[Ordinal(c) + 1]
    requires rows[start + count].id >= bounds[Ordinal(c) + 1]
    ensures InfoRange(rows, bounds, c) == Span(start, count)
  {
  }

  /** The sentinel row belongs to no category. */
  lemma SentinelExcluded(rows: seq<InfoRow>, bounds: seq<int>, c: Category)
    requires WellFormed(rows, bounds)
    ensures var r := InfoRange(rows, bounds, c);
      r.start + r.count < |rows|
      && forall k :: r.start <= k < r.start + r.count ==> rows[k].id != Sentinel
  {
  }

  /** In an ascending list each category ends where the next one starts,
      so the categories tile the list. */
  lemma {:induction false} CategoriesAdjacent(rows: seq<InfoRow>, bounds: seq<int>, c: Category, d: Category)
    requires WellFormed(rows, bounds) && Ascending(rows)
    requires Ordinal(d) == Ordinal(c) + 1
    requires bounds[Ordinal(c)] <= bounds[Ordinal(d)]
    ensures InfoRange(rows, bounds, d).start
         == InfoRange(rows, bounds, c).start + InfoRange(rows, bounds, c).count
  {
    var o := Ordinal(c);
    var i := FirstAtLeast(rows, bounds[o], 0);
    var j := FirstAtLeast(rows, bounds[o + 1], i);
    var i' := FirstAtLeast(rows, bounds[o + 1], 0);
    assert i <= i';
  }
}
