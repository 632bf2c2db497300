/** The enumeration catalog (`enum_info_list`) and `getEnumTable`, which
    finds the contiguous run of rows of one enumeration type.
    LuaOpenCL.cpp:19-28 (the types), 43-48 (a row), 831-842 (the lookup). */
module Catalog {

  import opened Results

  /** `enumTypes`, in declaration order. */
  datatype EnumType =
    | DeviceType | DeviceFpConfig | DeviceMemCacheType | DeviceLocalMemType
    | DeviceExecCapabilities | CommandQueueProperties | ContextProperties
    | DevicePartitionProperty | DeviceAffinityDomain | MemFlags
    | MemMigrationFlags | ChannelOrder | ChannelType | MemObjectType
    | AddressingMode | FilterMode | MapFlags | ProgramBinaryType
    | BuildStatus | KernelArgAddressQualifier | KernelArgAccessQualifier
    | KernelArgTypeQualifier | CommandType | CommandExecutionStatus | BufferCreateType

  /** One catalog row; `value` is the bit pattern of the 32-bit C `int`
      the native constant is stored in. */
  datatype EnumRow = EnumRow(kind: EnumType, value: bv32, name: string)

  /** A slice of a table: the pointer offset and the count a lookup returns. */
  datatype Span = Span(start: nat, count: nat)

  /** `r` is the run `getEnumTable` is meant to find: it starts at the first
      row of type `t` (or at the end when there is none) and extends over
      every following row of that type. */
  predicate IsTypeRun(table: seq<EnumRow>, t: EnumType, r: Span)
  {
    && r.start + r.count <= |table|
    && (forall k :: 0 <= k < r.start ==> table[k].kind != t)
    && (r.start < |table| ==> table[r.start].kind == t)
    && (forall k :: r.start <= k < r.start + r.count ==> table[k].kind == t)
    && (r.start + r.count < |table| ==> table[r.start + r.count].kind != t)
  }

  /** The rows of a table between the bounds of a span. */
  function Rows(table: seq<EnumRow>, r: Span): seq<EnumRow>
    requires r.start + r.count <= |table|
  {
    table[r.start .. r.start + r.count]
  }

  /** Index of the first row of type `t` at or after `i`, or `|table|`. */
  function FirstOfType(table: seq<EnumRow>, t: EnumType, i: nat): (k: nat)
    requires i <= |table|
    ensures i <= k <= |table|
    ensures forall j :: i <= j < k ==> table[j].kind != t
    ensures k < |table| ==> table[k].kind == t
    decreases |table| - i
  {
    if i == |table| || table[i].kind == t then i else FirstOfType(table, t, i + 1)
  }

  /** Index of the first row at or after `j` whose type is not `t`, or `|table|`. */
  function EndOfType(table: seq<EnumRow>, t: EnumType, j: nat): (k: nat)
    requires j <= |table|
    ensures j <= k <= |table|
    ensures forall m :: j <= m < k ==> table[m].kind == t
    ensures k < |table| ==> table[k].kind != t
    decreases |table| - j
  {
    if j == |table| || table[j].kind != t then j else EndOfType(table, t, j + 1)
  }

  /** The run of type `t`, with the scan bound the lookup intends. */
  function TypeRun(table: seq<EnumRow>, t: EnumType): (r: Span)
    ensures IsTypeRun(table, t, r)
  {
    var i := FirstOfType(table, t, 0);
    Span(i, EndOfType(table, t, i) - i)
  }

  /** The rows of type `t` that the codec scans. */
  function RunOf(table: seq<EnumRow>, t: EnumType): (rows: seq<EnumRow>)
    ensures forall k :: 0 <= k < |rows| ==> rows[k].kind == t
  {
    Rows(table, TypeRun(table, t))
  }

  /** `getEnumTable` with the second loop bounded by `j`, the bound the
      first loop and the rest of the file use. */
  method GetEnumTable(table: seq<EnumRow>, t: EnumType) returns (start: nat, count: nat)
    ensures IsTypeRun(table, t, Span(start, count))
  {
    var i := 0;
    while i < |table|
      invariant i <= |table|
      invariant forall k :: 0 <= k < i ==> table[k].kind != t
    {
      if table[i].kind == t {
        break;
      }
      i := i + 1;
    }
    var j := i;
    while j < |table|
      invariant i <= j <= |table|
      invariant forall k :: i <= k < j ==> table[k].kind == t
    {
      if table[j].kind != t {
        break;
      }
      j := j + 1;
    }
    start, count := i, j - i;
  }

  /** A table has at most one run per type. */
  lemma TypeRunUnique(table: seq<EnumRow>, t: EnumType, r1: Span, r2: Span)
    requires IsTypeRun(table, t, r1) && IsTypeRun(table, t, r2)
    ensures r1 == r2
  {
  }

  /** The rows of every type are contiguous (the table's layout rule). */
  predicate Grouped(table: seq<EnumRow>)
  {
    forall i, j, k :: 0 <= i < j < k < |table| && table[i].kind == table[k].kind ==> table[j].kind == table[i].kind
  }

  /** In a grouped table the run holds exactly the rows of type `t`. */
  lemma GroupedRunIsExact(table: seq<EnumRow>, t: EnumType, k: nat)
    requires Grouped(table)
    requires k < |table|
    ensures var r := TypeRun(table, t);
      table[k].kind == t <==> r.start <= k < r.start + r.count
  {
  }

  /** A run laid out as `before + run + after`, with `t` absent from both
      sides, is the run the lookup finds. */
  lemma TypeRunOfLayout(before: seq<EnumRow>, run: seq<EnumRow>, after: seq<EnumRow>, t: EnumType)
    requires |run| > 0
    requires forall k :: 0 <= k < |before| ==> before[k].kind != t
    requires forall k :: 0 <= k < |run| ==> run[k].kind == t
    requires forall k :: 0 <= k < |after| ==> after[k].kind != t
    ensures TypeRun(before + run + after, t) == Span(|before|, |run|)
    ensures RunOf(before + run + after, t) == run
  {
    var table := before + run + after;
    assert IsTypeRun(table, t, Span(|before|, |run|)) by {
      forall k | 0 <= k < |before|
        ensures table[k].kind != t
      {
        assert table[k] == before[k];
      }
      forall k | |before| <= k < |before| + |run|
        ensures table[k].kind == t
      {
        assert table[k] == run[k - |before|];
      }
      if |before| + |run| < |table| {
        assert table[|before| + |run|] == after[0];
      }
    }
    TypeRunUnique(table, t, TypeRun(table, t), Span(|before|, |run|));
    assert table[|before| .. |before| + |run|] == run;
  }

  // ---------------------------------------------------------------------
  // The lookup as the source writes it.

  /** The second scan of `getEnumTable` as written: its condition tests the
      first index `i` against the table length instead of `j`, so once `i`
      is inside the table only a row of another type stops it. `None` means
      the scan read the row one past the end of the table. */
  function EndAsWritten(table: seq<EnumRow>, t: EnumType, i: nat, j: nat): (r: Option<nat>)
    requires i <= j <= |table|
    ensures r.Some? ==> j <= r.value <= |table|
    decreases |table| - j
  {
    if !(i < |table|) then Some(j)
    else if j == |table| then None
    else if table[j].kind != t then Some(j)
    else EndAsWritten(table, t, i, j + 1)
  }

  /** `getEnumTable` exactly as written; `None` stands for the read past
      the end of `enum_info_list`. */
  function GetEnumTableAsWritten(table: seq<EnumRow>, t: EnumType): Option<Span>
  {
    var i := FirstOfType(table, t, 0);
    match EndAsWritten(table, t, i, i)
    case None => None
    case Some(j) => Some(Span(i, j - i))
  }

  lemma {:induction false} EndAsWrittenMatchesEnd(table: seq<EnumRow>, t: EnumType, i: nat, j: nat)
    requires i < |table| && i <= j <= |table|
    ensures EndAsWritten(table, t, i, j)
         == (if EndOfType(table, t, j) == |table| then None else Some(EndOfType(table, t, j)))
    decreases |table| - j
  {
    if j < |table| && table[j].kind == t {
      EndAsWrittenMatchesEnd(table, t, i, j + 1);
    }
  }

  /** The written lookup overruns the table exactly when the type is present
      and its run reaches the last row; otherwise it agrees with `TypeRun`. */
  lemma AsWrittenOverrunsIffRunAtEnd(table: seq<EnumRow>, t: EnumType)
    ensures GetEnumTableAsWritten(table, t).None?
        <==> (TypeRun(table, t).start < |table|
              && TypeRun(table, t).start + TypeRun(table, t).count == |table|)
    ensures GetEnumTableAsWritten(table, t).Some? ==> GetEnumTableAsWritten(table, t).value == TypeRun(table, t)
  {
    var i := FirstOfType(table, t, 0);
    if i < |table| {
      EndAsWrittenMatchesEnd(table, t, i, i);
    }
  }
}
