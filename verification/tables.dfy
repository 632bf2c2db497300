/** The constant tables as compiled for OpenCL 1.2: `enum_info_list`
    (LuaOpenCL.cpp:667-810) and `error_info_list` (LuaOpenCL.cpp:450-510).
    The numeric values are those of the Khronos OpenCL 1.2 headers
    (`CL/cl.h` is not part of this model); `int` constants are stored as
    their 32-bit patterns, so -1 is 0xFFFF_FFFF. Both tables are generated
    from their regular structure (runs of consecutive codes, single-bit flags) so that lookups in them stay arithmetic. */
module Tables {

  import opened Results
  import opened Bits
  import opened Bytes
  import opened Catalog
  import opened Codec
  import opened Errors
  import opened Decoders
  import opened Objects
  import opened Host
  import opened Context
  import opened Schema
  import opened Query

  // ---------------------------------------------------------------------
  // enum_info_list

  /** Position of a type in `enumTypes`, which is also the order of the
      blocks of `enum_info_list`. */
  function TypeOrdinal(t: EnumType): (o: nat)
    ensures o < NumEnumTypes
  {
    match t
    case DeviceType => 0 case DeviceFpConfig => 1 case DeviceMemCacheType => 2
    case DeviceLocalMemType => 3 case DeviceExecCapabilities => 4 case CommandQueueProperties => 5
    case ContextProperties => 6 case DevicePartitionProperty => 7 case DeviceAffinityDomain => 8
    case MemFlags => 9 case MemMigrationFlags => 10 case ChannelOrder => 11 case ChannelType => 12
    case MemObjectType => 13 case AddressingMode => 14 case FilterMode => 15 case MapFlags => 16
    case ProgramBinaryType => 17 case BuildStatus => 18 case KernelArgAddressQualifier => 19
    case KernelArgAccessQualifier => 20 case KernelArgTypeQualifier => 21 case CommandType => 22
    case CommandExecutionStatus => 23 case BufferCreateType => 24
  }

  const NumEnumTypes: nat := 25

  /** The type at a position of `enumTypes`. */
  function TypeAt(i: nat): (t: EnumType)
    requires i < NumEnumTypes
    ensures TypeOrdinal(t) == i
  {
    if i == 0 then DeviceType else if i == 1 then DeviceFpConfig else if i == 2 then DeviceMemCacheType
    else if i == 3 then DeviceLocalMemType else if i == 4 then DeviceExecCapabilities
    else if i == 5 then CommandQueueProperties else if i == 6 then ContextProperties
    else if i == 7 then DevicePartitionProperty else if i == 8 then DeviceAffinityDomain
    else if i == 9 then MemFlags else if i == 10 then MemMigrationFlags else if i == 11 then ChannelOrder
    else if i == 12 then ChannelType else if i == 13 then MemObjectType else if i == 14 then AddressingMode
    else if i == 15 then FilterMode else if i == 16 then MapFlags else if i == 17 then ProgramBinaryType
    else if i == 18 then BuildStatus else if i == 19 then KernelArgAddressQualifier
    else if i == 20 then KernelArgAccessQualifier else if i == 21 then KernelArgTypeQualifier
    else if i == 22 then CommandType else if i == 23 then CommandExecutionStatus else BufferCreateType
  }

  lemma TypeAtOrdinal(t: EnumType)
    ensures TypeAt(TypeOrdinal(t)) == t
  {
  }

  /** Rows of type `t` with the given values and names, in order. */
  function Block(t: EnumType, pairs: seq<(bv32, string)>): (rows: seq<EnumRow>)
    ensures |rows| == |pairs|
    ensures forall k :: 0 <= k < |rows| ==> rows[k] == EnumRow(t, pairs[k].0, pairs[k].1)
  {
    seq(|pairs|, k requires 0 <= k < |pairs| => EnumRow(t, pairs[k].0, pairs[k].1))
  }

  /** Names with consecutive values from `base`. */
  function Consecutive(base: bv32, names: seq<string>): (pairs: seq<(bv32, string)>)
    requires |names| < 32
    ensures |pairs| == |names|
  {
    seq(|names|, k requires 0 <= k < |names| => (base + (k as bv32), names[k]))
  }

  /** The values and names of `enum_info_list` of one type, in source order. */
  function Pairs(t: EnumType): (pairs: seq<(bv32, string)>)
    ensures |pairs| > 0
  {
    match t
    case DeviceType => DeviceTypePairs
    case DeviceFpConfig => FpConfigPairs
    case DeviceMemCacheType => Consecutive(0, ["none", "readonly_cache", "readwrite_cache"])
    case DeviceLocalMemType => Consecutive(1, ["local", "global"])
    case DeviceExecCapabilities => ExecCapabilitiesPairs
    case CommandQueueProperties => QueuePropertiesPairs
    case ContextProperties => Consecutive(0x1084, ["platform", "interop_user_sync"])
    case DevicePartitionProperty => PartitionPropertyPairs
    case DeviceAffinityDomain => AffinityDomainPairs
    case MemFlags => MemFlagsPairs
    case MemMigrationFlags => MigrationFlagsPairs
    case ChannelOrder => Consecutive(0x10B0, ChannelOrderNames)
    case ChannelType => Consecutive(0x10D0, ChannelTypeNames)
    case MemObjectType =>
      Consecutive(0x10F0, ["buffer", "image2d", "image3d", "image2d_array", "image1d", "image1d_array", "image1d_buffer"])
    case AddressingMode => Consecutive(0x1130, ["none", "clamp_to_edge", "clamp", "repeat", "mirrored_repeat"])
    case FilterMode => Consecutive(0x1140, ["nearest", "linear"])
    case MapFlags => MapFlagsPairs
    case ProgramBinaryType => BinaryTypePairs
    case BuildStatus => BuildStatusPairs
    case KernelArgAddressQualifier => Consecutive(0x119B, ["global", "local", "constant", "private"])
    case KernelArgAccessQualifier => Consecutive(0x11A0, ["read_only", "write_only", "read_write", "none"])
    case KernelArgTypeQualifier => TypeQualifierPairs
    case CommandType => Consecutive(0x11F0, CommandTypeNames)
    case CommandExecutionStatus => Consecutive(0, ["complete", "running", "submitted", "queued"])
    case BufferCreateType => BufferCreatePairs
  }

  /** The rows of `enum_info_list` of one type. */
  function Entries(t: EnumType): (rows: seq<EnumRow>)
    ensures |rows| > 0
    ensures forall k :: 0 <= k < |rows| ==> rows[k].kind == t
  {
    Block(t, Pairs(t))
  }

  /** The device types; "all" is -1. */
  const DeviceTypePairs: seq<(bv32, string)> :=
    [(1, "default"), (2, "cpu"), (4, "gpu"), (8, "accelerator"), (16, "custom"), (0xFFFF_FFFF, "all")]

  const ExecCapabilitiesPairs: seq<(bv32, string)> := [(1, "kernel"), (2, "native_kernel")]

  const QueuePropertiesPairs: seq<(bv32, string)> := [(1, "out_of_order_exec_mode_enable"), (2, "profiling_enable")]

  const PartitionPropertyPairs: seq<(bv32, string)> := [(0x1086, "equally"), (0x1087, "by_counts"), (0, "by_counts_list_end"), (0x1088, "by_affinity_domain")]

  const MigrationFlagsPairs: seq<(bv32, string)> := [(1, "host"), (2, "content_undefined")]

  const MapFlagsPairs: seq<(bv32, string)> := [(1, "read"), (2, "write"), (4, "write_invalidate_region")]

  const BinaryTypePairs: seq<(bv32, string)> := [(0, "none"), (1, "compiled_object"), (2, "library"), (4, "executable")]

  /** The build statuses 0, -1, -2 and -3. */
  const BuildStatusPairs: seq<(bv32, string)> := [(0, "success"), (0xFFFF_FFFF, "none"), (0xFFFF_FFFE, "error"), (0xFFFF_FFFD, "in_progress")]

  const TypeQualifierPairs: seq<(bv32, string)> := [(0, "type_none"), (1, "type_const"), (2, "type_restrict"), (4, "type_volatile")]

  const BufferCreatePairs: seq<(bv32, string)> := [(0x1220, "region")]

  const FpConfigPairs: seq<(bv32, string)> :=
    [(1, "denorm"), (2, "inf_nan"), (4, "round_to_nearest"), (8, "round_to_zero"), (16, "round_to_inf"),
     (32, "fma"), (64, "soft_float"), (128, "correctly_rounded_divide_sqrt")]

  const AffinityDomainPairs: seq<(bv32, string)> :=
    [(1, "numa"), (2, "l4_cache"), (4, "l3_cache"), (8, "l2_cache"), (16, "l1_cache"), (32, "next_partitionable")]

  const MemFlagsPairs: seq<(bv32, string)> :=
    [(1, "read_write"), (2, "write_only"), (4, "read_only"), (8, "use_host_ptr"), (16, "alloc_host_ptr"),
     (32, "copy_host_ptr"), (128, "host_write_only"), (256, "host_read_only"), (512, "host_no_access")]

  function DeviceTypes(): (rows: seq<EnumRow>)
  {
    Block(DeviceType, DeviceTypePairs)
  }

  function ChannelOrders(): (rows: seq<EnumRow>)
  {
    Block(ChannelOrder, Consecutive(0x10B0, ChannelOrderNames))
  }

  function ChannelTypes(): (rows: seq<EnumRow>)
  {
    Block(ChannelType, Consecutive(0x10D0, ChannelTypeNames))
  }

  const ChannelOrderNames: seq<string> :=
    ["r", "a", "rg", "ra", "rgb", "rgba", "bgra", "argb", "intensity", "luminance", "rx", "rgx", "rgbx"]

  const ChannelTypeNames: seq<string> :=
    ["snormint8", "snormint16", "unormint8", "unormint16", "unormshort_565", "unormshort_555",
     "unormint_101010", "signedint8", "signedint16", "signedint32", "unsignedint8", "unsignedint16",
     "unsignedint32", "halffloat", "float"]

  const CommandTypeNames: seq<string> :=
    ["ndrange_kernel", "task", "native_kernel", "read_buffer", "write_buffer", "copy_buffer", "read_image",
     "write_image", "copy_image", "copy_image_to_buffer", "copy_buffer_to_image", "map_buffer", "map_image",
     "unmap_mem_object", "marker", "acquire_gl_objects", "release_gl_objects", "read_buffer_rect",
     "write_buffer_rect", "copy_buffer_rect", "user", "barrier", "migrate_mem_objects", "fill_buffer", "fill_image"]

  /** Each type's rows are non-empty and all of that type. */
  predicate WellKinded(entries: EnumType -> seq<EnumRow>)
  {
    forall t :: |entries(t)| > 0 && forall k :: 0 <= k < |entries(t)| ==> entries(t)[k].kind == t
  }

  /** The blocks of the types at positions `lo` to `hi - 1`, in order. */
  function Blocks(entries: EnumType -> seq<EnumRow>, lo: nat, hi: nat): (rows: seq<EnumRow>)
    requires lo <= hi <= NumEnumTypes
    decreases hi - lo
  {
    if lo == hi then [] else entries(TypeAt(lo)) + Blocks(entries, lo + 1, hi)
  }

  /** `enum_info_list`. */
  const EnumCatalog: seq<EnumRow> := Blocks(Entries, 0, NumEnumTypes)

  /** Every row of a range of blocks has a type from that range. */
  lemma {:induction false} BlocksKinds(entries: EnumType -> seq<EnumRow>, lo: nat, hi: nat)
    requires WellKinded(entries)
    requires lo <= hi <= NumEnumTypes
    ensures forall k :: 0 <= k < |Blocks(entries, lo, hi)| ==> lo <= TypeOrdinal(Blocks(entries, lo, hi)[k].kind) < hi
    decreases hi - lo
  {
    if lo < hi {
      BlocksKinds(entries, lo + 1, hi);
      var head := entries(TypeAt(lo));
      var rows := Blocks(entries, lo, hi);
      forall k | 0 <= k < |rows|
        ensures lo <= TypeOrdinal(rows[k].kind) < hi
      {
        if k >= |head| {
          assert rows[k] == Blocks(entries, lo + 1, hi)[k - |head|];
        } else {
          assert rows[k] == head[k];
        }
      }
    }
  }

  lemma BlocksStep(entries: EnumType -> seq<EnumRow>, lo: nat, hi: nat)
    requires lo < hi <= NumEnumTypes
    ensures Blocks(entries, lo, hi) == entries(TypeAt(lo)) + Blocks(entries, lo + 1, hi)
  {
  }

  /** A range of blocks splits at any position. */
  lemma {:induction false} BlocksSplit(entries: EnumType -> seq<EnumRow>, lo: nat, m: nat, hi: nat)
    requires lo <= m <= hi <= NumEnumTypes
    ensures Blocks(entries, lo, hi) == Blocks(entries, lo, m) + Blocks(entries, m, hi)
    decreases m - lo
  {
    if lo < m {
      BlocksSplit(entries, lo + 1, m, hi);
    }
  }

  /** Blocks laid out one per type in declaration order: the run
      `getEnumTable` finds for any type is exactly that type's rows. */
  lemma RunOfBlocks(entries: EnumType -> seq<EnumRow>, t: EnumType)
    requires WellKinded(entries)
    ensures RunOf(Blocks(entries, 0, NumEnumTypes), t) == entries(t)
    ensures TypeRun(Blocks(entries, 0, NumEnumTypes), t)
         == Span(|Blocks(entries, 0, TypeOrdinal(t))|, |entries(t)|)
  {
    var o := TypeOrdinal(t);
    TypeAtOrdinal(t);
    var before := Blocks(entries, 0, o);
    var after := Blocks(entries, o + 1, NumEnumTypes);
    BlocksSplit(entries, 0, o, NumEnumTypes);
    BlocksStep(entries, o, NumEnumTypes);
    assert Blocks(entries, 0, NumEnumTypes) == before + entries(t) + after;
    BlocksKinds(entries, 0, o);
    BlocksKinds(entries, o + 1, NumEnumTypes);
    assert forall k :: 0 <= k < |before| ==> before[k].kind != t;
    assert forall k :: 0 <= k < |after| ==> after[k].kind != t;
    TypeRunOfLayout(before, entries(t), after, t);
  }

  /** The layout rule of `enum_info_list`: one contiguous block per type in
      declaration order, so every type's run is exactly its rows. */
  lemma RunIsBlock(t: EnumType)
    ensures RunOf(EnumCatalog, t) == Entries(t)
  {
    RunOfBlocks(Entries, t);
  }

  /** The blocks before, at and after a position. */
  lemma BlocksAround(entries: EnumType -> seq<EnumRow>, o: nat)
    requires o < NumEnumTypes
    ensures |Blocks(entries, 0, NumEnumTypes)|
         == |Blocks(entries, 0, o)| + |entries(TypeAt(o))| + |Blocks(entries, o + 1, NumEnumTypes)|
  {
    BlocksSplit(entries, 0, o, NumEnumTypes);
    BlocksStep(entries, o, NumEnumTypes);
  }

  /** Every block is non-empty, so a range of blocks is too. */
  lemma AfterNonEmpty(entries: EnumType -> seq<EnumRow>, lo: nat)
    requires WellKinded(entries)
    requires lo < NumEnumTypes
    ensures |Blocks(entries, lo, NumEnumTypes)| > 0
  {
    BlocksStep(entries, lo, NumEnumTypes);
    assert |entries(TypeAt(lo))| > 0;
  }

  /** In a layout of blocks, every type's run but the last one's is
      followed by another row, and the last one's ends the table. */
  lemma RunEnds(entries: EnumType -> seq<EnumRow>, t: EnumType)
    requires WellKinded(entries)
    ensures var table := Blocks(entries, 0, NumEnumTypes);
      TypeRun(table, t).start + TypeRun(table, t).count == |table| <==> TypeOrdinal(t) == NumEnumTypes - 1
    ensures TypeRun(Blocks(entries, 0, NumEnumTypes), t).count > 0
  {
    var o := TypeOrdinal(t);
    RunOfBlocks(entries, t);
    TypeAtOrdinal(t);
    BlocksAround(entries, o);
    if o + 1 < NumEnumTypes {
      AfterNonEmpty(entries, o + 1);
    }
  }

  /** In a layout of blocks, the written lookup agrees with the intended
      one for every type but the last, and overruns on the last. */
  lemma AsWrittenOnBlocks(entries: EnumType -> seq<EnumRow>, t: EnumType)
    requires WellKinded(entries)
    ensures var table := Blocks(entries, 0, NumEnumTypes);
      && (t != BufferCreateType ==> GetEnumTableAsWritten(table, t) == Some(TypeRun(table, t)))
      && (t == BufferCreateType ==> GetEnumTableAsWritten(table, t).None?)
  {
    RunEnds(entries, t);
    AsWrittenOverrunsIffRunAtEnd(Blocks(entries, 0, NumEnumTypes), t);
  }

  lemma EntriesWellKinded()
    ensures WellKinded(Entries)
  {
  }

  /** `getEnumTable` as written stops correctly for every type but the
      last: the run of every other type is followed by a row of another
      type. */
  lemma AsWrittenAgreesBeforeLast(t: EnumType)
    requires t != BufferCreateType
    ensures GetEnumTableAsWritten(EnumCatalog, t) == Some(TypeRun(EnumCatalog, t))
  {
    EntriesWellKinded();
    AsWrittenOnBlocks(Entries, t);
  }

  /** ... and for the last type, `BufferCreateType`, whose run ends the
      table, the written scan reads the row past its end. */
  lemma AsWrittenOverrunsOnLast()
    ensures GetEnumTableAsWritten(EnumCatalog, BufferCreateType).None?
  {
    EntriesWellKinded();
    AsWrittenOnBlocks(Entries, BufferCreateType);
  }

  // ---------------------------------------------------------------------
  // Image formats

  /** The blocks given their own names. */
  lemma NamedEntries()
    ensures Entries(DeviceType) == DeviceTypes()
    ensures Entries(ChannelOrder) == ChannelOrders()
    ensures Entries(ChannelType) == ChannelTypes()
  {
  }

  lemma ChannelOrderRun()
    ensures RunOf(EnumCatalog, ChannelOrder) == ChannelOrders()
  {
    RunIsBlock(ChannelOrder);
    NamedEntries();
  }

  lemma ChannelTypeRun()
    ensures RunOf(EnumCatalog, ChannelType) == ChannelTypes()
  {
    RunIsBlock(ChannelType);
    NamedEntries();
  }

  /** The rows `getEnumTable` finds for the channel orders and types. */
  lemma ChannelRuns()
    ensures ChannelLayout(EnumCatalog)
  {
    ChannelOrderRun();
    ChannelTypeRun();
  }

  /** Thirteen consecutive codes from 0x10B0, whatever their names. */
  lemma OrderCodes(names: seq<string>)
    requires |names| == 13
    ensures var rows := Block(ChannelOrder, Consecutive(0x10B0, names));
      && (forall k :: 0 <= k < 13 ==> 0x10B0 <= rows[k].value <= 0x10BC)
      && (forall k :: 0 <= k < 5 ==> rows[k].value != 0x10B5)
      && rows[5].value == 0x10B5
  {
    var rows := Block(ChannelOrder, Consecutive(0x10B0, names));
    forall k | 0 <= k < 13
      ensures rows[k].value == 0x10B0 + (k as bv32) && (k as bv32) < 13
    {
    }
  }

  /** Fifteen consecutive codes from 0x10D0, whatever their names. */
  lemma TypeCodes(names: seq<string>)
    requires |names| == 15
    ensures var rows := Block(ChannelType, Consecutive(0x10D0, names));
      && (forall k :: 0 <= k < 15 ==> 0x10D0 <= rows[k].value <= 0x10DE)
      && (forall k :: 0 <= k < 14 ==> rows[k].value != 0x10DE)
      && rows[14].value == 0x10DE
  {
    var rows := Block(ChannelType, Consecutive(0x10D0, names));
    forall k | 0 <= k < 15
      ensures rows[k].value == 0x10D0 + (k as bv32) && (k as bv32) < 15
    {
    }
  }

  lemma ChannelNames()
    ensures ChannelOrders()[5].name == "rgba"
    ensures ChannelTypes()[14].name == "float"
  {
  }

  /** The channel orders are the codes 0x10B0 to 0x10BC; 0x10B5 is "rgba". */
  lemma ChannelOrderRange()
    ensures forall k :: 0 <= k < 13 ==> 0x10B0 <= ChannelOrders()[k].value <= 0x10BC
    ensures forall k :: 0 <= k < 5 ==> ChannelOrders()[k].value != 0x10B5
    ensures ChannelOrders()[5] == EnumRow(ChannelOrder, 0x10B5, "rgba")
  {
    OrderCodes(ChannelOrderNames);
    ChannelNames();
  }

  /** The channel types are the codes 0x10D0 to 0x10DE; 0x10DE is "float". */
  lemma ChannelTypeRange()
    ensures forall k :: 0 <= k < 15 ==> 0x10D0 <= ChannelTypes()[k].value <= 0x10DE
    ensures forall k :: 0 <= k < 14 ==> ChannelTypes()[k].value != 0x10DE
    ensures ChannelTypes()[14] == EnumRow(ChannelType, 0x10DE, "float")
  {
    TypeCodes(ChannelTypeNames);
    ChannelNames();
  }

  /** A table whose channel runs are those of OpenCL 1.2. */
  predicate ChannelLayout(table: seq<EnumRow>)
  {
    RunOf(table, ChannelOrder) == ChannelOrders() && RunOf(table, ChannelType) == ChannelTypes()
  }

  lemma ChannelTypeIsNoOrderIn(table: seq<EnumRow>, dataType: bv32)
    requires ChannelLayout(table)
    requires DecodeEnum(table, ChannelType, dataType).Ok?
    ensures DecodeEnum(table, ChannelOrder, dataType) == Raised(UnknownEnumValue(Signed32(dataType)))
  {
    ChannelOrderRange();
    ChannelTypeRange();
  }

  /** No valid channel type is a channel order. */
  lemma ChannelTypeIsNoOrder(dataType: bv32)
    requires DecodeEnum(EnumCatalog, ChannelType, dataType).Ok?
    ensures DecodeEnum(EnumCatalog, ChannelOrder, dataType) == Raised(UnknownEnumValue(Signed32(dataType)))
  {
    ChannelRuns();
    ChannelTypeIsNoOrderIn(EnumCatalog, dataType);
  }

  lemma ImageFormatAsWrittenFailsIn(table: seq<EnumRow>, order: bv32, dataType: bv32)
    requires ChannelLayout(table)
    requires DecodeEnum(table, ChannelOrder, order).Ok?
    requires DecodeEnum(table, ChannelType, dataType).Ok?
    ensures DecodeImageFormatAsWritten(table, Bytes32(order) + Bytes32(dataType))
         == Raised(UnknownEnumValue(Signed32(dataType)))
    ensures Decode(table, ImageFormat, Bytes32(order) + Bytes32(dataType)).Ok?
  {
    ChannelTypeIsNoOrderIn(table, dataType);
    ImageFormatFields(table, order, dataType);
    ImageFormatAsWrittenFields(table, order, dataType);
  }

  /** The image format decoder as written fails on every image format
      whose order and data type are both valid, naming the data type as
      the unknown value; the corrected decoder succeeds on each of them. */
  lemma ImageFormatAsWrittenAlwaysFails(order: bv32, dataType: bv32)
    requires DecodeEnum(EnumCatalog, ChannelOrder, order).Ok?
    requires DecodeEnum(EnumCatalog, ChannelType, dataType).Ok?
    ensures DecodeImageFormatAsWritten(EnumCatalog, Bytes32(order) + Bytes32(dataType))
         == Raised(UnknownEnumValue(Signed32(dataType)))
    ensures Decode(EnumCatalog, ImageFormat, Bytes32(order) + Bytes32(dataType)).Ok?
  {
    ChannelRuns();
    ImageFormatAsWrittenFailsIn(EnumCatalog, order, dataType);
  }

  lemma RgbaFloatNames(table: seq<EnumRow>)
    requires ChannelLayout(table)
    ensures DecodeEnum(table, ChannelOrder, 0x10B5) == Ok("rgba")
    ensures DecodeEnum(table, ChannelType, 0x10DE) == Ok("float")
  {
    ChannelOrderRange();
    ChannelTypeRange();
  }

  lemma RgbaFloatIn(table: seq<EnumRow>)
    requires ChannelLayout(table)
    ensures Decode(table, ImageFormat, Bytes32(0x10B5) + Bytes32(0x10DE))
         == Ok(Decoded(RecordValue(map["order" := TextValue("rgba"), "data_type" := TextValue("float")]), []))
    ensures DecodeImageFormatAsWritten(table, Bytes32(0x10B5) + Bytes32(0x10DE))
         == Raised(UnknownEnumValue(0x10DE))
  {
    RgbaFloatNames(table);
    ImageFormatFields(table, 0x10B5, 0x10DE);
    ImageFormatAsWrittenFailsIn(table, 0x10B5, 0x10DE);
  }

  /** An RGBA float image: the corrected decoder reads it as such, the
      written one raises on its data type, 0x10DE. */
  lemma RgbaFloat()
    ensures Decode(EnumCatalog, ImageFormat, Bytes32(0x10B5) + Bytes32(0x10DE))
         == Ok(Decoded(RecordValue(map["order" := TextValue("rgba"), "data_type" := TextValue("float")]), []))
    ensures DecodeImageFormatAsWritten(EnumCatalog, Bytes32(0x10B5) + Bytes32(0x10DE))
         == Raised(UnknownEnumValue(0x10DE))
  {
    ChannelRuns();
    RgbaFloatIn(EnumCatalog);
  }

  // ---------------------------------------------------------------------
  // Partition properties

  /** A table whose partition-property run is that of OpenCL 1.2. */
  predicate PartitionLayout(table: seq<EnumRow>)
  {
    RunOf(table, DevicePartitionProperty) == Block(DevicePartitionProperty, PartitionPropertyPairs)
  }

  lemma PartitionRun()
    ensures PartitionLayout(EnumCatalog)
  {
    PartitionEntries();
    RunIsBlock(DevicePartitionProperty);
  }

  lemma PartitionEntries()
    ensures Entries(DevicePartitionProperty) == Block(DevicePartitionProperty, PartitionPropertyPairs)
  {
    assert Pairs(DevicePartitionProperty) == PartitionPropertyPairs;
  }

  /** The values 0x1086 ("equally") and 0 ("by_counts_list_end") each name
      one row of the run. */
  lemma PartitionNamesIn(table: seq<EnumRow>)
    requires PartitionLayout(table)
    ensures DecodeEnum(table, DevicePartitionProperty, 0x1086) == Ok("equally")
    ensures DecodeEnum(table, DevicePartitionProperty, 0) == Ok("by_counts_list_end")
  {
    var run := RunOf(table, DevicePartitionProperty);
    assert run[0] == EnumRow(DevicePartitionProperty, 0x1086, "equally");
    assert run[1].value == 0x1087;
    assert run[2] == EnumRow(DevicePartitionProperty, 0, "by_counts_list_end");
  }

  /** As written, the one property `CL_DEVICE_PARTITION_EQUALLY`, stored as
      an 8-byte `intptr_t`, comes back as two names: "equally" for its low
      half and "by_counts_list_end" for its zero high half. */
  lemma PartitionPropertyAsWrittenIn(table: seq<EnumRow>)
    requires PartitionLayout(table)
    ensures DecodeEnumArray(table, DevicePartitionProperty, Bytes64(Word64(0x1086, 0)))
         == Ok(["equally", "by_counts_list_end"])
  {
    PartitionNamesIn(table);
    PropertyReadAsTwoEnums(table, DevicePartitionProperty, Word64(0x1086, 0));
  }

  /** Read as `intptr_t` elements, the same buffer is the one property "equally". */
  lemma PartitionPropertyIntendedIn(table: seq<EnumRow>)
    requires PartitionLayout(table)
    ensures DecodePropertyArray(table, DevicePartitionProperty, Bytes64(Word64(0x1086, 0))) == Ok(["equally"])
  {
    PartitionNamesIn(table);
    assert SignExtend(0x1086) == Word64(0x1086, 0);
    PropertyReadAsOne(table, DevicePartitionProperty, Word64(0x1086, 0));
  }

  lemma PartitionPropertyAsWritten()
    ensures DecodeEnumArray(EnumCatalog, DevicePartitionProperty, Bytes64(Word64(0x1086, 0)))
         == Ok(["equally", "by_counts_list_end"])
  {
    PartitionRun();
    PartitionPropertyAsWrittenIn(EnumCatalog);
  }

  lemma PartitionPropertyIntended()
    ensures DecodePropertyArray(EnumCatalog, DevicePartitionProperty, Bytes64(Word64(0x1086, 0))) == Ok(["equally"])
  {
    PartitionRun();
    PartitionPropertyIntendedIn(EnumCatalog);
  }

  // ---------------------------------------------------------------------
  // Device types

  lemma AllIn(table: seq<EnumRow>)
    requires RunOf(table, DeviceType) == DeviceTypes()
    ensures GetEnumValue(table, DeviceType, "all") == Ok(0xFFFF_FFFF)
  {
    var run := RunOf(table, DeviceType);
    assert run[5].name == "all";
    assert forall j :: 0 <= j < 5 ==> run[j].name != "all";
  }

  /** "all" is stored as the `int` -1, so `cl.context("all")` asks for
      every bit of the 64-bit device type, while `platform:devices()`
      passes the 32-bit `CL_DEVICE_TYPE_ALL`. */
  lemma AllDeviceTypes()
    ensures GetEnumValue(EnumCatalog, DeviceType, "all") == Ok(0xFFFF_FFFF)
    ensures SignExtend(0xFFFF_FFFF) == AllOnes
    ensures AllOnes != DeviceTypeAll
  {
    RunIsBlock(DeviceType);
    NamedEntries();
    AllIn(EnumCatalog);
    MinusOneExtendsToAllOnes();
  }

  /** `cl.context("all")` requests a context of every device type. */
  lemma ContextOfAll(args: seq<LuaValue>)
    requires Arg(args, 1) == Str("all")
    requires Arg(args, 2).Nil? || Arg(args, 2).Table?
    ensures ContextRequest(EnumCatalog, args) == Ok(FromType(AllOnes))
  {
    AllDeviceTypes();
    CStringOfPlain("all");
    ContextFromType(EnumCatalog, args);
  }

  // ---------------------------------------------------------------------
  // Every type's run has distinct values and distinct names

  /** No value and no name occurs twice among `pairs`. */
  predicate DistinctPairs(pairs: seq<(bv32, string)>)
  {
    DistinctKeys(pairs) && DistinctLabels(pairs)
  }

  predicate DistinctKeys(pairs: seq<(bv32, string)>)
  {
    forall i, j :: 0 <= i < j < |pairs| ==> pairs[i].0 != pairs[j].0
  }

  predicate DistinctLabels(pairs: seq<(bv32, string)>)
  {
    forall i, j :: 0 <= i < j < |pairs| ==> pairs[i].1 != pairs[j].1
  }

  predicate DistinctStrings(names: seq<string>)
  {
    forall i, j :: 0 <= i < j < |names| ==> names[i] != names[j]
  }

  lemma BlockDistinct(t: EnumType, pairs: seq<(bv32, string)>)
    requires DistinctPairs(pairs)
    ensures DistinctValues(Block(t, pairs)) && DistinctNames(Block(t, pairs))
  {
  }

  lemma AddInjective(base: bv32, a: bv32, b: bv32)
    requires a != b
    ensures base + a != base + b
  {
  }

  /** Consecutive values never repeat, so distinct names make distinct pairs. */
  lemma ConsecutiveDistinct(base: bv32, names: seq<string>)
    requires |names| < 32
    requires DistinctStrings(names)
    ensures DistinctPairs(Consecutive(base, names))
  {
    var pairs := Consecutive(base, names);
    forall i, j | 0 <= i < j < |pairs| ensures pairs[i].0 != pairs[j].0 {
      IndexWordsDiffer(i, j);
      AddInjective(base, i as bv32, j as bv32);
    }
  }

  lemma CommandTypeNamesDistinct()
    ensures DistinctStrings(CommandTypeNames)
  {
  }

  lemma ChannelNamesDistinct()
    ensures DistinctStrings(ChannelOrderNames)
    ensures DistinctStrings(ChannelTypeNames)
  {
  }

  lemma ShortNamesDistinct()
    ensures DistinctStrings(["none", "readonly_cache", "readwrite_cache"])
    ensures DistinctStrings(["local", "global"])
    ensures DistinctStrings(["platform", "interop_user_sync"])
    ensures DistinctStrings(["buffer", "image2d", "image3d", "image2d_array", "image1d", "image1d_array", "image1d_buffer"])
    ensures DistinctStrings(["none", "clamp_to_edge", "clamp", "repeat", "mirrored_repeat"])
    ensures DistinctStrings(["nearest", "linear"])
  {
  }

  lemma QualifierNamesDistinct()
    ensures DistinctStrings(["global", "local", "constant", "private"])
    ensures DistinctStrings(["read_only", "write_only", "read_write", "none"])
    ensures DistinctStrings(["complete", "running", "submitted", "queued"])
  {
  }

  lemma DeviceTypePairsDistinct()
    ensures DistinctKeys(DeviceTypePairs) && DistinctLabels(DeviceTypePairs)
  {
  }

  lemma FpConfigPairsDistinct()
    ensures DistinctKeys(FpConfigPairs) && DistinctLabels(FpConfigPairs)
  {
    FpConfigKeysDistinct();
    FpConfigLabelsDistinct();
  }

  lemma FpConfigKeysDistinct()
    ensures DistinctKeys(FpConfigPairs)
  {
  }

  lemma FpConfigLabelsDistinct()
    ensures DistinctLabels(FpConfigPairs)
  {
  }

  lemma AffinityDomainPairsDistinct()
    ensures DistinctKeys(AffinityDomainPairs) && DistinctLabels(AffinityDomainPairs)
  {
  }

  lemma MemFlagsKeysDistinct()
    ensures DistinctKeys(MemFlagsPairs)
  {
  }

  lemma MemFlagsLabelsDistinct()
    ensures DistinctLabels(MemFlagsPairs)
  {
  }

  lemma ShortPairsDistinct()
    ensures DistinctPairs(ExecCapabilitiesPairs) && DistinctPairs(QueuePropertiesPairs)
    ensures DistinctPairs(MigrationFlagsPairs) && DistinctPairs(MapFlagsPairs)
    ensures DistinctPairs(BufferCreatePairs)
  {
  }

  lemma PropertyPairsDistinct()
    ensures DistinctPairs(PartitionPropertyPairs) && DistinctPairs(BinaryTypePairs)
  {
  }

  lemma StatusPairsDistinct()
    ensures DistinctPairs(BuildStatusPairs) && DistinctPairs(TypeQualifierPairs)
  {
  }

  /** Each type's pairs, as the source lists them, repeat no value and no name. */
  lemma PairsDistinct(t: EnumType)
    ensures DistinctPairs(Pairs(t))
  {
    match t
    case DeviceType => DeviceTypePairsDistinct();
    case DeviceFpConfig => FpConfigPairsDistinct();
    case DeviceMemCacheType => ShortNamesDistinct(); ConsecutiveDistinct(0, ["none", "readonly_cache", "readwrite_cache"]);
    case DeviceLocalMemType => ShortNamesDistinct(); ConsecutiveDistinct(1, ["local", "global"]);
    case DeviceExecCapabilities => ShortPairsDistinct();
    case CommandQueueProperties => ShortPairsDistinct();
    case ContextProperties => ShortNamesDistinct(); ConsecutiveDistinct(0x1084, ["platform", "interop_user_sync"]);
    case DevicePartitionProperty => PropertyPairsDistinct();
    case DeviceAffinityDomain => AffinityDomainPairsDistinct();
    case MemFlags => MemFlagsKeysDistinct(); MemFlagsLabelsDistinct();
    case MemMigrationFlags => ShortPairsDistinct();
    case ChannelOrder => ChannelNamesDistinct(); ConsecutiveDistinct(0x10B0, ChannelOrderNames);
    case ChannelType => ChannelNamesDistinct(); ConsecutiveDistinct(0x10D0, ChannelTypeNames);
    case MemObjectType =>
      ShortNamesDistinct();
      ConsecutiveDistinct(0x10F0, ["buffer", "image2d", "image3d", "image2d_array", "image1d", "image1d_array", "image1d_buffer"]);
    case AddressingMode =>
      ShortNamesDistinct(); ConsecutiveDistinct(0x1130, ["none", "clamp_to_edge", "clamp", "repeat", "mirrored_repeat"]);
    case FilterMode => ShortNamesDistinct(); ConsecutiveDistinct(0x1140, ["nearest", "linear"]);
    case MapFlags => ShortPairsDistinct();
    case ProgramBinaryType => PropertyPairsDistinct();
    case BuildStatus => StatusPairsDistinct();
    case KernelArgAddressQualifier =>
      QualifierNamesDistinct(); ConsecutiveDistinct(0x119B, ["global", "local", "constant", "private"]);
    case KernelArgAccessQualifier =>
      QualifierNamesDistinct(); ConsecutiveDistinct(0x11A0, ["read_only", "write_only", "read_write", "none"]);
    case KernelArgTypeQualifier => StatusPairsDistinct();
    case CommandType => CommandTypeNamesDistinct(); ConsecutiveDistinct(0x11F0, CommandTypeNames);
    case CommandExecutionStatus =>
      QualifierNamesDistinct(); ConsecutiveDistinct(0, ["complete", "running", "submitted", "queued"]);
    case BufferCreateType => ShortPairsDistinct();
  }

  /** In the catalog, no type's run repeats a value or a name. */
  lemma CatalogDistinct(t: EnumType)
    ensures DistinctValues(RunOf(EnumCatalog, t)) && DistinctNames(RunOf(EnumCatalog, t))
  {
    RunIsBlock(t);
    PairsDistinct(t);
    BlockDistinct(t, Pairs(t));
  }

  /** Every row of the catalog round-trips through `pushEnum` and
      `GetEnumValue`: its value decodes to its name and its name encodes to
      its value. */
  lemma CatalogRowRoundTrips(t: EnumType, k: nat)
    requires k < |RunOf(EnumCatalog, t)|
    ensures DecodeEnum(EnumCatalog, t, RunOf(EnumCatalog, t)[k].value) == Ok(RunOf(EnumCatalog, t)[k].name)
    ensures GetEnumValue(EnumCatalog, t, RunOf(EnumCatalog, t)[k].name) == Ok(RunOf(EnumCatalog, t)[k].value)
  {
    CatalogDistinct(t);
    RowRoundTrips(EnumCatalog, t, k);
  }

  /** Any name `GetEnumValue` accepts decodes back to itself, and any value
      `pushEnum` names encodes back to itself. */
  lemma CatalogRoundTrip(t: EnumType, name: string, val: bv32)
    ensures GetEnumValue(EnumCatalog, t, name).Ok? ==>
      DecodeEnum(EnumCatalog, t, GetEnumValue(EnumCatalog, t, name).value) == Ok(name)
    ensures DecodeEnum(EnumCatalog, t, val).Ok? ==>
      GetEnumValue(EnumCatalog, t, DecodeEnum(EnumCatalog, t, val).value) == Ok(val)
  {
    CatalogDistinct(t);
    if GetEnumValue(EnumCatalog, t, name).Ok? {
      EncodeThenDecode(EnumCatalog, t, name);
    }
    if DecodeEnum(EnumCatalog, t, val).Ok? {
      DecodeThenEncode(EnumCatalog, t, val);
    }
  }

  // ---------------------------------------------------------------------
  // error_info_list

  /** Rows with consecutive codes `base`, `base - 1`, ... */
  function Descending(base: int, messages: seq<string>): (rows: seq<ErrorRow>)
    ensures |rows| == |messages|
    ensures forall k :: 0 <= k < |rows| ==> rows[k] == ErrorRow(base - k, messages[k])
  {
    seq(|messages|, k requires 0 <= k < |messages| => ErrorRow(base - k, messages[k]))
  }

  /** Messages of the codes -1 to -19. */
  const RuntimeMessages: seq<string> := [
    "device not found", "device not available", "compiler not available",
    "mem object allocation failure", "out of resources", "out of host memory",
    "profiling info not available", "mem copy overlap", "image format mismatch",
    "image format not supported", "build program failure", "map failure",
    "misaligned sub buffer offset", "exec status error for events in wait list",
    "compile program failure", "linker not available", "link program failure",
    "device partition failed", "kernel arg info not available"]

  /** Messages of the codes -30 to -68. */
  const InvalidMessages: seq<string> := [
    "invalid value", "invalid device type", "invalid platform", "invalid device", "invalid context",
    "invalid queue properties", "invalid command queue", "invalid host ptr", "invalid mem object",
    "invalid image format descriptor", "invalid image size", "invalid sampler", "invalid binary",
    "invalid build options", "invalid program", "invalid program executable", "invalid kernel name",
    "invalid kernel definition", "invalid kernel", "invalid arg index", "invalid arg value",
    "invalid arg size", "invalid kernel args", "invalid work dimension", "invalid work group size",
    "invalid work item size", "invalid global offset", "invalid event wait list", "invalid event",
    "invalid operation", "invalid gl object", "invalid buffer size", "invalid mip level",
    "invalid global work size", "invalid property", "invalid image descriptor",
    "invalid compiler options", "invalid linker options", "invalid device partition count"]

  /** `error_info_list`. */
  const ErrorTable: seq<ErrorRow> := Descending(-1, RuntimeMessages) + Descending(-30, InvalidMessages)

  /** A table laid out as `error_info_list`: codes -1 to -19 with the
      messages `runtime`, then -30 to -68 with the messages `invalid`. */
  predicate ErrorLayout(table: seq<ErrorRow>, runtime: seq<string>, invalid: seq<string>)
  {
    && |runtime| == 19 && |invalid| == 39 && |table| == 58
    && (forall k :: 0 <= k < 19 ==> table[k] == ErrorRow(-1 - k, runtime[k]))
    && (forall k :: 19 <= k < 58 ==> table[k] == ErrorRow(-30 - (k - 19), invalid[k - 19]))
  }

  lemma DescendingLayout(runtime: seq<string>, invalid: seq<string>)
    requires |runtime| == 19 && |invalid| == 39
    ensures ErrorLayout(Descending(-1, runtime) + Descending(-30, invalid), runtime, invalid)
  {
  }

  lemma ErrorTableLayout()
    ensures ErrorLayout(ErrorTable, RuntimeMessages, InvalidMessages)
  {
    DescendingLayout(RuntimeMessages, InvalidMessages);
  }

  lemma ErrorMessagesIn(table: seq<ErrorRow>, runtime: seq<string>, invalid: seq<string>, code: int)
    requires ErrorLayout(table, runtime, invalid)
    ensures Known(table, code) <==> -19 <= code <= -1 || -68 <= code <= -30
    ensures -19 <= code <= -1 ==> Translate(table, code) == runtime[-1 - code]
    ensures -68 <= code <= -30 ==> Translate(table, code) == invalid[-30 - code]
    ensures !Known(table, code) ==> Translate(table, code) == UnknownError
  {
    if -19 <= code <= -1 {
      TranslateAt(table, code, -1 - code);
    } else if -68 <= code <= -30 {
      TranslateAt(table, code, 19 + (-30 - code));
    }
  }

  /** The table knows exactly the codes -1 to -19 and -30 to -68, each with
      its own message; every other failure code reads "unknown error". */
  lemma ErrorTableMessages(code: int)
    ensures Known(ErrorTable, code) <==> -19 <= code <= -1 || -68 <= code <= -30
    ensures -19 <= code <= -1 ==> Translate(ErrorTable, code) == RuntimeMessages[-1 - code]
    ensures -68 <= code <= -30 ==> Translate(ErrorTable, code) == InvalidMessages[-30 - code]
    ensures !Known(ErrorTable, code) ==> Translate(ErrorTable, code) == UnknownError
  {
    ErrorTableLayout();
    ErrorMessagesIn(ErrorTable, RuntimeMessages, InvalidMessages, code);
  }

  lemma ExamplesIn(table: seq<ErrorRow>, runtime: seq<string>, invalid: seq<string>)
    requires ErrorLayout(table, runtime, invalid)
    ensures ErrorCheck(table, -30) == Raised(OpenCLError("OpenCL: " + invalid[0]))
    ensures ErrorCheck(table, -20) == Raised(OpenCLError("OpenCL: " + UnknownError))
    ensures ErrorCheck(table, Success) == Ok(())
  {
    ErrorMessagesIn(table, runtime, invalid, -30);
    ErrorMessagesIn(table, runtime, invalid, -20);
  }

  /** `CL_INVALID_VALUE` raises "OpenCL: invalid value"; -20, between the
      two ranges, raises "OpenCL: unknown error"; success raises nothing. */
  lemma ErrorExamples()
    ensures ErrorCheck(ErrorTable, -30) == Raised(OpenCLError("OpenCL: invalid value"))
    ensures ErrorCheck(ErrorTable, -20) == Raised(OpenCLError("OpenCL: unknown error"))
    ensures ErrorCheck(ErrorTable, Success) == Ok(())
  {
    ErrorTableLayout();
    ExamplesIn(ErrorTable, RuntimeMessages, InvalidMessages);
    ExampleMessages();
  }

  lemma ExampleMessages()
    ensures "OpenCL: " + InvalidMessages[0] == "OpenCL: invalid value"
    ensures "OpenCL: " + UnknownError == "OpenCL: unknown error"
  {
    assert InvalidMessages[0] == "invalid value";
  }

  // ---------------------------------------------------------------------
  // info_list

  /** `CL_DRIVER_VERSION`, `CL_DEVICE_PROFILE` and `CL_DEVICE_VERSION`, three
      consecutive device rows, the first and last both named "version". */
  const VersionRows: seq<InfoRow> := [
    InfoRow(0x102D, "version", Text), InfoRow(0x102E, "profile", Text), InfoRow(0x102F, "version", Text)]

  /** A device's info table shows the device version under "version": the
      driver version is stored first and then overwritten. */
  lemma DeviceVersionWins(step: Step, callsOf: CallsOf)
    requires Fetch(VersionRows, step, callsOf).result.Ok?
    ensures Fetch(VersionRows, step, callsOf).result.value.Keys == {"version", "profile"}
    ensures Fetch(VersionRows, step, callsOf).result.value["version"] == step(VersionRows[2]).value.value
  {
    FetchKeys(VersionRows, step, callsOf);
    FetchLaterRowWins(VersionRows, step, callsOf, 2);
    var names := set k | 0 <= k < |VersionRows| :: VersionRows[k].name;
    assert VersionRows[0].name in names && VersionRows[1].name in names;
    assert names == {"version", "profile"};
  }
}
