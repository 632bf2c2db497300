/** The `push*` decoders an `info_list` row names: each turns the buffer a
    query filled into the Lua value stored under the row's name
    (LuaOpenCL.cpp:63-102, 180-196, 346-351). Decoded values are given as
    `InfoValue`s; the handles a decoder wraps are listed, in order, so
    that the caller can account for their retains. */
module Decoders {

  import opened Results
  import opened Bits
  import opened Bytes
  import opened Catalog
  import opened Codec
  import opened Objects

  /** The C scalar types the generic `push<T>` converts to a number. */
  datatype NumberKind =
    | UInt32    // cl_uint (and cl_command_type)
    | Int32     // cl_int
    | UInt64    // cl_ulong, size_t
    | Int64     // intptr_t (cl_context_properties)

  function Width(k: NumberKind): nat
  {
    match k
    case UInt32 => UIntWidth
    case Int32 => UIntWidth
    case UInt64 => ULongWidth
    case Int64 => PointerWidth
  }

  /** Which decoder a row uses. */
  datatype Decoder =
      /** `push<T>` for a scalar: asserts the size, pushes a number */
    | Number(kind: NumberKind)
      /** `push<bool>`: a cl_bool, true when non-zero */
    | Boolean
      /** `push<char[]>` */
    | Text
      /** `push<void*>` and the handles pushed as light userdata */
    | Opaque
      /** `push<cl_platform_id>` and `push<cl_device_id>`: a new wrapper */
    | NewObject(objectClass: ClassKind)
      /** `pushArray<T>` of numbers */
    | NumberArray(kind: NumberKind)
      /** `pushArray<cl_device_id>` */
    | DeviceArray
    | Enum(t: EnumType)
    | BitField(t: EnumType)
      /** `pushEnumArray<type>` as written: cl_uint elements */
    | EnumArray(t: EnumType)
      /** `pushEnumArray<EBT_DEVICE_PARTITION_PROPERTY>` as intended:
          `intptr_t` elements */
    | PropertyArray(t: EnumType)
      /** `push<cl_image_format>` */
    | ImageFormat
      /** `pushBinaries` */
    | Binaries

  /** A decoded value as Lua receives it. A list stands for a table with
      keys 1..n; a record for a table with string keys. */
  datatype InfoValue =
    | NumberValue(n: int)
    | BooleanValue(b: bool)
    | TextValue(s: string)
    | PointerValue(p: nat)
    | ObjectValue(h: Handle)
    | ListValue(items: seq<InfoValue>)
    | RecordValue(fields: map<string, InfoValue>)

  /** A decoded value together with the handles wrapped to build it. */
  datatype Decoded = Decoded(value: InfoValue, wrapped: seq<Handle>)

  /** The number a scalar of kind `k` stored in `bs` stands for. */
  function NumberOf(k: NumberKind, bs: seq<Byte>): int
    requires |bs| >= Width(k)
  {
    match k
    case UInt32 => Word32(bs) as int
    case Int32 => Signed32(Word32(bs))
    case UInt64 => Value(Word64Of(bs))
    case Int64 => Signed64(Word64Of(bs))
  }

  /** `push<T>`: the assertion `size == sizeof(T)` fails on any other size. */
  function DecodeNumber(k: NumberKind, buf: seq<Byte>): (r: Result<Decoded>)
    ensures r.Ok? <==> |buf| == Width(k)
    ensures r.Raised? ==> r.failure == SizeAssertion(Width(k), |buf|)
    ensures r.Ok? && k == UInt32 ==>
      exists x: bv32 :: buf == Bytes32(x) && r.value == Decoded(NumberValue(x as int), [])
    ensures r.Ok? && k == Int32 ==>
      exists x: bv32 :: buf == Bytes32(x) && r.value == Decoded(NumberValue(Signed32(x)), [])
    ensures r.Ok? && k == UInt64 ==>
      exists w: Word64 :: buf == Bytes64(w) && r.value == Decoded(NumberValue(Value(w)), [])
    ensures r.Ok? && k == Int64 ==>
      exists w: Word64 :: buf == Bytes64(w) && r.value == Decoded(NumberValue(Signed64(w)), [])
  {
    if |buf| != Width(k) then Raised(SizeAssertion(Width(k), |buf|))
    else
      NumberEncoded(k, buf);
      Ok(Decoded(NumberValue(NumberOf(k, buf)), []))
  }

  /** The bytes of a scalar are the encoding of the word `NumberOf` reads. */
  lemma NumberEncoded(k: NumberKind, buf: seq<Byte>)
    requires |buf| == Width(k)
    ensures Width(k) == 4 ==> buf == Bytes32(Word32(buf))
    ensures Width(k) == 8 ==> buf == Bytes64(Word64Of(buf))
  {
    if Width(k) == 4 {
      Bytes32OfWord32(buf);
    } else {
      Bytes64OfWord64(buf);
    }
  }

  /** Decoders that read a fixed number of bytes without checking the size
      reach past a shorter buffer; the model raises instead. */
  function Need(width: nat, buf: seq<Byte>): (r: Result<()>)
    ensures r.Ok? <==> |buf| >= width
  {
    if |buf| >= width then Ok(()) else Raised(ShortBuffer(width, |buf|))
  }

  /** The elements of a `pushArray<T>` of numbers: `size / sizeof(T)`
      elements, each through the generic `push<T>`. */
  function NumberElements(k: NumberKind, buf: seq<Byte>, n: nat): (items: seq<InfoValue>)
    requires n * Width(k) <= |buf|
    ensures |items| == n
    ensures forall i :: 0 <= i < n ==> items[i] == NumberValue(NumberOf(k, Element(buf, i, Width(k))))
  {
    if n == 0 then []
    else NumberElements(k, buf, n - 1) + [NumberValue(NumberOf(k, Element(buf, n - 1, Width(k))))]
  }

  /** The handle a pointer-sized word names. */
  function HandleAt(kind: ClassKind, bs: seq<Byte>): Handle
    requires |bs| >= PointerWidth
  {
    Handle(kind, Value(Word64Of(bs)))
  }

  /** The handles of a `pushArray<cl_device_id>`, in order. */
  function DeviceElements(buf: seq<Byte>, n: nat): (hs: seq<Handle>)
    requires n * PointerWidth <= |buf|
    ensures |hs| == n
    ensures forall i :: 0 <= i < n ==> hs[i] == HandleAt(DeviceClass, Element(buf, i, PointerWidth))
  {
    if n == 0 then []
    else DeviceElements(buf, n - 1) + [HandleAt(DeviceClass, Element(buf, n - 1, PointerWidth))]
  }

  function ObjectValues(hs: seq<Handle>): (vs: seq<InfoValue>)
    ensures |vs| == |hs|
    ensures forall i :: 0 <= i < |hs| ==> vs[i] == ObjectValue(hs[i])
  {
    seq(|hs|, i requires 0 <= i < |hs| => ObjectValue(hs[i]))
  }

  /** `push<cl_image_format>` with each field decoded through its own
      enumeration type. */
  function DecodeImageFormat(table: seq<EnumRow>, buf: seq<Byte>): (r: Result<Decoded>)
    requires |buf| >= 2 * UIntWidth
  {
    var order :- DecodeEnum(table, ChannelOrder, Word32(buf[..4]));
    var dataType :- DecodeEnum(table, ChannelType, Word32(buf[4..8]));
    Ok(Decoded(RecordValue(map["order" := TextValue(order), "data_type" := TextValue(dataType)]), []))
  }

  /** `push<cl_image_format>` as written: `data_type` is looked up among
      the channel orders. */
  function DecodeImageFormatAsWritten(table: seq<EnumRow>, buf: seq<Byte>): (r: Result<Decoded>)
    requires |buf| >= 2 * UIntWidth
  {
    var order :- DecodeEnum(table, ChannelOrder, Word32(buf[..4]));
    var dataType :- DecodeEnum(table, ChannelOrder, Word32(buf[4..8]));
    Ok(Decoded(RecordValue(map["order" := TextValue(order), "data_type" := TextValue(dataType)]), []))
  }

  /** The row's decoder applied to the filled buffer. */
  function Decode(table: seq<EnumRow>, d: Decoder, buf: seq<Byte>): (r: Result<Decoded>)
  {
    match d
    case Number(k) => DecodeNumber(k, buf)
    case Boolean =>
      var _ :- Need(UIntWidth, buf);
      Ok(Decoded(BooleanValue(Word32(buf) != 0), []))
    case Text => Ok(Decoded(TextValue(CString(buf)), []))
    case Opaque =>
      var _ :- Need(PointerWidth, buf);
      Ok(Decoded(PointerValue(Value(Word64Of(buf))), []))
    case NewObject(c) =>
      var _ :- Need(PointerWidth, buf);
      var h := HandleAt(c, buf);
      Ok(Decoded(ObjectValue(h), [h]))
    case NumberArray(k) =>
      Ok(Decoded(ListValue(NumberElements(k, buf, |buf| / Width(k))), []))
    case DeviceArray =>
      var hs := DeviceElements(buf, |buf| / PointerWidth);
      Ok(Decoded(ListValue(ObjectValues(hs)), hs))
    case Enum(t) =>
      var _ :- Need(UIntWidth, buf);
      var name :- DecodeEnum(table, t, Word32(buf));
      Ok(Decoded(TextValue(name), []))
    case BitField(t) =>
      var _ :- Need(ULongWidth, buf);
      Ok(Decoded(TextValue(BitFieldText(table, t, Word64Of(buf))), []))
    case EnumArray(t) =>
      var names :- DecodeEnumArray(table, t, buf);
      Ok(Decoded(ListValue(seq(|names|, i requires 0 <= i < |names| => TextValue(names[i]))), []))
    case PropertyArray(t) =>
      var names :- DecodePropertyArray(table, t, buf);
      Ok(Decoded(ListValue(seq(|names|, i requires 0 <= i < |names| => TextValue(names[i]))), []))
    case ImageFormat =>
      var _ :- Need(2 * UIntWidth, buf);
      DecodeImageFormat(table, buf)
    case Binaries =>
      // luaL_checktype(L, -1, LUA_TTABLE) sees the fill buffer, a userdata
      Raised(BadArgument(-1, "table", "userdata"))
  }

  // ---------------------------------------------------------------------
  // Properties of the decoders

  /** A 32-bit scalar written by the native call reads back as its value. */
  lemma DecodeWord32(x: bv32)
    ensures Decode([], Number(UInt32), Bytes32(x)) == Ok(Decoded(NumberValue(x as int), []))
    ensures Decode([], Number(Int32), Bytes32(x)) == Ok(Decoded(NumberValue(Signed32(x)), []))
  {
    Word32OfBytes32(x);
  }

  /** A 64-bit scalar reads back as its value. */
  lemma DecodeWord64(w: Word64)
    ensures Decode([], Number(UInt64), Bytes64(w)) == Ok(Decoded(NumberValue(Value(w)), []))
    ensures Decode([], Number(Int64), Bytes64(w)) == Ok(Decoded(NumberValue(Signed64(w)), []))
  {
    Word64OfBytes64(w);
  }

  /** A NUL-terminated string reads back as itself, whatever the buffer
      holds after the terminator. */
  lemma DecodeText(s: string, rest: seq<Byte>)
    requires forall k :: 0 <= k < |s| ==> 0 < s[k] as int < 256
    ensures Decode([], Text, Terminated(s) + rest) == Ok(Decoded(TextValue(s), []))
  {
    var buf := Terminated(s) + rest;
    CStringOfTerminated(s, rest);
    assert Decode([], Text, buf) == Ok(Decoded(TextValue(CString(buf)), []));
  }

  /** A cl_bool is true exactly when its word is non-zero. */
  lemma DecodeBoolean(x: bv32, rest: seq<Byte>)
    ensures Decode([], Boolean, Bytes32(x) + rest) == Ok(Decoded(BooleanValue(x != 0), []))
  {
    var buf := Bytes32(x) + rest;
    assert buf[..4] == Bytes32(x);
    Word32OfBytes32(x);
    assert Word32(buf) == Word32(buf[..4]);
  }

  /** A handle decoder wraps the one handle it returns. */
  lemma DecodeObject(c: ClassKind, buf: seq<Byte>)
    ensures Decode([], NewObject(c), buf).Ok? <==> |buf| >= PointerWidth
    ensures |buf| >= PointerWidth ==>
      var h := Handle(c, Value(Word64Of(buf)));
      Decode([], NewObject(c), buf) == Ok(Decoded(ObjectValue(h), [h]))
  {
  }

  /** Trailing bytes that do not fill an element are ignored:
      `size / sizeof(T)` elements are decoded. */
  lemma NumberArrayIgnoresTail(k: NumberKind, buf: seq<Byte>, tail: seq<Byte>)
    requires |buf| % Width(k) == 0 && |tail| < Width(k)
    ensures Decode([], NumberArray(k), buf + tail) == Decode([], NumberArray(k), buf)
  {
    var w := Width(k);
    var n := |buf| / w;
    assert |buf| == n * w;
    DivOfPaddedMultiple(n, w, |tail|);
    var a := NumberElements(k, buf + tail, n);
    var b := NumberElements(k, buf, n);
    forall i | 0 <= i < n
      ensures a[i] == b[i]
    {
      ElementOfPrefix(buf, tail, i, n, w);
    }
    assert a == b;
  }

  /** An element inside the first `n` of `buf` is unaffected by bytes
      appended after them. */
  lemma ElementOfPrefix(buf: seq<Byte>, tail: seq<Byte>, i: nat, n: nat, w: nat)
    requires i < n && n * w <= |buf|
    ensures (i + 1) * w <= |buf|
    ensures Element(buf + tail, i, w) == Element(buf, i, w)
  {
    assert (i + 1) * w <= n * w by {
      assert (n - (i + 1)) * w >= 0;
    }
  }

  lemma DivOfPaddedMultiple(n: nat, w: nat, r: nat)
    requires w == 4 || w == 8
    requires r < w
    ensures (n * w + r) / w == n
  {
    if w == 4 {
      assert (n * 4 + r) / 4 == n;
    } else {
      assert (n * 8 + r) / 8 == n;
    }
  }

  /** A device array lists one wrapper per element and wraps exactly the
      handles it lists, in order. */
  lemma DeviceArrayWrapsListed(buf: seq<Byte>)
    ensures Decode([], DeviceArray, buf).Ok?
    ensures var d := Decode([], DeviceArray, buf).value;
      && |d.wrapped| == |buf| / PointerWidth
      && d.value == ListValue(ObjectValues(d.wrapped))
  {
  }

  /** Only the handle decoders wrap anything. */
  lemma OnlyHandleDecodersWrap(table: seq<EnumRow>, d: Decoder, buf: seq<Byte>)
    requires Decode(table, d, buf).Ok?
    requires !d.NewObject? && !d.DeviceArray?
    ensures Decode(table, d, buf).value.wrapped == []
  {
  }

  /** The image format record: the channel order decoded as a channel
      order and the data type as a channel type; the first unknown field
      raises. */
  lemma ImageFormatFields(table: seq<EnumRow>, order: bv32, dataType: bv32)
    ensures var r := Decode(table, ImageFormat, Bytes32(order) + Bytes32(dataType));
      && (r.Ok? <==> DecodeEnum(table, ChannelOrder, order).Ok? && DecodeEnum(table, ChannelType, dataType).Ok?)
      && (r.Ok? ==> r.value.value == RecordValue(map[
            "order" := TextValue(DecodeEnum(table, ChannelOrder, order).value),
            "data_type" := TextValue(DecodeEnum(table, ChannelType, dataType).value)]))
      && (r.Ok? ==> r.value.wrapped == [])
      && (DecodeEnum(table, ChannelOrder, order).Raised? ==> r == Raised(DecodeEnum(table, ChannelOrder, order).failure))
  {
    var buf := Bytes32(order) + Bytes32(dataType);
    assert buf[..4] == Bytes32(order);
    assert buf[4..8] == Bytes32(dataType);
    Word32OfBytes32(order);
    Word32OfBytes32(dataType);
  }

  /** The written decoder looks the data type up among the channel orders:
      it agrees with the intended one only when the channel-type and
      channel-order lookups agree on the data type. */
  lemma ImageFormatAsWrittenFields(table: seq<EnumRow>, order: bv32, dataType: bv32)
    ensures var r := DecodeImageFormatAsWritten(table, Bytes32(order) + Bytes32(dataType));
      && (r.Ok? <==> DecodeEnum(table, ChannelOrder, order).Ok? && DecodeEnum(table, ChannelOrder, dataType).Ok?)
      && (r.Ok? ==> r.value.value == RecordValue(map[
            "order" := TextValue(DecodeEnum(table, ChannelOrder, order).value),
            "data_type" := TextValue(DecodeEnum(table, ChannelOrder, dataType).value)]))
      && (DecodeEnum(table, ChannelOrder, order).Ok? && DecodeEnum(table, ChannelOrder, dataType).Raised?
          ==> r == Raised(DecodeEnum(table, ChannelOrder, dataType).failure))
  {
    var buf := Bytes32(order) + Bytes32(dataType);
    assert buf[..4] == Bytes32(order);
    assert buf[4..8] == Bytes32(dataType);
    Word32OfBytes32(order);
    Word32OfBytes32(dataType);
  }
}
