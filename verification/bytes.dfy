/** Raw buffers as the native query functions fill them, and the
    reinterpretations the decoders apply to them (`*(const T*)ptr`).
    The host is modelled as a little-endian machine with 64-bit pointers
    and 64-bit `size_t`. */
module Bytes {

  import opened Bits

  type Byte = bv8

  /** Byte widths of the native types the decoders read. */
  const UIntWidth: nat := 4      // cl_uint, cl_int, cl_bool
  const ULongWidth: nat := 8     // cl_ulong, cl_bitfield
  const SizeWidth: nat := 8      // size_t
  const PointerWidth: nat := 8   // void*, handles, intptr_t

  const Two32: nat := 0x1_0000_0000
  const Two64: nat := 0x1_0000_0000_0000_0000

  /** The 32-bit word stored little-endian in the first four bytes. */
  function Word32(bs: seq<Byte>): bv32
    requires |bs| >= 4
  {
    (bs[0] as bv32) | ((bs[1] as bv32) << 8) | ((bs[2] as bv32) << 16) | ((bs[3] as bv32) << 24)
  }

  /** The 64-bit word stored little-endian in the first eight bytes. */
  function Word64Of(bs: seq<Byte>): Word64
    requires |bs| >= 8
  {
    Word64(Word32(bs[..4]), Word32(bs[4..8]))
  }

  /** The four bytes that store `x`. */
  function Bytes32(x: bv32): (bs: seq<Byte>)
    ensures |bs| == 4
  {
    [(x & 0xFF) as bv8, ((x >> 8) & 0xFF) as bv8, ((x >> 16) & 0xFF) as bv8, ((x >> 24) & 0xFF) as bv8]
  }

  /** The eight bytes that store `w`. */
  function Bytes64(w: Word64): (bs: seq<Byte>)
    ensures |bs| == 8
  {
    Bytes32(w.low) + Bytes32(w.high)
  }

  lemma Word32OfBytes32(x: bv32)
    ensures Word32(Bytes32(x)) == x
  {
  }

  lemma Bytes32OfWord32(bs: seq<Byte>)
    requires |bs| == 4
    ensures Bytes32(Word32(bs)) == bs
  {
  }

  lemma Word64OfBytes64(w: Word64)
    ensures Word64Of(Bytes64(w)) == w
  {
    var bs := Bytes64(w);
    assert bs[..4] == Bytes32(w.low);
    assert bs[4..8] == Bytes32(w.high);
    Word32OfBytes32(w.low);
    Word32OfBytes32(w.high);
  }

  lemma Bytes64OfWord64(bs: seq<Byte>)
    requires |bs| == 8
    ensures Bytes64(Word64Of(bs)) == bs
  {
    Bytes32OfWord32(bs[..4]);
    Bytes32OfWord32(bs[4..8]);
    assert bs == bs[..4] + bs[4..8];
  }

  /** Two's-complement reading of a 32-bit word (`cl_int`, or a `%d` format). */
  function Signed32(x: bv32): (r: int)
    ensures -0x8000_0000 <= r < 0x8000_0000
    ensures (r - x as int) % Two32 == 0
  {
    if x as int < 0x8000_0000 then x as int else x as int - Two32
  }

  /** Two's-complement reading of a 64-bit word (`intptr_t`). */
  function Signed64(w: Word64): (r: int)
    ensures -0x8000_0000_0000_0000 <= r < 0x8000_0000_0000_0000
    ensures (r - Value(w)) % Two64 == 0
  {
    if Value(w) < 0x8000_0000_0000_0000 then Value(w) else Value(w) - Two64
  }

  /** The buffer a decoder sees after the fill call: exactly `size` bytes,
      the first ones written by the native call. Bytes the call did not
      write are indeterminate in C; the model reads them as zero. */
  function Fit(written: seq<Byte>, size: nat): (buf: seq<Byte>)
    ensures |buf| == size
    ensures forall k :: 0 <= k < size && k < |written| ==> buf[k] == written[k]
  {
    if size <= |written| then written[..size]
    else written + seq(size - |written|, _ => 0)
  }

  /** The `k`-th `width`-byte element of an array buffer. */
  function Element(buf: seq<Byte>, k: nat, width: nat): (e: seq<Byte>)
    requires (k + 1) * width <= |buf|
    ensures |e| == width
  {
    buf[k * width .. k * width + width]
  }

  /** Bytes before the first NUL, read as characters (`lua_pushstring` on a
      C string); a buffer without a NUL is read to its end. */
  function CString(buf: seq<Byte>): (s: string)
    ensures |s| <= |buf|
    ensures forall k :: 0 <= k < |s| ==> buf[k] != 0 && s[k] == (buf[k] as int) as char
    ensures |s| < |buf| ==> buf[|s|] == 0
  {
    if |buf| == 0 || buf[0] == 0 then "" else [(buf[0] as int) as char] + CString(buf[1..])
  }

  /** The bytes of a string of 8-bit characters followed by its terminator. */
  function Terminated(s: string): (buf: seq<Byte>)
    requires forall k :: 0 <= k < |s| ==> 0 < s[k] as int < 256
    ensures |buf| == |s| + 1
  {
    if |s| == 0 then [0] else [(s[0] as int) as bv8] + Terminated(s[1..])
  }

  /** A NUL-terminated string reads back as itself, whatever follows it. */
  lemma {:induction false} CStringOfTerminated(s: string, rest: seq<Byte>)
    requires forall k :: 0 <= k < |s| ==> 0 < s[k] as int < 256
    ensures CString(Terminated(s) + rest) == s
  {
    if |s| > 0 {
      var buf := Terminated(s) + rest;
      assert buf[1..] == Terminated(s[1..]) + rest;
      CStringOfTerminated(s[1..], rest);
      ByteOfChar(s[0]);
      assert buf[0] == (s[0] as int) as bv8;
      assert CString(buf) == [s[0]] + CString(buf[1..]);
    }
  }

  /** A character below 256 survives the trip through a byte. */
  lemma ByteOfChar(c: char)
    requires 0 < c as int < 256
    ensures (c as int) as bv8 != 0
    ensures (((c as int) as bv8) as int) as char == c
  {
    ByteRoundTrip(c as int);
  }

  /** A number below 256 survives the trip through a byte. */
  lemma ByteRoundTrip(i: int)
    requires 0 <= i < 256
    ensures (i as bv8) as int == i
    ensures i != 0 ==> i as bv8 != 0
  {
    var b := ByteCount(i);
    assert (b as int) as bv8 == b;
  }

  /** The byte holding `i`, counted up from zero. Building it this way
      keeps the solver away from a direct integer-to-vector conversion. */
  function ByteCount(i: int): (b: Byte)
    requires 0 <= i < 256
    ensures b as int == i
  {
    if i == 0 then 0 else ByteSucc(ByteCount(i - 1)); ByteCount(i - 1) + 1
  }

  lemma ByteSucc(x: Byte)
    requires x as int < 255
    ensures (x + 1) as int == x as int + 1
  {
  }
}
