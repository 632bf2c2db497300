/** The enumeration and bitfield codec over one type's run of the catalog:
    `pushEnum` (LuaOpenCL.cpp:144-158), `pushBitField` (160-178),
    `GetEnumValue` (198-207) and `pushEnumArray` (75-85). */
module Codec {

  import opened Results
  import opened Bytes
  import opened Text
  import opened Catalog
  import opened Bits

  /** The row value as `pushBitField` masks with it: `val & ptable[i].value`
      with `val` a 64-bit cl_bitfield sign-extends the `int`. */
  function AsBitfield(v: bv32): Word64
  {
    SignExtend(v)
  }

  /** The bitfield test of `pushBitField`: every bit of the row is set in `val`. */
  predicate Contains(val: Word64, v: bv32)
  {
    And(val, AsBitfield(v)) == AsBitfield(v)
  }

  // ---------------------------------------------------------------------
  // pushEnum and GetEnumValue: first match in the type's run.

  function FirstWithValue(run: seq<EnumRow>, val: bv32, i: nat): (k: nat)
    requires i <= |run|
    ensures i <= k <= |run|
    ensures forall j :: i <= j < k ==> run[j].value != val
    ensures k < |run| ==> run[k].value == val
    decreases |run| - i
  {
    if i == |run| || run[i].value == val then i else FirstWithValue(run, val, i + 1)
  }

  function FirstWithName(run: seq<EnumRow>, name: string, i: nat): (k: nat)
    requires i <= |run|
    ensures i <= k <= |run|
    ensures forall j :: i <= j < k ==> run[j].name != name
    ensures k < |run| ==> run[k].name == name
    decreases |run| - i
  {
    if i == |run| || run[i].name == name then i else FirstWithName(run, name, i + 1)
  }

  /** `pushEnum`: the name of the first row of the run whose value equals
      `val` as a cl_uint; no match raises with the value printed by `%d`. */
  function DecodeEnum(table: seq<EnumRow>, t: EnumType, val: bv32): (r: Result<string>)
    ensures var run := RunOf(table, t);
      r.Ok? <==> exists k :: 0 <= k < |run| && run[k].value == val
    ensures var run := RunOf(table, t);
      r.Ok? ==> exists k :: 0 <= k < |run| && run[k].value == val && r.value == run[k].name
                           && forall j :: 0 <= j < k ==> run[j].value != val
    ensures r.Raised? ==> r.failure == UnknownEnumValue(Signed32(val))
  {
    var run := RunOf(table, t);
    var k := FirstWithValue(run, val, 0);
    if k < |run| then Ok(run[k].name) else Raised(UnknownEnumValue(Signed32(val)))
  }

  /** `GetEnumValue`: the value of the first row of the run named `name`. */
  function GetEnumValue(table: seq<EnumRow>, t: EnumType, name: string): (r: Result<bv32>)
    ensures var run := RunOf(table, t);
      r.Ok? <==> exists k :: 0 <= k < |run| && run[k].name == name
    ensures var run := RunOf(table, t);
      r.Ok? ==> exists k :: 0 <= k < |run| && run[k].name == name && r.value == run[k].value
                           && forall j :: 0 <= j < k ==> run[j].name != name
    ensures r.Raised? ==> r.failure == EnumValueNotFound(name)
  {
    var run := RunOf(table, t);
    var k := FirstWithName(run, name, 0);
    if k < |run| then Ok(run[k].value) else Raised(EnumValueNotFound(name))
  }

  predicate DistinctValues(run: seq<EnumRow>)
  {
    forall i, j :: 0 <= i < j < |run| ==> run[i].value != run[j].value
  }

  predicate DistinctNames(run: seq<EnumRow>)
  {
    forall i, j :: 0 <= i < j < |run| ==> run[i].name != run[j].name
  }

  /** Encoding a name and decoding the value gives the name back. */
  lemma EncodeThenDecode(table: seq<EnumRow>, t: EnumType, name: string)
    requires DistinctValues(RunOf(table, t))
    requires GetEnumValue(table, t, name).Ok?
    ensures DecodeEnum(table, t, GetEnumValue(table, t, name).value) == Ok(name)
  {
    var run := RunOf(table, t);
    var v := GetEnumValue(table, t, name).value;
    var k :| 0 <= k < |run| && run[k].name == name && v == run[k].value;
    var r := DecodeEnum(table, t, v);
    var k' :| 0 <= k' < |run| && run[k'].value == v && r.value == run[k'].name;
    assert k' == k;
  }

  /** Decoding a value and encoding the name gives the value back. */
  lemma DecodeThenEncode(table: seq<EnumRow>, t: EnumType, val: bv32)
    requires DistinctNames(RunOf(table, t))
    requires DecodeEnum(table, t, val).Ok?
    ensures GetEnumValue(table, t, DecodeEnum(table, t, val).value).Ok?
    ensures GetEnumValue(table, t, DecodeEnum(table, t, val).value).value == val
  {
    var run := RunOf(table, t);
    var name := DecodeEnum(table, t, val).value;
    var k :| 0 <= k < |run| && run[k].value == val && name == run[k].name;
    var r := GetEnumValue(table, t, name);
    var k' :| 0 <= k' < |run| && run[k'].name == name && r.value == run[k'].value;
    assert k' == k;
  }

  /** Every row of a run with distinct values and names round-trips both ways. */
  lemma RowRoundTrips(table: seq<EnumRow>, t: EnumType, k: nat)
    requires DistinctValues(RunOf(table, t)) && DistinctNames(RunOf(table, t))
    requires k < |RunOf(table, t)|
    ensures DecodeEnum(table, t, (RunOf(table, t)[k].value)) == Ok(RunOf(table, t)[k].name)
    ensures GetEnumValue(table, t, RunOf(table, t)[k].name) == Ok(RunOf(table, t)[k].value)
  {
    var run := RunOf(table, t);
    var d := DecodeEnum(table, t, run[k].value);
    var i :| 0 <= i < |run| && run[i].value == run[k].value && d.value == run[i].name;
    assert i == k;
    var e := GetEnumValue(table, t, run[k].name);
    var j :| 0 <= j < |run| && run[j].name == run[k].name && e.value == run[j].value;
    assert j == k;
  }

  // ---------------------------------------------------------------------
  // pushBitField: every row whose bits are all set, in table order.

  /** Names of the rows whose bits are all set in `val`, in row order. */
  function MatchingNames(run: seq<EnumRow>, val: Word64): (names: seq<string>)
    ensures |names| <= |run|
  {
    if |run| == 0 then []
    else MatchingNames(run[..|run| - 1], val)
         + (if Contains(val, run[|run| - 1].value) then [run[|run| - 1].name] else [])
  }

  /** The string `pushBitField` pushes. */
  function BitFieldText(table: seq<EnumRow>, t: EnumType, val: Word64): string
  {
    Join(MatchingNames(RunOf(table, t), val), ", ")
  }

  /** `pushBitField`'s loop over the rows of the type: the separator goes
      before every matching name but the first (`if(cnt++)`), so the result
      is the matching names joined by ", ". */
  method JoinMatching(run: seq<EnumRow>, val: Word64) returns (s: string)
    ensures s == Join(MatchingNames(run, val), ", ")
  {
    s := "";
    var cnt := 0;
    var i := 0;
    while i < |run|
      invariant i <= |run|
      invariant cnt == |MatchingNames(run[..i], val)|
      invariant s == Join(MatchingNames(run[..i], val), ", ")
    {
      MatchingNamesStep(run, i, val);
      JoinSnoc(MatchingNames(run[..i], val), run[i].name, ", ");
      if Contains(val, run[i].value) {
        if cnt > 0 {
          s := s + ", ";
        }
        cnt := cnt + 1;
        s := s + run[i].name;
      }
      i := i + 1;
    }
    assert run[..i] == run;
  }

  /** `pushBitField`: looks up the type's rows, then lists the matching names. */
  method PushBitField(table: seq<EnumRow>, t: EnumType, val: Word64) returns (s: string)
    ensures s == Join(MatchingNames(RunOf(table, t), val), ", ")
  {
    var start, nb := GetEnumTable(table, t);
    TypeRunUnique(table, t, Span(start, nb), TypeRun(table, t));
    s := JoinMatching(table[start .. start + nb], val);
  }

  lemma MatchingNamesStep(run: seq<EnumRow>, i: nat, val: Word64)
    requires i < |run|
    ensures Contains(val, run[i].value)
        ==> MatchingNames(run[..i + 1], val) == MatchingNames(run[..i], val) + [run[i].name]
    ensures !Contains(val, run[i].value)
        ==> MatchingNames(run[..i + 1], val) == MatchingNames(run[..i], val)
  {
    assert run[..i + 1][..i] == run[..i];
    assert MatchingNames(run[..i], val) + [] == MatchingNames(run[..i], val);
  }

  /** A row whose bits are all set is listed; a row that is listed has all
      its bits set. */
  lemma {:induction false} MatchingNamesExact(run: seq<EnumRow>, val: Word64, name: string)
    ensures name in MatchingNames(run, val)
        <==> exists k :: 0 <= k < |run| && run[k].name == name && Contains(val, run[k].value)
  {
    if |run| > 0 {
      var n := |run| - 1;
      MatchingNamesExact(run[..n], val, name);
      if name in MatchingNames(run[..n], val) {
        var k :| 0 <= k < n && run[..n][k].name == name && Contains(val, run[..n][k].value);
        assert run[k] == run[..n][k];
      }
      if exists k :: 0 <= k < |run| && run[k].name == name && Contains(val, run[k].value) {
        var k :| 0 <= k < |run| && run[k].name == name && Contains(val, run[k].value);
        if k < n {
          assert run[..n][k] == run[k];
        }
      }
    }
  }

  /** A row with value 0 is always listed. */
  lemma ZeroRowAlwaysListed(run: seq<EnumRow>, val: Word64, k: nat)
    requires k < |run| && run[k].value == 0
    ensures run[k].name in MatchingNames(run, val)
  {
    ZeroLaws(val);
    MatchingNamesExact(run, val, run[k].name);
  }

  /** A row stored as -1 ("all") is sign-extended, so it is listed only
      when all 64 bits are set, while `pushEnum` matches it against the
      cl_uint 0xFFFFFFFF. */
  lemma MinusOneRow(val: Word64)
    ensures Contains(val, 0xFFFF_FFFF) <==> val == AllOnes
    ensures !Contains(Word64(0xFFFF_FFFF, 0), 0xFFFF_FFFF)
  {
    MinusOneExtendsToAllOnes();
    AllOnesLaws(val);
    AllOnesLaws(Word64(0xFFFF_FFFF, 0));
  }

  /** The names picked by `keep`, in row order. */
  function Picked(run: seq<EnumRow>, keep: seq<bool>): seq<string>
    requires |keep| == |run|
  {
    if |run| == 0 then []
    else Picked(run[..|run| - 1], keep[..|run| - 1])
         + (if keep[|run| - 1] then [run[|run| - 1].name] else [])
  }

  /** The bitwise OR of the rows picked by `keep`. */
  function Compose(run: seq<EnumRow>, keep: seq<bool>): Word64
    requires |keep| == |run|
  {
    if |run| == 0 then Zero
    else Or(Compose(run[..|run| - 1], keep[..|run| - 1]),
            if keep[|run| - 1] then AsBitfield(run[|run| - 1].value) else Zero)
  }

  /** Rows that are non-zero flags sharing no bit with each other. */
  predicate DisjointFlags(run: seq<EnumRow>)
  {
    && (forall k :: 0 <= k < |run| ==> AsBitfield(run[k].value) != Zero)
    && (forall i, j :: 0 <= i < |run| && 0 <= j < |run| && i != j
          ==> And(AsBitfield(run[i].value), AsBitfield(run[j].value)) == Zero)
  }

  /** The OR of flags that each miss `b` misses `b`. */
  lemma {:induction false} ComposeMisses(run: seq<EnumRow>, keep: seq<bool>, b: Word64)
    requires |keep| == |run|
    requires forall k :: 0 <= k < |run| ==> And(AsBitfield(run[k].value), b) == Zero
    ensures And(Compose(run, keep), b) == Zero
  {
    ZeroLaws(b);
    if |run| > 0 {
      var n := |run| - 1;
      ComposeMisses(run[..n], keep[..n], b) by {
        forall k | 0 <= k < n
          ensures And(AsBitfield(run[..n][k].value), b) == Zero
        {
          assert run[..n][k] == run[k];
        }
      }
      var last := if keep[n] then AsBitfield(run[n].value) else Zero;
      AndDistributesOverOr(Compose(run[..n], keep[..n]), last, b);
      ZeroLaws(Zero);
    }
  }

  /** Masking the OR of a selection of disjoint flags with one flag tells
      whether that flag was selected. */
  lemma {:induction false} ComposeMask(run: seq<EnumRow>, keep: seq<bool>, k: nat)
    requires |keep| == |run| && DisjointFlags(run)
    requires k < |run|
    ensures And(Compose(run, keep), AsBitfield(run[k].value))
         == (if keep[k] then AsBitfield(run[k].value) else Zero)
  {
    var n := |run| - 1;
    var b := AsBitfield(run[k].value);
    var last := if keep[n] then AsBitfield(run[n].value) else Zero;
    var rest := Compose(run[..n], keep[..n]);
    AndDistributesOverOr(rest, last, b);
    ZeroLaws(b);
    AndIdempotent(b);
    if k == n {
      ComposeMisses(run[..n], keep[..n], b) by {
        forall i | 0 <= i < n
          ensures And(AsBitfield(run[..n][i].value), b) == Zero
        {
          assert run[..n][i] == run[i];
        }
      }
      ZeroLaws(And(last, b));
    } else {
      ComposeMask(run[..n], keep[..n], k) by {
        assert forall i :: 0 <= i < n ==> run[..n][i] == run[i];
      }
      assert run[..n][k] == run[k];
      ZeroLaws(And(rest, b));
    }
  }

  /** Listing agrees with a selection when the test agrees with it row by row. */
  lemma {:induction false} MatchingNamesFollowPick(run: seq<EnumRow>, keep: seq<bool>, val: Word64)
    requires |keep| == |run|
    requires forall k :: 0 <= k < |run| ==> (Contains(val, run[k].value) <==> keep[k])
    ensures MatchingNames(run, val) == Picked(run, keep)
  {
    if |run| > 0 {
      var n := |run| - 1;
      MatchingNamesFollowPick(run[..n], keep[..n], val) by {
        forall k | 0 <= k < n
          ensures Contains(val, run[..n][k].value) <==> keep[..n][k]
        {
          assert run[..n][k] == run[k];
        }
      }
    }
  }

  /** Decoding the OR of any selection of disjoint flags lists exactly the
      selected names, in table order. */
  lemma DecodeComposed(table: seq<EnumRow>, t: EnumType, keep: seq<bool>)
    requires |keep| == |RunOf(table, t)|
    requires DisjointFlags(RunOf(table, t))
    ensures BitFieldText(table, t, Compose(RunOf(table, t), keep))
         == Join(Picked(RunOf(table, t), keep), ", ")
  {
    var run := RunOf(table, t);
    var val := Compose(run, keep);
    forall k | 0 <= k < |run|
      ensures Contains(val, run[k].value) <==> keep[k]
    {
      ComposeMask(run, keep, k);
    }
    MatchingNamesFollowPick(run, keep, val);
  }

  // ---------------------------------------------------------------------
  // pushEnumArray: element-wise decoding of a cl_uint array.

  /** The decoding of each of the first `n` cl_uint elements of `buf`. */
  function EnumSteps(table: seq<EnumRow>, t: EnumType, buf: seq<Byte>, n: nat): (steps: seq<Result<string>>)
    requires n * UIntWidth <= |buf|
    ensures |steps| == n
    ensures forall k :: 0 <= k < n ==> steps[k] == DecodeEnum(table, t, Word32(Element(buf, k, UIntWidth)))
  {
    seq(n, k requires 0 <= k < n => DecodeEnum(table, t, Word32(Element(buf, k, UIntWidth))))
  }

  /** `pushEnumArray` over the first `n` elements of `buf`; the first
      unknown element raises. */
  function DecodeEnumElements(table: seq<EnumRow>, t: EnumType, buf: seq<Byte>, n: nat): (r: Result<seq<string>>)
    requires n * UIntWidth <= |buf|
    ensures r.Ok? <==> forall k :: 0 <= k < n ==> DecodeEnum(table, t, Word32(Element(buf, k, UIntWidth))).Ok?
    ensures r.Ok? ==> |r.value| == n
    ensures r.Ok? ==> forall k :: 0 <= k < n ==> Ok(r.value[k]) == DecodeEnum(table, t, Word32(Element(buf, k, UIntWidth)))
    ensures r.Raised? ==>
      exists k :: 0 <= k < n && (forall j :: 0 <= j < k ==> DecodeEnum(table, t, Word32(Element(buf, j, UIntWidth))).Ok?)
                  && DecodeEnum(table, t, Word32(Element(buf, k, UIntWidth))).Raised?
                  && r.failure == UnknownEnumValue(Signed32(Word32(Element(buf, k, UIntWidth))))
  {
    CollectExact(EnumSteps(table, t, buf, n));
    EnumStepsFirstFailure(table, t, buf, n);
    Collect(EnumSteps(table, t, buf, n))
  }

  /** The loop over the elements raises for the first unknown one. */
  lemma EnumStepsFirstFailure(table: seq<EnumRow>, t: EnumType, buf: seq<Byte>, n: nat)
    requires n * UIntWidth <= |buf|
    ensures var r := Collect(EnumSteps(table, t, buf, n));
      r.Raised? ==>
        exists k :: 0 <= k < n && (forall j :: 0 <= j < k ==> DecodeEnum(table, t, Word32(Element(buf, j, UIntWidth))).Ok?)
                    && DecodeEnum(table, t, Word32(Element(buf, k, UIntWidth))).Raised?
                    && r.failure == UnknownEnumValue(Signed32(Word32(Element(buf, k, UIntWidth))))
  {
    var steps := EnumSteps(table, t, buf, n);
    if Collect(steps).Raised? {
      CollectExact(steps);
      var k :| FirstRaised(steps, k) && Collect(steps).failure == steps[k].failure;
      FirstRaisedEnum(table, t, buf, n, k);
    }
  }

  /** The first failing step is the first element that names no row. */
  lemma FirstRaisedEnum(table: seq<EnumRow>, t: EnumType, buf: seq<Byte>, n: nat, k: nat)
    requires n * UIntWidth <= |buf|
    requires FirstRaised(EnumSteps(table, t, buf, n), k)
    ensures forall j :: 0 <= j < k ==> DecodeEnum(table, t, Word32(Element(buf, j, UIntWidth))).Ok?
    ensures DecodeEnum(table, t, Word32(Element(buf, k, UIntWidth))).Raised?
    ensures EnumSteps(table, t, buf, n)[k].failure == UnknownEnumValue(Signed32(Word32(Element(buf, k, UIntWidth))))
  {
    var steps := EnumSteps(table, t, buf, n);
    assert steps[k] == DecodeEnum(table, t, Word32(Element(buf, k, UIntWidth)));
    forall j | 0 <= j < k
      ensures DecodeEnum(table, t, Word32(Element(buf, j, UIntWidth))).Ok?
    {
      assert steps[j].Ok?;
    }
  }

  /** `pushEnumArray`: `size / sizeof(cl_uint)` elements; trailing bytes
      that do not fill an element are ignored. */
  function DecodeEnumArray(table: seq<EnumRow>, t: EnumType, buf: seq<Byte>): Result<seq<string>>
  {
    DecodeEnumElements(table, t, buf, |buf| / UIntWidth)
  }

  /** As written, `pushEnumArray` reads one 8-byte `cl_device_partition_property`
      as two cl_uint elements, its low half and then its high half. */
  lemma PropertyReadAsTwoEnums(table: seq<EnumRow>, t: EnumType, w: Word64)
    ensures DecodeEnumArray(table, t, Bytes64(w)).Ok? <==> (DecodeEnum(table, t, w.low).Ok? && DecodeEnum(table, t, w.high).Ok?)
    ensures DecodeEnumArray(table, t, Bytes64(w)).Ok? ==>
              DecodeEnumArray(table, t, Bytes64(w)).value
                == [DecodeEnum(table, t, w.low).value, DecodeEnum(table, t, w.high).value]
  {
    var buf := Bytes64(w);
    var steps := [DecodeEnum(table, t, w.low), DecodeEnum(table, t, w.high)];
    StepsOfBytes64(table, t, w);
    assert DecodeEnumArray(table, t, buf) == Collect(steps);
    CollectExact(steps);
  }

  /** The two cl_uint steps over an 8-byte word are its halves, low first. */
  lemma StepsOfBytes64(table: seq<EnumRow>, t: EnumType, w: Word64)
    ensures |Bytes64(w)| / UIntWidth == 2
    ensures EnumSteps(table, t, Bytes64(w), 2) == [DecodeEnum(table, t, w.low), DecodeEnum(table, t, w.high)]
  {
    HalvesOfBytes64(w);
  }

  lemma HalvesOfBytes64(w: Word64)
    ensures |Bytes64(w)| / UIntWidth == 2
    ensures Word32(Element(Bytes64(w), 0, UIntWidth)) == w.low
    ensures Word32(Element(Bytes64(w), 1, UIntWidth)) == w.high
  {
    assert Element(Bytes64(w), 0, UIntWidth) == Bytes32(w.low);
    assert Element(Bytes64(w), 1, UIntWidth) == Bytes32(w.high);
    Word32OfBytes32(w.low);
    Word32OfBytes32(w.high);
  }

  // ---------------------------------------------------------------------
  // Partition properties as 64-bit elements.

  /** One `cl_device_partition_property` (an `intptr_t`) looked up in the
      run: it matches a row when it equals the row's `int` value converted
      to `intptr_t`, that is sign-extended; no match raises with the value. */
  function DecodeProperty(table: seq<EnumRow>, t: EnumType, w: Word64): (r: Result<string>)
    ensures var run := RunOf(table, t);
      r.Ok? <==> exists k :: 0 <= k < |run| && SignExtend(run[k].value) == w
    ensures var run := RunOf(table, t);
      r.Ok? ==> exists k :: 0 <= k < |run| && SignExtend(run[k].value) == w && r.value == run[k].name
                           && forall j :: 0 <= j < k ==> SignExtend(run[j].value) != w
    ensures r.Raised? ==> r.failure == UnknownEnumValue(Signed64(w))
  {
    if w == SignExtend(w.low) then
      var d := DecodeEnum(table, t, w.low);
      if d.Ok? then Ok(d.value) else Raised(UnknownEnumValue(Signed64(w)))
    else
      Raised(UnknownEnumValue(Signed64(w)))
  }

  /** The `k`-th 8-byte element of `buf`, read as a 64-bit word. */
  function PropertyWord(buf: seq<Byte>, k: nat): (w: Word64)
    requires (k + 1) * PointerWidth <= |buf|
    ensures Bytes64(w) == buf[k * PointerWidth .. (k + 1) * PointerWidth]
  {
    Bytes64OfWord64(Element(buf, k, PointerWidth));
    Word64Of(Element(buf, k, PointerWidth))
  }

  /** The decoding of each of the first `n` 8-byte elements of `buf`. */
  function PropertySteps(table: seq<EnumRow>, t: EnumType, buf: seq<Byte>, n: nat): (steps: seq<Result<string>>)
    requires n * PointerWidth <= |buf|
    ensures |steps| == n
    ensures forall k :: 0 <= k < n ==> steps[k] == DecodeProperty(table, t, PropertyWord(buf, k))
  {
    seq(n, k requires 0 <= k < n => DecodeProperty(table, t, PropertyWord(buf, k)))
  }

  /** The partition properties among the first `n` 8-byte elements of
      `buf`, decoded in order; the first unknown element raises. */
  function DecodePropertyElements(table: seq<EnumRow>, t: EnumType, buf: seq<Byte>, n: nat): (r: Result<seq<string>>)
    requires n * PointerWidth <= |buf|
    ensures r.Ok? <==> forall k :: 0 <= k < n ==> DecodeProperty(table, t, PropertyWord(buf, k)).Ok?
    ensures r.Ok? ==> |r.value| == n
    ensures r.Ok? ==> forall k :: 0 <= k < n ==> Ok(r.value[k]) == DecodeProperty(table, t, PropertyWord(buf, k))
    ensures r.Raised? ==>
      exists k :: 0 <= k < n && (forall j :: 0 <= j < k ==> DecodeProperty(table, t, PropertyWord(buf, j)).Ok?)
                  && DecodeProperty(table, t, PropertyWord(buf, k)).Raised?
                  && r.failure == UnknownEnumValue(Signed64(PropertyWord(buf, k)))
  {
    CollectExact(PropertySteps(table, t, buf, n));
    PropertyStepsFirstFailure(table, t, buf, n);
    Collect(PropertySteps(table, t, buf, n))
  }

  /** The loop over the properties raises for the first unknown one. */
  lemma PropertyStepsFirstFailure(table: seq<EnumRow>, t: EnumType, buf: seq<Byte>, n: nat)
    requires n * PointerWidth <= |buf|
    ensures var r := Collect(PropertySteps(table, t, buf, n));
      r.Raised? ==>
        exists k :: 0 <= k < n && (forall j :: 0 <= j < k ==> DecodeProperty(table, t, PropertyWord(buf, j)).Ok?)
                    && DecodeProperty(table, t, PropertyWord(buf, k)).Raised?
                    && r.failure == UnknownEnumValue(Signed64(PropertyWord(buf, k)))
  {
    var steps := PropertySteps(table, t, buf, n);
    if Collect(steps).Raised? {
      CollectExact(steps);
      var k :| FirstRaised(steps, k) && Collect(steps).failure == steps[k].failure;
      FirstRaisedProperty(table, t, buf, n, k);
    }
  }

  /** The first failing step is the first property that names no row. */
  lemma FirstRaisedProperty(table: seq<EnumRow>, t: EnumType, buf: seq<Byte>, n: nat, k: nat)
    requires n * PointerWidth <= |buf|
    requires FirstRaised(PropertySteps(table, t, buf, n), k)
    ensures forall j :: 0 <= j < k ==> DecodeProperty(table, t, PropertyWord(buf, j)).Ok?
    ensures DecodeProperty(table, t, PropertyWord(buf, k)).Raised?
    ensures PropertySteps(table, t, buf, n)[k].failure == UnknownEnumValue(Signed64(PropertyWord(buf, k)))
  {
    var steps := PropertySteps(table, t, buf, n);
    assert steps[k] == DecodeProperty(table, t, PropertyWord(buf, k));
    forall j | 0 <= j < k
      ensures DecodeProperty(table, t, PropertyWord(buf, j)).Ok?
    {
      assert steps[j].Ok?;
    }
  }

  /** `pushEnumArray<EBT_DEVICE_PARTITION_PROPERTY>` as evidently intended:
      `size / sizeof(cl_device_partition_property)` elements of 8 bytes. */
  function DecodePropertyArray(table: seq<EnumRow>, t: EnumType, buf: seq<Byte>): Result<seq<string>>
  {
    DecodePropertyElements(table, t, buf, |buf| / PointerWidth)
  }

  /** One property written by the native call reads back as one name. */
  lemma PropertyReadAsOne(table: seq<EnumRow>, t: EnumType, w: Word64)
    ensures DecodePropertyArray(table, t, Bytes64(w)).Ok? <==> DecodeProperty(table, t, w).Ok?
    ensures DecodePropertyArray(table, t, Bytes64(w)).Ok? ==>
              DecodePropertyArray(table, t, Bytes64(w)).value == [DecodeProperty(table, t, w).value]
  {
    var buf := Bytes64(w);
    assert buf[0 * PointerWidth .. 1 * PointerWidth] == buf;
    Word64OfBytes64(w);
    Word64OfBytes64(PropertyWord(buf, 0));
    var r := DecodePropertyArray(table, t, buf);
    if r.Ok? {
      assert Ok(r.value[0]) == DecodeProperty(table, t, w);
    }
  }
}
