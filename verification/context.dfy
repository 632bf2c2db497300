/** The two library functions: `cl.context` (`cl_new_context`,
    LuaOpenCL.cpp:386-418) and `cl.platforms` (`cl_platforms`,
    LuaOpenCL.cpp:353-366), with the platform method `devices`
    (`CLPlatform::GetDevices`, LuaOpenCL.cpp:310-323). The native calls are
    oracles; the retain balances are the state of `Objects`. */
module Context {

  import opened Results
  import opened Bits
  import opened Catalog
  import opened Codec
  import opened Errors
  import opened Objects
  import opened Host

  /** Argument `i` (1-based) after `lua_settop(L, 3)`: missing arguments
      read as nil. */
  function Arg(args: seq<LuaValue>, i: nat): LuaValue
  {
    if 1 <= i <= |args| then args[i - 1] else Nil
  }

  /** The stack index each device of a list is checked at: the three
      arguments, the device buffer, then the element just fetched. */
  const ElementIndex: int := 5

  /** What the native creation is asked for. */
  datatype Request = FromDevices(devices: seq<Handle>) | FromType(deviceType: Word64)

  /** Every marked userdata among the values is a wrapper. */
  predicate AllProvenance(items: seq<LuaValue>)
  {
    forall k :: 0 <= k < |items| ==> Provenance(items[k])
  }

  /** The outcome of checking each element of a list on its own. */
  function Checked(items: seq<LuaValue>, idx: int, name: string): (rs: seq<Result<Handle>>)
    requires AllProvenance(items)
    ensures |rs| == |items|
    ensures forall k :: 0 <= k < |items| ==> rs[k] == CheckObject(items[k], idx, name)
  {
    seq(|items|, k requires 0 <= k < |items| && Provenance(items[k]) => CheckObject(items[k], idx, name))
  }

  /** Element `k` of the list is the first that fails its check. */
  predicate FirstBad(items: seq<LuaValue>, idx: int, name: string, k: nat)
    requires AllProvenance(items) && k < |items|
  {
    && CheckObject(items[k], idx, name).Raised?
    && forall j :: 0 <= j < k ==> CheckObject(items[j], idx, name).Ok?
  }

  /** The loop over a list that must hold wrappers of class `c`: it passes
      exactly when every element is such a wrapper, and then yields their
      handles in order; otherwise the first element that is not decides
      the error. */
  lemma CheckListExact(items: seq<LuaValue>, idx: int, c: ClassKind)
    requires AllProvenance(items)
    ensures var r := Collect(Checked(items, idx, ClassName(c)));
      r.Ok? <==> forall k :: 0 <= k < |items| ==> Marked(items[k]) && items[k].payload.handle.kind == c
    ensures var r := Collect(Checked(items, idx, ClassName(c)));
      r.Ok? ==> |r.value| == |items| && forall k :: 0 <= k < |items| ==> r.value[k] == items[k].payload.handle
    ensures var r := Collect(Checked(items, idx, ClassName(c)));
      r.Raised? ==> exists k :: (0 <= k < |items| && FirstBad(items, idx, ClassName(c), k)
        && r.failure == CheckObject(items[k], idx, ClassName(c)).failure)
  {
    var name := ClassName(c);
    var rs := Checked(items, idx, name);
    CollectExact(rs);
    forall k | 0 <= k < |items|
      ensures rs[k].Ok? <==> Marked(items[k]) && items[k].payload.handle.kind == c
    {
      if Marked(items[k]) {
        ClassNameInjective(items[k].payload.handle.kind, c);
      }
    }
    if Collect(rs).Raised? {
      var k :| FirstRaised(rs, k) && Collect(rs).failure == rs[k].failure;
      assert FirstBad(items, idx, name, k);
    }
  }

  /** The device list of `cl_new_context`. */
  function CheckDevices(items: seq<LuaValue>): (r: Result<seq<Handle>>)
    requires AllProvenance(items)
  {
    Collect(Checked(items, ElementIndex, ClassName(DeviceClass)))
  }

  /** The argument dispatch of `cl_new_context`: a list of devices, or a
      device type named by its string (compared up to its first NUL, as
      `strcmp` does) and widened from `int` to the 64-bit `cl_device_type`. */
  function ContextRequest(table: seq<EnumRow>, args: seq<LuaValue>): (r: Result<Request>)
    requires Arg(args, 1).Table? ==> AllProvenance(Arg(args, 1).items)
  {
    var first :- CheckType(Arg(args, 1), 1, TableOrString);
    var second :- CheckType(Arg(args, 2), 2, TableOrNil);
    match Arg(args, 1)
    case Table(items) =>
      var hs :- CheckDevices(items);
      Ok(FromDevices(hs))
    case Str(s) =>
      var v :- GetEnumValue(table, DeviceType, CString(s));
      Ok(FromType(SignExtend(v)))
    case _ =>
      BitsOfContextMasks();
      assert false;
      Raised(EnumValueNotFound(""))
  }

  /** A first argument that is neither a table nor a string is rejected
      first, naming both accepted types in tag order. */
  lemma ContextRejectsFirst(table: seq<EnumRow>, args: seq<LuaValue>)
    requires Arg(args, 1).Table? ==> AllProvenance(Arg(args, 1).items)
    requires !Arg(args, 1).Str? && !Arg(args, 1).Table?
    ensures ContextRequest(table, args) == Raised(TypeMismatch("string or table", 1, TypeName(Arg(args, 1))))
  {
    TableOrStringMessage(Arg(args, 1), 1);
  }

  /** A second argument that is neither a table nor nil (absent) is
      rejected next. */
  lemma ContextRejectsSecond(table: seq<EnumRow>, args: seq<LuaValue>)
    requires Arg(args, 1).Table? ==> AllProvenance(Arg(args, 1).items)
    requires Arg(args, 1).Str? || Arg(args, 1).Table?
    requires !Arg(args, 2).Nil? && !Arg(args, 2).Table?
    ensures ContextRequest(table, args) == Raised(TypeMismatch("nil or table", 2, TypeName(Arg(args, 2))))
  {
    TableOrStringPasses(Arg(args, 1), 1);
    TableOrNilMessage(Arg(args, 2), 2);
  }

  /** A table asks for a context on exactly the devices it lists, in
      order; any other element fails the call with its `CheckObject` error. */
  lemma ContextFromDevices(table: seq<EnumRow>, args: seq<LuaValue>)
    requires Arg(args, 1).Table? && AllProvenance(Arg(args, 1).items)
    requires Arg(args, 2).Nil? || Arg(args, 2).Table?
    ensures CheckDevices(Arg(args, 1).items).Ok? ==> ContextRequest(table, args) == Ok(FromDevices(CheckDevices(Arg(args, 1).items).value))
    ensures CheckDevices(Arg(args, 1).items).Raised? ==> ContextRequest(table, args) == Raised(CheckDevices(Arg(args, 1).items).failure)
  {
    ContextArgumentsPass(args);
  }

  /** A string asks for a context of the device type it names, the row's
      `int` sign-extended to 64 bits; an unknown name fails the lookup. */
  lemma ContextFromType(table: seq<EnumRow>, args: seq<LuaValue>)
    requires Arg(args, 1).Str?
    requires Arg(args, 2).Nil? || Arg(args, 2).Table?
    ensures var name := CString(Arg(args, 1).s);
      GetEnumValue(table, DeviceType, name).Ok? ==>
        ContextRequest(table, args) == Ok(FromType(SignExtend(GetEnumValue(table, DeviceType, name).value)))
    ensures var name := CString(Arg(args, 1).s);
      GetEnumValue(table, DeviceType, name).Raised? ==> ContextRequest(table, args) == Raised(EnumValueNotFound(name))
  {
    ContextArgumentsPass(args);
  }

  /** Arguments of the accepted types pass both type checks. */
  lemma ContextArgumentsPass(args: seq<LuaValue>)
    requires Arg(args, 1).Str? || Arg(args, 1).Table?
    requires Arg(args, 2).Nil? || Arg(args, 2).Table?
    ensures CheckType(Arg(args, 1), 1, TableOrString) == Ok(())
    ensures CheckType(Arg(args, 2), 2, TableOrNil) == Ok(())
  {
    TableOrStringPasses(Arg(args, 1), 1);
    TableOrNilPasses(Arg(args, 2), 2);
  }

  /** `clCreateContext` / `clCreateContextFromType`: a status and the new
      context. */
  type Create = Request -> Reply<nat>

  /** The new context's handle, the wrapper left on the stack and the
      retain balances afterwards. */
  datatype Created = Created(context: Handle, wrapper: LuaValue, state: NativeState)

  /** `cl_new_context`: dispatch the arguments, create the context, check
      the status, wrap it (one retain) and drop the creation reference (one
      release). A created context starts with one reference. */
  function NewContext(table: seq<EnumRow>, errors: seq<ErrorRow>, args: seq<LuaValue>,
                      create: Create, address: nat, s: NativeState): (r: Result<Created>)
    requires Arg(args, 1).Table? ==> AllProvenance(Arg(args, 1).items)
    ensures r.Ok? <==> ContextRequest(table, args).Ok? && create(ContextRequest(table, args).value).code == Success
    ensures r.Ok? ==> r.value.context == Handle(ContextClass, create(ContextRequest(table, args).value).out)
    ensures r.Ok? ==> r.value.wrapper == WrapperValue(address, r.value.context)
  {
    var request :- ContextRequest(table, args);
    var reply := create(request);
    var checked :- ErrorCheck(errors, reply.code);
    var h := Handle(ContextClass, reply.out);
    var born := NativeState(s.refs[h := 1]);
    Ok(Created(h, WrapperValue(address, h), Release(Wrap(born, h), h)))
  }

  /** After `cl.context` the new context holds exactly one reference, the
      one its wrapper will drop when collected; no other count moves. */
  lemma NewContextCounts(table: seq<EnumRow>, errors: seq<ErrorRow>, args: seq<LuaValue>,
                         create: Create, address: nat, s: NativeState)
    requires Arg(args, 1).Table? ==> AllProvenance(Arg(args, 1).items)
    requires NewContext(table, errors, args, create, address, s).Ok?
    ensures var c := NewContext(table, errors, args, create, address, s).value;
      && Count(c.state, c.context) == 1
      && Count(Finalize(c.state, c.context), c.context) == 0
      && forall g :: g != c.context ==> Count(c.state, g) == Count(s, g)
  {
  }

  /** The wrapper `cl.context` returns passes `CheckObject` as a context
      and as nothing else. */
  lemma NewContextIsContext(table: seq<EnumRow>, errors: seq<ErrorRow>, args: seq<LuaValue>,
                            create: Create, address: nat, s: NativeState, idx: int, name: string)
    requires Arg(args, 1).Table? ==> AllProvenance(Arg(args, 1).items)
    requires NewContext(table, errors, args, create, address, s).Ok?
    ensures var c := NewContext(table, errors, args, create, address, s).value;
      CheckObject(c.wrapper, idx, name).Ok? <==> name == "context"
  {
    var c := NewContext(table, errors, args, create, address, s).value;
    WrapperChecks(address, c.context, idx, name);
  }

  // ---------------------------------------------------------------------
  // cl.platforms and platform:devices()

  /** `CL_DEVICE_TYPE_ALL` as `GetDevices` passes it: the 32-bit constant
      zero-extended, not the sign-extended `-1` of the enumeration row. */
  const DeviceTypeAll: Word64 := Word64(0xFFFF_FFFF, 0)

  /** The ids the fill call leaves in a buffer of `n` ids; ids it did not
      write are read as zero. */
  function Ids(written: seq<nat>, n: nat): (ids: seq<nat>)
    ensures |ids| == n
    ensures forall k :: 0 <= k < n && k < |written| ==> ids[k] == written[k]
  {
    seq(n, k requires 0 <= k < n => if k < |written| then written[k] else 0)
  }

  /** One wrap per handle, in order. */
  function WrapEvents(hs: seq<Handle>): (events: seq<Event>)
    ensures |events| == |hs|
  {
    seq(|hs|, k requires 0 <= k < |hs| => WrapEvent(hs[k]))
  }

  /** The handles listed and the retain balances afterwards. */
  datatype Listing = Listing(handles: seq<Handle>, state: NativeState)

  /** The two-call enumeration of `cl_platforms` and `GetDevices`: ask for
      the count, fill that many ids, check both statuses, and wrap each id
      in order. */
  function Enumerate(errors: seq<ErrorRow>, kind: ClassKind, count: Reply<nat>,
                     fill: nat -> Reply<seq<nat>>, s: NativeState): (r: Result<Listing>)
    ensures r.Ok? <==> count.code == Success && fill(count.out).code == Success
    ensures r.Ok? ==> (|r.value.handles| == count.out
      && forall k :: 0 <= k < count.out ==> r.value.handles[k] == Handle(kind, Ids(fill(count.out).out, count.out)[k]))
    ensures count.code != Success ==> r == Raised(OpenCLError("OpenCL: " + Translate(errors, count.code)))
    ensures count.code == Success && fill(count.out).code != Success ==>
      r == Raised(OpenCLError("OpenCL: " + Translate(errors, fill(count.out).code)))
  {
    var counted :- ErrorCheck(errors, count.code);
    var reply := fill(count.out);
    var filled :- ErrorCheck(errors, reply.code);
    var ids := Ids(reply.out, count.out);
    var hs := seq(count.out, k requires 0 <= k < count.out => Handle(kind, ids[k]));
    Ok(Listing(hs, Replay(s, WrapEvents(hs))))
  }

  /** `cl.platforms`. */
  function Platforms(errors: seq<ErrorRow>, count: Reply<nat>, fill: nat -> Reply<seq<nat>>, s: NativeState): Result<Listing>
  {
    Enumerate(errors, PlatformClass, count, fill, s)
  }

  /** `platform:devices()`; the oracles stand for `clGetDeviceIDs` on the
      platform with `DeviceTypeAll`. */
  function GetDevices(errors: seq<ErrorRow>, count: Reply<nat>, fill: nat -> Reply<seq<nat>>, s: NativeState): Result<Listing>
  {
    Enumerate(errors, DeviceClass, count, fill, s)
  }

  /** Wrap-only event lists never over-release. */
  lemma {:induction false} WrapsOnly(hs: seq<Handle>, h: Handle)
    ensures Finalizes(WrapEvents(hs), h) == 0
    ensures Wraps(WrapEvents(hs), h) == multiset(hs)[h]
  {
    if |hs| > 0 {
      var n := |hs| - 1;
      assert WrapEvents(hs)[..n] == WrapEvents(hs[..n]);
      WrapsOnly(hs[..n], h);
      assert hs == hs[..n] + [hs[n]];
    }
  }

  lemma WrapsOnlyNeverOverReleased(s: NativeState, hs: seq<Handle>, h: Handle)
    ensures NeverOverReleased(s, WrapEvents(hs), h)
  {
    forall n | 0 <= n <= |hs|
      ensures Finalizes(WrapEvents(hs)[..n], h) <= Count(s, h) + Wraps(WrapEvents(hs)[..n], h)
    {
      assert WrapEvents(hs)[..n] == WrapEvents(hs[..n]);
      WrapsOnly(hs[..n], h);
    }
  }

  /** Listing handles retains each once per occurrence; handles of
      uncounted classes and handles not listed keep their counts. */
  lemma EnumerateCounts(errors: seq<ErrorRow>, kind: ClassKind, count: Reply<nat>,
                        fill: nat -> Reply<seq<nat>>, s: NativeState, h: Handle)
    requires Enumerate(errors, kind, count, fill, s).Ok?
    ensures var l := Enumerate(errors, kind, count, fill, s).value;
      Count(l.state, h) == Count(s, h) + (if Counted(h.kind) then multiset(l.handles)[h] else 0)
  {
    var l := Enumerate(errors, kind, count, fill, s).value;
    WrapsOnly(l.handles, h);
    WrapsOnlyNeverOverReleased(s, l.handles, h);
    RunAccounting(s, WrapEvents(l.handles), h);
  }

  /** `cl.platforms` moves no retain balance: platforms are not retained. */
  lemma PlatformsLeaveCounts(errors: seq<ErrorRow>, count: Reply<nat>, fill: nat -> Reply<seq<nat>>,
                             s: NativeState, h: Handle)
    requires Platforms(errors, count, fill, s).Ok?
    ensures Count(Platforms(errors, count, fill, s).value.state, h) == Count(s, h)
  {
    var l := Platforms(errors, count, fill, s).value;
    EnumerateCounts(errors, PlatformClass, count, fill, s, h);
    if h.kind != PlatformClass {
      assert forall k :: 0 <= k < |l.handles| ==> l.handles[k].kind == PlatformClass;
      assert h !in l.handles;
    }
  }

  /** `platform:devices()` retains each listed device once per listing. */
  lemma GetDevicesRetainsEach(errors: seq<ErrorRow>, count: Reply<nat>, fill: nat -> Reply<seq<nat>>,
                              s: NativeState, k: nat)
    requires GetDevices(errors, count, fill, s).Ok?
    requires k < count.out
    ensures var l := GetDevices(errors, count, fill, s).value;
      Count(l.state, l.handles[k]) == Count(s, l.handles[k]) + multiset(l.handles)[l.handles[k]]
    ensures var l := GetDevices(errors, count, fill, s).value;
      Count(l.state, l.handles[k]) > Count(s, l.handles[k])
  {
    var l := GetDevices(errors, count, fill, s).value;
    EnumerateCounts(errors, DeviceClass, count, fill, s, l.handles[k]);
  }
}
