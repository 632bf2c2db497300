/** The Lua values the binding inspects and the guards it applies to them:
    `check_type` (LuaOpenCL.cpp:368-385), `CLObject::CheckObject`
    (LuaOpenCL.cpp:242-258), the metatable `Register` installs
    (LuaOpenCL.cpp:259-285) and the self-argument stripping of
    `CLObject::CallMethod` (LuaOpenCL.cpp:233-241). */
module Host {

  import opened Results
  import opened Text
  import opened Objects

  /** What the block of a full userdata holds. */
  datatype Payload = Foreign | Wrapped(handle: Handle)

  /** A Lua value as the C API sees it. Tables keep their array part only,
      which is all `cl_new_context` reads; a metatable is a map of fields. */
  datatype LuaValue =
    | Nil
    | Boolean(b: bool)
    | LightUserdata(pointer: nat)
    | Number(n: int)
    | Str(s: string)
    | Table(items: seq<LuaValue>)
    | Function
    | Userdata(address: nat, metatable: Option<map<string, LuaValue>>, payload: Payload)
    | Thread

  /** `LUA_NUMTAGS`. */
  const NumTags: nat := 9

  /** `lua_type`: LUA_TNIL = 0 ... LUA_TTHREAD = 8. */
  function TypeTag(v: LuaValue): (t: nat)
    ensures t < NumTags
  {
    match v
    case Nil => 0
    case Boolean(_) => 1
    case LightUserdata(_) => 2
    case Number(_) => 3
    case Str(_) => 4
    case Table(_) => 5
    case Function => 6
    case Userdata(_, _, _) => 7
    case Thread => 8
  }

  /** `lua_typename`: light and full userdata share a name. */
  function TagName(t: nat): string
    requires t < NumTags
  {
    ["nil", "boolean", "userdata", "number", "string", "table", "function", "userdata", "thread"][t]
  }

  function TypeName(v: LuaValue): string
  {
    TagName(TypeTag(v))
  }

  function Pow2(n: nat): (p: nat)
    ensures p > 0
  {
    if n == 0 then 1 else 2 * Pow2(n - 1)
  }

  /** `types & (1 << t)` is non-zero. */
  predicate HasBit(types: nat, t: nat)
  {
    (types / Pow2(t)) % 2 == 1
  }

  /** The tags below `n` whose bit is set in `types`, in increasing order:
      the order `check_type`'s loop visits them in. */
  function AllowedTags(types: nat, n: nat): seq<nat>
  {
    if n == 0 then []
    else AllowedTags(types, n - 1) + (if HasBit(types, n - 1) then [n - 1] else [])
  }

  /** The listed tags are exactly the set bits below `n`, each once, in
      increasing order. */
  lemma {:induction false} AllowedTagsExact(types: nat, n: nat)
    ensures forall k :: 0 <= k < |AllowedTags(types, n)| ==>
              AllowedTags(types, n)[k] < n && HasBit(types, AllowedTags(types, n)[k])
    ensures forall t :: 0 <= t < n && HasBit(types, t) ==> t in AllowedTags(types, n)
    ensures forall i, j :: 0 <= i < j < |AllowedTags(types, n)| ==>
              AllowedTags(types, n)[i] < AllowedTags(types, n)[j]
  {
    if n > 0 {
      AllowedTagsExact(types, n - 1);
    }
  }

  /** `tags` lists every tag whose bit is set in `types`, each once, in
      increasing order; only one list does. */
  predicate ListsSetBits(tags: seq<nat>, types: nat)
  {
    (forall k :: 0 <= k < |tags| ==> tags[k] < NumTags && HasBit(types, tags[k]))
    && (forall t :: 0 <= t < NumTags && HasBit(types, t) ==> t in tags)
    && (forall i, j :: 0 <= i < j < |tags| ==> tags[i] < tags[j])
  }

  /** The type names of the given tags, in order. */
  function TagNames(tags: seq<nat>): (names: seq<string>)
    requires forall k :: 0 <= k < |tags| ==> tags[k] < NumTags
    ensures |names| == |tags|
    ensures forall k :: 0 <= k < |tags| ==> names[k] == TagName(tags[k])
  {
    seq(|tags|, k requires 0 <= k < |tags| => TagName(tags[k]))
  }

  /** The names `check_type` lists in its message, one per allowed tag. */
  function AllowedNames(types: nat): seq<string>
  {
    AllowedTagsExact(types, NumTags);
    TagNames(AllowedTags(types, NumTags))
  }

  /** `check_type`: the value passes when its tag's bit is set in `types`;
      otherwise the error lists the name of every type whose bit is set, in
      tag order, joined by " or ", and names the type found. */
  function CheckType(v: LuaValue, idx: int, types: nat): (r: Result<()>)
    ensures r.Ok? <==> HasBit(types, TypeTag(v))
    ensures r.Raised? ==>
      exists tags :: ListsSetBits(tags, types)
                     && r.failure == TypeMismatch(Join(TagNames(tags), " or "), idx, TypeName(v))
  {
    AllowedTagsExact(types, NumTags);
    if HasBit(types, TypeTag(v)) then Ok(())
    else Raised(TypeMismatch(Join(AllowedNames(types), " or "), idx, TypeName(v)))
  }

  lemma CheckTypePasses(v: LuaValue, idx: int, types: nat)
    requires HasBit(types, TypeTag(v))
    ensures CheckType(v, idx, types) == Ok(())
  {
  }

  /** `1<<LUA_TTABLE|1<<LUA_TSTRING` and `1<<LUA_TTABLE|1<<LUA_TNIL`, the
      two masks `cl_new_context` uses. */
  const TableOrString: nat := 48
  const TableOrNil: nat := 33

  lemma Powers()
    ensures Pow2(0) == 1 && Pow2(1) == 2 && Pow2(2) == 4 && Pow2(3) == 8 && Pow2(4) == 16
    ensures Pow2(5) == 32 && Pow2(6) == 64 && Pow2(7) == 128 && Pow2(8) == 256
  {
  }

  lemma BitsOfContextMasks()
    ensures forall t :: 0 <= t < NumTags ==> (HasBit(TableOrString, t) <==> t == 4 || t == 5)
    ensures forall t :: 0 <= t < NumTags ==> (HasBit(TableOrNil, t) <==> t == 0 || t == 5)
  {
    Powers();
    assert !HasBit(48, 0) && !HasBit(48, 1) && !HasBit(48, 2) && !HasBit(48, 3);
    assert HasBit(48, 4) && HasBit(48, 5);
    assert !HasBit(48, 6) && !HasBit(48, 7) && !HasBit(48, 8);
    assert HasBit(33, 0) && !HasBit(33, 1) && !HasBit(33, 2) && !HasBit(33, 3);
    assert !HasBit(33, 4) && HasBit(33, 5);
    assert !HasBit(33, 6) && !HasBit(33, 7) && !HasBit(33, 8);
  }

  lemma AllowedTagsOfTableOrString()
    ensures AllowedTags(TableOrString, NumTags) == [4, 5]
  {
    BitsOfContextMasks();
    var m := TableOrString;
    assert AllowedTags(m, 4) == [] by {
      assert AllowedTags(m, 1) == [];
      assert AllowedTags(m, 2) == [];
      assert AllowedTags(m, 3) == [];
    }
    assert AllowedTags(m, 5) == [4];
    assert AllowedTags(m, 6) == [4, 5];
    assert AllowedTags(m, 7) == [4, 5];
    assert AllowedTags(m, 8) == [4, 5];
  }

  lemma AllowedTagsOfTableOrNil()
    ensures AllowedTags(TableOrNil, NumTags) == [0, 5]
  {
    BitsOfContextMasks();
    var m := TableOrNil;
    assert AllowedTags(m, 1) == [0];
    assert AllowedTags(m, 5) == [0] by {
      assert AllowedTags(m, 2) == [0];
      assert AllowedTags(m, 3) == [0];
      assert AllowedTags(m, 4) == [0];
    }
    assert AllowedTags(m, 6) == [0, 5];
    assert AllowedTags(m, 7) == [0, 5];
    assert AllowedTags(m, 8) == [0, 5];
  }

  /** The message `cl_new_context` raises for a first argument that is
      neither a table nor a string. */
  lemma TableOrStringMessage(v: LuaValue, idx: int)
    requires TypeTag(v) != 4 && TypeTag(v) != 5
    ensures CheckType(v, idx, TableOrString) == Raised(TypeMismatch("string or table", idx, TypeName(v)))
  {
    BitsOfContextMasks();
    NamesOfContextMasks();
    ContextMessages();
    assert !HasBit(TableOrString, TypeTag(v));
    MessageOfTwo(TableOrString, "string", "table");
  }

  /** The message it raises for a second argument that is neither a table
      nor nil. */
  lemma TableOrNilMessage(v: LuaValue, idx: int)
    requires TypeTag(v) != 0 && TypeTag(v) != 5
    ensures CheckType(v, idx, TableOrNil) == Raised(TypeMismatch("nil or table", idx, TypeName(v)))
  {
    BitsOfContextMasks();
    NamesOfContextMasks();
    ContextMessages();
    assert !HasBit(TableOrNil, TypeTag(v));
    MessageOfTwo(TableOrNil, "nil", "table");
  }

  /** A string or a table passes the first argument's check. */
  lemma TableOrStringPasses(v: LuaValue, idx: int)
    requires v.Str? || v.Table?
    ensures CheckType(v, idx, TableOrString) == Ok(())
  {
    BitsOfContextMasks();
    CheckTypePasses(v, idx, TableOrString);
  }

  /** Nil or a table passes the second argument's check. */
  lemma TableOrNilPasses(v: LuaValue, idx: int)
    requires v.Nil? || v.Table?
    ensures CheckType(v, idx, TableOrNil) == Ok(())
  {
    BitsOfContextMasks();
    CheckTypePasses(v, idx, TableOrNil);
  }

  /** The message of a mask that allows exactly two types. */
  lemma MessageOfTwo(types: nat, a: string, b: string)
    requires AllowedNames(types) == [a, b]
    ensures Join(AllowedNames(types), " or ") == a + " or " + b
  {
    JoinPair(a, b, " or ");
  }

  lemma ContextMessages()
    ensures "string" + " or " + "table" == "string or table"
    ensures "nil" + " or " + "table" == "nil or table"
  {
  }

  lemma NamesOfContextMasks()
    ensures AllowedNames(TableOrString) == ["string", "table"]
    ensures AllowedNames(TableOrNil) == ["nil", "table"]
  {
    AllowedTagsOfTableOrString();
    AllowedTagsOfTableOrNil();
    var a := AllowedNames(TableOrString);
    assert |a| == 2 && a[0] == TagName(4) && a[1] == TagName(5);
    var b := AllowedNames(TableOrNil);
    assert |b| == 2 && b[0] == TagName(0) && b[1] == TagName(5);
  }

  // ---------------------------------------------------------------------
  // CheckObject

  /** The `__metatable` string every wrapper's metatable carries. */
  const Marker: string := "OpenCL metatable"

  /** The characters `strcmp` compares: those before the first NUL. */
  function CString(s: string): (c: string)
    ensures c <= s
    ensures '\0' !in c
    ensures |c| < |s| ==> s[|c|] == '\0'
  {
    if |s| == 0 || s[0] == '\0' then "" else [s[0]] + CString(s[1..])
  }

  /** A full userdata whose metatable's `__metatable` field is a string that
      compares equal to the marker. */
  predicate Marked(v: LuaValue)
  {
    && v.Userdata?
    && v.metatable.Some?
    && "__metatable" in v.metatable.value
    && v.metatable.value["__metatable"].Str?
    && CString(v.metatable.value["__metatable"].s) == Marker
  }

  /** `CheckObject` reads the block of a marked userdata as a `CLObject`;
      only wrappers carry the marker, which is what makes that cast sound. */
  predicate Provenance(v: LuaValue)
  {
    Marked(v) ==> v.payload.Wrapped?
  }

  /** `CLObject::CheckObject` on the value at stack index `idx`, which is
      the top of the stack at its only call site. */
  function CheckObject(v: LuaValue, idx: int, name: string): (r: Result<Handle>)
    requires Provenance(v)
    ensures r.Ok? <==> Marked(v) && ClassName(v.payload.handle.kind) == name
    ensures r.Ok? ==> r.value == v.payload.handle
    ensures !v.Userdata? ==> r == Raised(BadArgument(idx, "userdata", TypeName(v)))
    ensures v.Userdata? && !Marked(v) ==> r == Raised(NotOpenCLObject(name, idx))
    ensures Marked(v) && ClassName(v.payload.handle.kind) != name
        ==> r == Raised(WrongOpenCLClass(name, idx, ClassName(v.payload.handle.kind)))
  {
    if !v.Userdata? then Raised(BadArgument(idx, "userdata", TypeName(v)))
    else if v.metatable.None? then Raised(NotOpenCLObject(name, idx))
    else if "__metatable" !in v.metatable.value || !v.metatable.value["__metatable"].Str? then
      Raised(NotOpenCLObject(name, idx))
    else if CString(v.metatable.value["__metatable"].s) != Marker then Raised(NotOpenCLObject(name, idx))
    else if ClassName(v.payload.handle.kind) != name then
      Raised(WrongOpenCLClass(name, idx, ClassName(v.payload.handle.kind)))
    else Ok(v.payload.handle)
  }

  /** The methods `AddMethods` installs: three for every class, plus
      `devices` for platforms. */
  function MethodNames(c: ClassKind): set<string>
  {
    {"info", "__tostring", "__gc"} + (if c == PlatformClass then {"devices"} else {})
  }

  /** The metatable `Register` builds (the `__index` self-reference is
      left out: an immutable value cannot contain itself). */
  function WrapperMetatable(c: ClassKind): (m: map<string, LuaValue>)
    ensures m.Keys == MethodNames(c) + {"__metatable"}
  {
    map k | k in MethodNames(c) + {"__metatable"} :: if k == "__metatable" then Str(Marker) else Function
  }

  /** The userdata `pushNewObject` leaves on the stack. */
  function WrapperValue(address: nat, h: Handle): LuaValue
  {
    Userdata(address, Some(WrapperMetatable(h.kind)), Wrapped(h))
  }

  /** A wrapper passes `CheckObject` under its own class name and fails
      under any other, reporting its class. */
  lemma WrapperChecks(address: nat, h: Handle, idx: int, name: string)
    ensures Provenance(WrapperValue(address, h))
    ensures CheckObject(WrapperValue(address, h), idx, name)
         == if name == ClassName(h.kind) then Ok(h) else Raised(WrongOpenCLClass(name, idx, ClassName(h.kind)))
  {
    CStringOfPlain(Marker);
  }

  /** A string without NUL compares as itself. */
  lemma {:induction false} CStringOfPlain(s: string)
    requires '\0' !in s
    ensures CString(s) == s
  {
    if |s| > 0 {
      CStringOfPlain(s[1..]);
    }
  }

  // ---------------------------------------------------------------------
  // CallMethod

  /** `lua_touserdata`: the block address of a full userdata, the pointer of
      a light one, nothing for any other value. */
  function ToUserdata(v: LuaValue): Option<nat>
  {
    match v
    case Userdata(a, _, _) => Some(a)
    case LightUserdata(p) => Some(p)
    case _ => None
  }

  /** The arguments a method sees: the first is dropped when it is the
      object the closure is bound to (a call written `obj:method(...)`). */
  function MethodArguments(bound: nat, args: seq<LuaValue>): (seen: seq<LuaValue>)
    ensures |args| > 0 && ToUserdata(args[0]) == Some(bound) ==> seen == args[1..]
    ensures !(|args| > 0 && ToUserdata(args[0]) == Some(bound)) ==> seen == args
  {
    if |args| > 0 && ToUserdata(args[0]) == Some(bound) then args[1..] else args
  }

  /** `obj:m(a...)` and `obj.m(a...)` reach the method with the same
      arguments, unless the first of `a` is the object itself. */
  lemma ColonAndDotAgree(bound: nat, self: LuaValue, rest: seq<LuaValue>)
    requires ToUserdata(self) == Some(bound)
    requires |rest| == 0 || ToUserdata(rest[0]) != Some(bound)
    ensures MethodArguments(bound, [self] + rest) == rest
    ensures MethodArguments(bound, rest) == rest
  {
    assert ([self] + rest)[1..] == rest;
  }
}
