/** The wrapper classes of the binding and the retain balance they keep:
    `pushNewObject` retains once per wrap (LuaOpenCL.cpp:56-62), the `__gc`
    metamethod releases once (LuaOpenCL.cpp:279), and whether a retain or
    release reaches the native library depends on the class
    (LuaOpenCL.cpp:230-231, 293-296, 337-338). The binding is built for
    OpenCL 1.2, so device wrappers issue `clRetainDevice`/`clReleaseDevice`.
    The balance counts those calls; it is the native reference count of a
    context, while the root devices this binding lists ignore both calls. */
module Objects {

  /** The classes deriving from `CLObject`. */
  datatype ClassKind = PlatformClass | DeviceClass | ContextClass

  /** `GetClassName`. */
  function ClassName(c: ClassKind): string
  {
    match c
    case PlatformClass => "platform"
    case DeviceClass => "device"
    case ContextClass => "context"
  }

  lemma ClassNameInjective(a: ClassKind, b: ClassKind)
    ensures ClassName(a) == ClassName(b) <==> a == b
  {
  }

  /** A native OpenCL handle (`cl_platform_id`, `cl_device_id`, `cl_context`). */
  datatype Handle = Handle(kind: ClassKind, id: nat)

  /** The retain balance of every handle: the native retains the binding
      issued on it minus the releases that took effect; a handle missing
      from the map has balance 0. */
  datatype NativeState = NativeState(refs: map<Handle, nat>)

  function Count(s: NativeState, h: Handle): nat
  {
    if h in s.refs then s.refs[h] else 0
  }

  /** Whether the class overrides `Retain`/`Release` with the native calls:
      platforms keep the no-op of the base class. */
  predicate Counted(c: ClassKind)
  {
    c != PlatformClass
  }

  /** `obj->Retain()`. */
  function Retain(s: NativeState, h: Handle): (s': NativeState)
    ensures Count(s', h) == Count(s, h) + (if Counted(h.kind) then 1 else 0)
    ensures forall g :: g != h ==> Count(s', g) == Count(s, g)
  {
    if Counted(h.kind) then NativeState(s.refs[h := Count(s, h) + 1]) else s
  }

  /** `obj->Release()`. Releasing a handle whose count is already 0 fails
      natively; the binding ignores the status, so the count stays 0. */
  function Release(s: NativeState, h: Handle): (s': NativeState)
    ensures Count(s', h) == if Counted(h.kind) && Count(s, h) > 0 then Count(s, h) - 1 else Count(s, h)
    ensures forall g :: g != h ==> Count(s', g) == Count(s, g)
  {
    if Counted(h.kind) && Count(s, h) > 0 then NativeState(s.refs[h := Count(s, h) - 1]) else s
  }

  /** The native side effect of `pushNewObject`: one retain. */
  function Wrap(s: NativeState, h: Handle): NativeState
  {
    Retain(s, h)
  }

  /** The native side effect of the `__gc` metamethod: one release. */
  function Finalize(s: NativeState, h: Handle): NativeState
  {
    Release(s, h)
  }

  /** Wrapping then collecting the wrapper leaves every count unchanged. */
  lemma WrapThenFinalize(s: NativeState, h: Handle)
    ensures forall g :: Count(Finalize(Wrap(s, h), h), g) == Count(s, g)
  {
  }

  /** What a wrapper lifetime can do to the retain balances. */
  datatype Event = WrapEvent(h: Handle) | FinalizeEvent(h: Handle)

  function Step(s: NativeState, e: Event): NativeState
  {
    match e
    case WrapEvent(h) => Wrap(s, h)
    case FinalizeEvent(h) => Finalize(s, h)
  }

  /** The state after the events, in order. */
  function Replay(s: NativeState, events: seq<Event>): NativeState
  {
    if |events| == 0 then s else Step(Replay(s, events[..|events| - 1]), events[|events| - 1])
  }

  function Wraps(events: seq<Event>, h: Handle): nat
  {
    if |events| == 0 then 0
    else Wraps(events[..|events| - 1], h) + (if events[|events| - 1] == WrapEvent(h) then 1 else 0)
  }

  function Finalizes(events: seq<Event>, h: Handle): nat
  {
    if |events| == 0 then 0
    else Finalizes(events[..|events| - 1], h) + (if events[|events| - 1] == FinalizeEvent(h) then 1 else 0)
  }

  /** No prefix of the events collects more wrappers of `h` than the
      references it started with plus those wrapped so far. */
  predicate NeverOverReleased(s: NativeState, events: seq<Event>, h: Handle)
  {
    forall n :: 0 <= n <= |events| ==> Finalizes(events[..n], h) <= Count(s, h) + Wraps(events[..n], h)
  }

  /** Reference accounting: a counted handle ends with its starting count
      plus one per wrap minus one per collection; a platform's count never
      moves. */
  lemma {:induction false} RunAccounting(s: NativeState, events: seq<Event>, h: Handle)
    requires NeverOverReleased(s, events, h)
    ensures Counted(h.kind) ==> Count(Replay(s, events), h) == Count(s, h) + Wraps(events, h) - Finalizes(events, h)
    ensures !Counted(h.kind) ==> Count(Replay(s, events), h) == Count(s, h)
  {
    if |events| > 0 {
      var n := |events| - 1;
      var front := events[..n];
      assert NeverOverReleased(s, front, h) by {
        forall m | 0 <= m <= |front|
          ensures Finalizes(front[..m], h) <= Count(s, h) + Wraps(front[..m], h)
        {
          assert front[..m] == events[..m];
        }
      }
      RunAccounting(s, front, h);
      assert events[..|events|] == events;
    }
  }

  /** Wrapping a handle `n` times and collecting every wrapper restores
      its count. */
  lemma BalancedLifetimes(s: NativeState, events: seq<Event>, h: Handle)
    requires NeverOverReleased(s, events, h)
    requires Wraps(events, h) == Finalizes(events, h)
    ensures Count(Replay(s, events), h) == Count(s, h)
  {
    RunAccounting(s, events, h);
  }
}
