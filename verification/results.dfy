/** Failures the binding raises into Lua, and the Result type that carries them.
    Each constructor of Failure stands for one `luaL_error` (or assertion)
    site; its fields are the values the message is formatted from. */
module Results {

  datatype Failure =
      /** `error_check`: "OpenCL: <message>" */
    | OpenCLError(message: string)
      /** `pushEnum`: "unknown enum value = %d"; `shown` is the value as `%d`
          prints it, i.e. the cl_uint reinterpreted as a signed 32-bit int */
    | UnknownEnumValue(shown: int)
      /** `GetEnumValue`: "enumeration value '%s' not found" */
    | EnumValueNotFound(name: string)
      /** `luaL_checktype`: "bad argument #arg (<expected> expected, got <got>)" */
    | BadArgument(arg: int, expected: string, got: string)
      /** `CheckObject`: "expected OpenCL %s object for argument %d, found unknown userdata" */
    | NotOpenCLObject(expectedClass: string, arg: int)
      /** `CheckObject`: "expected OpenCL %s object for argument %d, found %s object" */
    | WrongOpenCLClass(expectedClass: string, arg: int, foundClass: string)
      /** `check_type`: "expected type %s for argument %d, got %s" */
    | TypeMismatch(expectedTypes: string, arg: int, got: string)
      /** the `assert(size == sizeof(T))` of the generic scalar decoder */
    | SizeAssertion(expectedSize: nat, actualSize: nat)
      /** a decoder that reads `needed` bytes without checking the buffer
          size was handed a shorter buffer (an out-of-bounds read in C) */
    | ShortBuffer(needed: nat, actualSize: nat)

  datatype Option<+T> = None | Some(value: T)

  datatype Result<+T> = Ok(value: T) | Raised(failure: Failure) {

    predicate IsFailure() {
      Raised?
    }

    function PropagateFailure<U>(): Result<U>
      requires Raised?
    {
      Raised(failure)
    }

    function Extract(): T
      requires Ok?
    {
      value
    }
  }

  /** A loop that stops at the first failing element: the failure of the
      first `Raised` outcome, or all the values in order. */
  function Collect<T>(rs: seq<Result<T>>): (r: Result<seq<T>>)
  {
    if |rs| == 0 then Ok([])
    else
      var front :- Collect(rs[..|rs| - 1]);
      var x :- rs[|rs| - 1];
      Ok(front + [x])
  }

  /** Outcome `k` is the first failing one. */
  predicate FirstRaised<T>(rs: seq<Result<T>>, k: int)
  {
    && 0 <= k < |rs|
    && rs[k].Raised?
    && forall j :: 0 <= j < k ==> rs[j].Ok?
  }

  /** The loop succeeds exactly when every outcome does, and then yields
      their values in order; otherwise it fails as the first failing
      outcome does. */
  lemma {:induction false} CollectExact<T>(rs: seq<Result<T>>)
    ensures Collect(rs).Ok? <==> forall k :: 0 <= k < |rs| ==> rs[k].Ok?
    ensures Collect(rs).Ok? ==> (|Collect(rs).value| == |rs|
      && forall k :: 0 <= k < |rs| ==> Collect(rs).value[k] == rs[k].value)
    ensures Collect(rs).Raised? ==> exists k :: FirstRaised(rs, k) && Collect(rs).failure == rs[k].failure
  {
    if |rs| > 0 {
      var n := |rs| - 1;
      var front := rs[..n];
      assert forall k :: 0 <= k < n ==> front[k] == rs[k];
      CollectExact(front);
      if Collect(front).Raised? {
        var k :| FirstRaised(front, k) && Collect(front).failure == front[k].failure;
        assert FirstRaised(rs, k);
      } else if rs[n].Raised? {
        assert FirstRaised(rs, n);
      }
    }
  }
}
