/** `error_check` (LuaOpenCL.cpp:844-858): translating a native status code
    into a raised message through `error_info_list`. */
module Errors {

  import opened Results

  /** `CL_SUCCESS`. */
  const Success: int := 0

  /** One row of `error_info_list`: a status code and its message. */
  datatype ErrorRow = ErrorRow(code: int, message: string)

  const UnknownError: string := "unknown error"

  /** A native status code with the call's output. */
  datatype Reply<T> = Reply(code: int, out: T)

  /** The status codes the table knows. */
  predicate Known(table: seq<ErrorRow>, code: int)
  {
    exists k :: 0 <= k < |table| && table[k].code == code
  }

  /** Index of the first row at or after `i` with status `code`, or `|table|`. */
  function FirstWithCode(table: seq<ErrorRow>, code: int, i: nat): (k: nat)
    requires i <= |table|
    ensures i <= k <= |table|
    ensures forall j :: i <= j < k ==> table[j].code != code
    ensures k < |table| ==> table[k].code == code
    decreases |table| - i
  {
    if i == |table| || table[i].code == code then i else FirstWithCode(table, code, i + 1)
  }

  /** The message `error_check` formats: that of the first row with the
      code, or "unknown error" when no row has it. */
  function Translate(table: seq<ErrorRow>, code: int): (msg: string)
    ensures Known(table, code) ==>
      exists k :: 0 <= k < |table| && table[k].code == code && msg == table[k].message
                  && forall j :: 0 <= j < k ==> table[j].code != code
    ensures !Known(table, code) ==> msg == UnknownError
  {
    var k := FirstWithCode(table, code, 0);
    if k < |table| then table[k].message else UnknownError
  }

  /** `error_check`: success returns normally; any other code raises
      "OpenCL: <message>". */
  function ErrorCheck(table: seq<ErrorRow>, code: int): (r: Result<()>)
    ensures r.Ok? <==> code == Success
    ensures code != Success && Known(table, code) ==>
      exists k :: 0 <= k < |table| && table[k].code == code
                  && (forall j :: 0 <= j < k ==> table[j].code != code)
                  && r == Raised(OpenCLError("OpenCL: " + table[k].message))
    ensures code != Success && !Known(table, code) ==> r == Raised(OpenCLError("OpenCL: " + UnknownError))
  {
    if code == Success then Ok(()) else Raised(OpenCLError("OpenCL: " + Translate(table, code)))
  }

  /** A row whose code no earlier row carries gives the message. */
  lemma TranslateAt(table: seq<ErrorRow>, code: int, k: nat)
    requires k < |table| && table[k].code == code
    requires forall j :: 0 <= j < k ==> table[j].code != code
    ensures Translate(table, code) == table[k].message
  {
    var m := Translate(table, code);
    var k' :| 0 <= k' < |table| && table[k'].code == code && m == table[k'].message
              && forall j :: 0 <= j < k' ==> table[j].code != code;
    assert k' == k;
  }
}
