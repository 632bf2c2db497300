/** `push_info` (LuaOpenCL.cpp:104-142): for every row of a category, ask
    the native query for the size of the parameter, have it fill a buffer
    of that size, decode the buffer and store the value under the row's
    name. The native query is a pair of oracles fixed for one object (and,
    in the second overload, one device): `probe` answers the size request
    and `fill` the request with a buffer.

    The loop is first stated over an arbitrary per-row step (`Fetch`), so
    that its laws do not depend on what the decoders do; `PushInfo` then
    instantiates the step with the two native calls and the row's decoder. */
module Query {

  import opened Results
  import opened Bytes
  import opened Errors
  import opened Catalog
  import opened Objects
  import opened Decoders
  import opened Schema

  /** The native calls a query makes, in order. */
  datatype Call = ProbeCall(param: int) | FillCall(param: int, size: nat)

  /** What one row yields, and the native calls it makes. */
  type Step = InfoRow -> Result<Decoded>
  type CallsOf = InfoRow -> seq<Call>

  /** The calls made, the handles wrapped and the table built or the
      error raised. */
  datatype Outcome = Outcome(calls: seq<Call>, wrapped: seq<Handle>, result: Result<map<string, InfoValue>>)

  /** One iteration of the loop, after the previous rows succeeded: the row's
      value is stored under its name, replacing an earlier row's. */
  function Visit(prev: Outcome, row: InfoRow, step: Step, callsOf: CallsOf): Outcome
    requires prev.result.Ok?
  {
    var calls := prev.calls + callsOf(row);
    match step(row)
    case Raised(f) => Outcome(calls, prev.wrapped, Raised(f))
    case Ok(d) => Outcome(calls, prev.wrapped + d.wrapped, Ok(prev.result.value[row.name := d.value]))
  }

  /** The loop over `rows`; the first error ends it. */
  function Fetch(rows: seq<InfoRow>, step: Step, callsOf: CallsOf): Outcome
  {
    if |rows| == 0 then Outcome([], [], Ok(map[]))
    else
      var prev := Fetch(rows[..|rows| - 1], step, callsOf);
      if prev.result.Raised? then prev
      else Visit(prev, rows[|rows| - 1], step, callsOf)
  }

  /** Every row goes through. */
  predicate AllOk(rows: seq<InfoRow>, step: Step)
  {
    forall k :: 0 <= k < |rows| ==> step(rows[k]).Ok?
  }

  /** The calls of rows that all go through, in row order. */
  function AllCalls(rows: seq<InfoRow>, callsOf: CallsOf): seq<Call>
  {
    if |rows| == 0 then [] else AllCalls(rows[..|rows| - 1], callsOf) + callsOf(rows[|rows| - 1])
  }

  /** The handles the rows wrap, in row order. */
  function AllWrapped(rows: seq<InfoRow>, step: Step): seq<Handle>
    requires AllOk(rows, step)
  {
    if |rows| == 0 then []
    else
      PrefixOk(rows, step, |rows| - 1);
      AllWrapped(rows[..|rows| - 1], step) + step(rows[|rows| - 1]).value.wrapped
  }

  /** Row `k` is the first that does not go through. */
  predicate FirstBad(rows: seq<InfoRow>, step: Step, k: nat)
  {
    && k < |rows|
    && step(rows[k]).Raised?
    && AllOk(rows[..k], step)
  }

  lemma PrefixOk(rows: seq<InfoRow>, step: Step, n: nat)
    requires n <= |rows|
    requires AllOk(rows, step)
    ensures AllOk(rows[..n], step)
  {
    forall k | 0 <= k < n ensures step(rows[..n][k]).Ok? {
      assert rows[..n][k] == rows[k];
    }
  }

  /** The loop completes exactly when every row goes through; it then made
      every row's calls in order and wrapped every row's handles in order. */
  lemma {:induction false} FetchSucceedsIff(rows: seq<InfoRow>, step: Step, callsOf: CallsOf)
    ensures Fetch(rows, step, callsOf).result.Ok? <==> AllOk(rows, step)
    ensures Fetch(rows, step, callsOf).result.Ok? ==>
      && Fetch(rows, step, callsOf).calls == AllCalls(rows, callsOf)
      && Fetch(rows, step, callsOf).wrapped == AllWrapped(rows, step)
  {
    if |rows| > 0 {
      var n := |rows| - 1;
      var front := rows[..n];
      FetchSucceedsIff(front, step, callsOf);
      if AllOk(rows, step) {
        PrefixOk(rows, step, n);
      } else if AllOk(front, step) {
        assert !step(rows[n]).Ok? by {
          forall k | 0 <= k < n ensures step(rows[k]).Ok? {
            assert front[k] == rows[k];
          }
        }
      } else {
        var k :| 0 <= k < n && !step(front[k]).Ok?;
        assert front[k] == rows[k];
      }
    }
  }

  /** A loop that fails raises the failure of the first row that does not
      go through, after the calls of the rows up to and including it. */
  lemma {:induction false} FetchFailsAtFirstBad(rows: seq<InfoRow>, step: Step, callsOf: CallsOf)
    requires Fetch(rows, step, callsOf).result.Raised?
    ensures exists k: nat :: (FirstBad(rows, step, k)
      && Fetch(rows, step, callsOf).result == Raised(step(rows[k]).failure)
      && Fetch(rows, step, callsOf).calls == AllCalls(rows[..k + 1], callsOf))
  {
    var n := |rows| - 1;
    var front := rows[..n];
    var prev := Fetch(front, step, callsOf);
    if prev.result.Raised? {
      FetchFailsAtFirstBad(front, step, callsOf);
      var k: nat :| FirstBad(front, step, k)
        && prev.result == Raised(step(front[k]).failure)
        && prev.calls == AllCalls(front[..k + 1], callsOf);
      assert front[k] == rows[k];
      assert front[..k] == rows[..k];
      assert front[..k + 1] == rows[..k + 1];
      assert FirstBad(rows, step, k);
    } else {
      FetchSucceedsIff(front, step, callsOf);
      assert rows[..n + 1] == rows;
      assert FirstBad(rows, step, n);
    }
  }

  /** The keys of the table built are exactly the rows' names. */
  lemma {:induction false} FetchKeys(rows: seq<InfoRow>, step: Step, callsOf: CallsOf)
    requires Fetch(rows, step, callsOf).result.Ok?
    ensures Fetch(rows, step, callsOf).result.value.Keys == set k | 0 <= k < |rows| :: rows[k].name
  {
    if |rows| > 0 {
      var n := |rows| - 1;
      var front := rows[..n];
      FetchKeys(front, step, callsOf);
      var before := set k | 0 <= k < n :: front[k].name;
      var after := set k | 0 <= k < |rows| :: rows[k].name;
      assert after == before + {rows[n].name} by {
        forall x | x in after ensures x in before + {rows[n].name} {
          var k :| 0 <= k < |rows| && rows[k].name == x;
          if k < n {
            assert front[k] == rows[k];
          }
        }
        forall x | x in before ensures x in after {
          var k :| 0 <= k < n && front[k].name == x;
          assert front[k] == rows[k];
        }
      }
    }
  }

  /** No later row has the same name as row `k`. */
  predicate LastOfName(rows: seq<InfoRow>, k: nat)
    requires k < |rows|
  {
    forall j :: k < j < |rows| ==> rows[j].name != rows[k].name
  }

  /** Under a name shared by several rows the table holds the value of the
      last of them (`lua_setfield` overwrites). */
  lemma {:induction false} FetchLaterRowWins(rows: seq<InfoRow>, step: Step, callsOf: CallsOf, k: nat)
    requires Fetch(rows, step, callsOf).result.Ok?
    requires k < |rows| && LastOfName(rows, k)
    ensures step(rows[k]).Ok?
    ensures rows[k].name in Fetch(rows, step, callsOf).result.value
    ensures Fetch(rows, step, callsOf).result.value[rows[k].name] == step(rows[k]).value.value
  {
    FetchSucceedsIff(rows, step, callsOf);
    var n := |rows| - 1;
    var front := rows[..n];
    FetchSucceedsIff(front, step, callsOf);
    if k < n {
      assert front[k] == rows[k];
      assert LastOfName(front, k) by {
        forall j | k < j < n ensures front[j].name != front[k].name {
          assert front[j] == rows[j];
        }
      }
      FetchLaterRowWins(front, step, callsOf, k);
    }
  }

  // ---------------------------------------------------------------------
  // The native query.

  /** `get_info_fct(id, param, 0, NULL, &size)`. */
  type Probe = int -> Reply<nat>
  /** `get_info_fct(id, param, size, pinfo, NULL)`: the bytes written. */
  type Fill = (int, nat) -> Reply<seq<Byte>>

  /** What one row of `push_info` yields: the probe status is checked, then
      the fill status, then the buffer of the probed size is decoded. */
  function RowResult(catalog: seq<EnumRow>, errors: seq<ErrorRow>, probe: Probe, fill: Fill, row: InfoRow): Result<Decoded>
  {
    var size := probe(row.id).out;
    var probed :- ErrorCheck(errors, probe(row.id).code);
    var filled :- ErrorCheck(errors, fill(row.id, size).code);
    Decode(catalog, row.decoder, Fit(fill(row.id, size).out, size))
  }

  /** The calls one row makes: the fill only after a successful probe. */
  function RowCalls(probe: Probe, row: InfoRow): seq<Call>
  {
    if probe(row.id).code != Success then [ProbeCall(row.id)]
    else [ProbeCall(row.id), FillCall(row.id, probe(row.id).out)]
  }

  /** The step of `push_info`'s loop. */
  function QueryStep(catalog: seq<EnumRow>, errors: seq<ErrorRow>, probe: Probe, fill: Fill): Step
  {
    row => RowResult(catalog, errors, probe, fill, row)
  }

  function QueryCalls(probe: Probe): CallsOf
  {
    row => RowCalls(probe, row)
  }

  /** `push_info` on category `c`. */
  function PushInfo(catalog: seq<EnumRow>, errors: seq<ErrorRow>, rows: seq<InfoRow>, bounds: seq<int>,
                    c: Category, probe: Probe, fill: Fill): Outcome
    requires WellFormed(rows, bounds)
  {
    var r := InfoRange(rows, bounds, c);
    Fetch(rows[r.start .. r.start + r.count], QueryStep(catalog, errors, probe, fill), QueryCalls(probe))
  }

  /** `push_info` is the query loop over its category's slice of rows. */
  lemma PushInfoFetches(catalog: seq<EnumRow>, errors: seq<ErrorRow>, rows: seq<InfoRow>, bounds: seq<int>,
                        c: Category, probe: Probe, fill: Fill)
    requires WellFormed(rows, bounds)
    ensures var r := InfoRange(rows, bounds, c);
      PushInfo(catalog, errors, rows, bounds, c, probe, fill)
        == Fetch(rows[r.start .. r.start + r.count], QueryStep(catalog, errors, probe, fill), QueryCalls(probe))
  {
  }

  /** Every fill follows the probe of the same parameter and asks for the
      size that probe returned. */
  predicate Paired(calls: seq<Call>, probe: Probe)
  {
    forall i :: 0 <= i < |calls| && calls[i].FillCall? ==>
      i > 0 && calls[i - 1] == ProbeCall(calls[i].param) && calls[i].size == probe(calls[i].param).out
  }

  lemma PairedAppend(a: seq<Call>, b: seq<Call>, probe: Probe)
    requires Paired(a, probe) && Paired(b, probe)
    ensures Paired(a + b, probe)
  {
    forall i | 0 <= i < |a + b| && (a + b)[i].FillCall?
      ensures i > 0 && (a + b)[i - 1] == ProbeCall((a + b)[i].param)
    {
      if i >= |a| {
        assert (a + b)[i] == b[i - |a|];
        assert (a + b)[i - 1] == b[i - 1 - |a|];
      }
    }
  }

  /** The calls of any prefix of the rows are paired. */
  lemma {:induction false} AllCallsPaired(rows: seq<InfoRow>, probe: Probe)
    ensures Paired(AllCalls(rows, QueryCalls(probe)), probe)
  {
    if |rows| > 0 {
      AllCallsPaired(rows[..|rows| - 1], probe);
      PairedAppend(AllCalls(rows[..|rows| - 1], QueryCalls(probe)), RowCalls(probe, rows[|rows| - 1]), probe);
    }
  }

  /** Whether it completes or not, `push_info` fills only after probing
      the same parameter, with the probed size. */
  lemma PushInfoProbesBeforeFill(catalog: seq<EnumRow>, errors: seq<ErrorRow>, rows: seq<InfoRow>, bounds: seq<int>,
                                 c: Category, probe: Probe, fill: Fill)
    requires WellFormed(rows, bounds)
    ensures Paired(PushInfo(catalog, errors, rows, bounds, c, probe, fill).calls, probe)
  {
    var r := InfoRange(rows, bounds, c);
    var slice := rows[r.start .. r.start + r.count];
    var step := QueryStep(catalog, errors, probe, fill);
    var callsOf := QueryCalls(probe);
    var out := Fetch(slice, step, callsOf);
    PushInfoFetches(catalog, errors, rows, bounds, c, probe, fill);
    var done: seq<InfoRow>;
    if out.result.Ok? {
      FetchSucceedsIff(slice, step, callsOf);
      done := slice;
    } else {
      FetchFailsAtFirstBad(slice, step, callsOf);
      var k: nat :| FirstBad(slice, step, k) && out.calls == AllCalls(slice[..k + 1], callsOf);
      done := slice[..k + 1];
    }
    assert out.calls == AllCalls(done, callsOf);
    AllCallsPaired(done, probe);
  }

  /** A row goes through: both native calls return `CL_SUCCESS` and the
      buffer of the probed size decodes. */
  predicate RowGoesThrough(catalog: seq<EnumRow>, probe: Probe, fill: Fill, row: InfoRow)
  {
    var size := probe(row.id).out;
    && probe(row.id).code == Success
    && fill(row.id, size).code == Success
    && Decode(catalog, row.decoder, Fit(fill(row.id, size).out, size)).Ok?
  }

  /** A row's step succeeds exactly when the row goes through; a failed
      status raises the translated OpenCL error. */
  lemma RowResultOk(catalog: seq<EnumRow>, errors: seq<ErrorRow>, probe: Probe, fill: Fill, row: InfoRow)
    ensures QueryStep(catalog, errors, probe, fill)(row).Ok? <==> RowGoesThrough(catalog, probe, fill, row)
    ensures probe(row.id).code != Success ==>
      QueryStep(catalog, errors, probe, fill)(row) == Raised(OpenCLError("OpenCL: " + Translate(errors, probe(row.id).code)))
    ensures probe(row.id).code == Success && fill(row.id, probe(row.id).out).code != Success ==>
      QueryStep(catalog, errors, probe, fill)(row)
        == Raised(OpenCLError("OpenCL: " + Translate(errors, fill(row.id, probe(row.id).out).code)))
    ensures probe(row.id).code == Success && fill(row.id, probe(row.id).out).code == Success ==>
      QueryStep(catalog, errors, probe, fill)(row)
        == Decode(catalog, row.decoder, Fit(fill(row.id, probe(row.id).out).out, probe(row.id).out))
  {
    assert QueryStep(catalog, errors, probe, fill)(row) == RowResult(catalog, errors, probe, fill, row);
  }

  /** The loop of `push_info` completes exactly when each of its rows
      goes through. */
  lemma QueryLoopSucceedsIff(catalog: seq<EnumRow>, errors: seq<ErrorRow>, slice: seq<InfoRow>, probe: Probe, fill: Fill)
    ensures Fetch(slice, QueryStep(catalog, errors, probe, fill), QueryCalls(probe)).result.Ok?
      <==> forall j :: 0 <= j < |slice| ==> RowGoesThrough(catalog, probe, fill, slice[j])
  {
    var step := QueryStep(catalog, errors, probe, fill);
    FetchSucceedsIff(slice, step, QueryCalls(probe));
    forall j | 0 <= j < |slice|
      ensures step(slice[j]).Ok? <==> RowGoesThrough(catalog, probe, fill, slice[j])
    {
      RowResultOk(catalog, errors, probe, fill, slice[j]);
    }
  }

  /** `push_info` builds a table exactly when every row of the category
      goes through. */
  lemma PushInfoSucceedsIff(catalog: seq<EnumRow>, errors: seq<ErrorRow>, rows: seq<InfoRow>, bounds: seq<int>,
                            c: Category, probe: Probe, fill: Fill)
    requires WellFormed(rows, bounds)
    ensures var r := InfoRange(rows, bounds, c);
      PushInfo(catalog, errors, rows, bounds, c, probe, fill).result.Ok?
      <==> forall k :: r.start <= k < r.start + r.count ==> RowGoesThrough(catalog, probe, fill, rows[k])
  {
    var r := InfoRange(rows, bounds, c);
    var slice := rows[r.start .. r.start + r.count];
    PushInfoFetches(catalog, errors, rows, bounds, c, probe, fill);
    QueryLoopSucceedsIff(catalog, errors, slice, probe, fill);
    assert forall j :: 0 <= j < |slice| ==> slice[j] == rows[r.start + j];
    assert (forall j :: 0 <= j < |slice| ==> RowGoesThrough(catalog, probe, fill, slice[j]))
      <==> forall k :: r.start <= k < r.start + r.count ==> RowGoesThrough(catalog, probe, fill, rows[k]) by {
      if forall j :: 0 <= j < |slice| ==> RowGoesThrough(catalog, probe, fill, slice[j]) {
        forall k | r.start <= k < r.start + r.count
          ensures RowGoesThrough(catalog, probe, fill, rows[k])
        {
          assert rows[k] == slice[k - r.start];
        }
      }
    }
  }
}
