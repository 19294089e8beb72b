// The accounting of a parameterized batch: `execute_ext` after its workers.
module ExecuteExt {
  import opened Common
  import opened Completion

  datatype Response = Response(bytesProcessed: Option<nat>, bytesBilled: Option<nat>, slotMs: Option<nat>,
                               rowsAffected: Option<nat>)

  /** What `_run_one` hands back for one variable set. */
  datatype Ran = Succeeded(response: Response) | Failed(error: string)

  datatype Batch = Aggregated(succeeded: nat, totals: Response) | Incomplete(failed: set<nat>)

  function OrZero(o: Option<nat>): nat { if o.Some? then o.value else 0 }

  /** Python's `total or None`. */
  function OrNone(n: nat): Option<nat> { if n == 0 then None else Some(n) }

  function Sum(values: seq<Option<nat>>): nat {
    if values == [] then 0 else Sum(values[..|values| - 1]) + OrZero(values[|values| - 1])
  }

  predicate AllSucceed(runs: seq<Ran>) { forall i :: 0 <= i < |runs| ==> runs[i].Succeeded? }

  function Responses(runs: seq<Ran>): (r: seq<Response>)
    requires AllSucceed(runs)
    ensures |r| == |runs| && forall i :: 0 <= i < |r| ==> r[i] == runs[i].response
  {
    seq(|runs|, i requires 0 <= i < |runs| => runs[i].response)
  }

  function Field(rs: seq<Response>, f: Response -> Option<nat>): seq<Option<nat>> {
    seq(|rs|, i requires 0 <= i < |rs| => f(rs[i]))
  }

  /** The aggregated response: each counter summed over all responses, zero shown as None. */
  function Totals(rs: seq<Response>): Response {
    Response(
      OrNone(Sum(Field(rs, (r: Response) => r.bytesProcessed))),
      OrNone(Sum(Field(rs, (r: Response) => r.bytesBilled))),
      OrNone(Sum(Field(rs, (r: Response) => r.slotMs))),
      OrNone(Sum(Field(rs, (r: Response) => r.rowsAffected))))
  }

  /** Every counter is conserved when a batch is cut in two. */
  lemma {:induction false} SumSplits(a: seq<Option<nat>>, b: seq<Option<nat>>)
    ensures Sum(a + b) == Sum(a) + Sum(b)
  {
    if b == [] {
      assert a + b == a;
    } else {
      SumSplits(a, b[..|b| - 1]);
      assert (a + b)[..|a + b| - 1] == a + b[..|b| - 1];
    }
  }

  /** A counter that is shown: absent and zero look alike. */
  predicate Shows(total: Option<nat>, n: nat) { total == if n == 0 then None else Some(n) }

  predicate CountsAs(counter: Option<nat>, n: nat) { counter == Some(n) || (counter.None? && n == 0) }

  /** Of a single response every total shows that response's own counter. */
  lemma TotalsOfOne(r: Response, processed: nat, billed: nat, slots: nat, rows: nat)
    requires CountsAs(r.bytesProcessed, processed) && CountsAs(r.bytesBilled, billed)
    requires CountsAs(r.slotMs, slots) && CountsAs(r.rowsAffected, rows)
    ensures var t := Totals([r]);
      && Shows(t.bytesProcessed, processed) && Shows(t.bytesBilled, billed)
      && Shows(t.slotMs, slots) && Shows(t.rowsAffected, rows)
  {
    SumOfOne(r.bytesProcessed);
    SumOfOne(r.bytesBilled);
    SumOfOne(r.slotMs);
    SumOfOne(r.rowsAffected);
    assert Field([r], (r: Response) => r.bytesProcessed) == [r.bytesProcessed];
    assert Field([r], (r: Response) => r.bytesBilled) == [r.bytesBilled];
    assert Field([r], (r: Response) => r.slotMs) == [r.slotMs];
    assert Field([r], (r: Response) => r.rowsAffected) == [r.rowsAffected];
  }

  lemma SumOfOne(o: Option<nat>)
    ensures Sum([o]) == OrZero(o)
  {
    assert [o][..0] == [];
  }

  /** The first total shows the sum of what the other two stand for. */
  ghost predicate AddsUp(total: Option<nat>, a: Option<nat>, b: Option<nat>) {
    exists m: nat, n: nat :: Shows(a, m) && Shows(b, n) && Shows(total, m + n)
  }

  /** Of a batch cut in two every total is the sum of the totals of that counter. */
  lemma TotalsAddUp(a: seq<Response>, b: seq<Response>)
    ensures var t, x, y := Totals(a + b), Totals(a), Totals(b);
      && AddsUp(t.bytesProcessed, x.bytesProcessed, y.bytesProcessed)
      && AddsUp(t.bytesBilled, x.bytesBilled, y.bytesBilled)
      && AddsUp(t.slotMs, x.slotMs, y.slotMs)
      && AddsUp(t.rowsAffected, x.rowsAffected, y.rowsAffected)
  {
    FieldAddsUp(a, b, (r: Response) => r.bytesProcessed);
    FieldAddsUp(a, b, (r: Response) => r.bytesBilled);
    FieldAddsUp(a, b, (r: Response) => r.slotMs);
    FieldAddsUp(a, b, (r: Response) => r.rowsAffected);
  }

  lemma FieldAddsUp(a: seq<Response>, b: seq<Response>, f: Response -> Option<nat>)
    ensures AddsUp(OrNone(Sum(Field(a + b, f))), OrNone(Sum(Field(a, f))), OrNone(Sum(Field(b, f))))
  {
    SumSplits(Field(a, f), Field(b, f));
    assert Field(a + b, f) == Field(a, f) + Field(b, f);
    var m, n := Sum(Field(a, f)), Sum(Field(b, f));
    assert Shows(OrNone(m), m) && Shows(OrNone(n), n) && Shows(OrNone(m + n), m + n);
  }

  function Failures(runs: seq<Ran>): set<nat> { set i | 0 <= i < |runs| && runs[i].Failed? }

  /** Files every finished run; the keys of the two maps split the index set. */
  method Collect(runs: seq<Ran>, completion: seq<nat>)
    returns (results: map<nat, Response>, errors: map<nat, string>)
    requires IsOrderOf(completion, |runs|)
    ensures results.Keys !! errors.Keys
    ensures forall i :: 0 <= i < |runs| <==> i in results.Keys + errors.Keys
    ensures forall i :: i in results ==> i < |runs| && runs[i] == Succeeded(results[i])
    ensures forall i :: i in errors ==> i < |runs| && runs[i] == Failed(errors[i])
  {
    results, errors := map[], map[];
    for n := 0 to |completion|
      invariant forall k :: 0 <= k < n ==> completion[k] in results.Keys + errors.Keys
      invariant forall i :: i in results ==> i < |runs| && runs[i] == Succeeded(results[i])
      invariant forall i :: i in errors ==> i < |runs| && runs[i] == Failed(errors[i])
    {
      var index := completion[n];
      match runs[index]
      case Failed(e) => errors := errors[index := e];
      case Succeeded(r) => results := results[index := r];
    }
    forall i | 0 <= i < |runs| ensures i in results.Keys + errors.Keys { assert i in completion; }
  }

  /** Returns only if every set succeeded, with totals over all of them; otherwise reports
      exactly the failed ones. The completion order has no influence. */
  method ExecuteBatch(runs: seq<Ran>, completion: seq<nat>) returns (b: Batch)
    requires IsOrderOf(completion, |runs|)
    ensures b.Aggregated? <==> AllSucceed(runs)
    ensures b.Aggregated? ==> b.succeeded == |runs| && b.totals == Totals(Responses(runs))
    ensures b.Incomplete? ==> b.failed == Failures(runs) && b.failed != {}
  {
    if |runs| == 0 {
      return Aggregated(0, Response(None, None, None, None));
    }
    var results, errors := Collect(runs, completion);
    forall i ensures i in errors.Keys <==> i in Failures(runs) {
      assert 0 <= i < |runs| <==> i in results.Keys + errors.Keys;
    }
    if errors.Keys != {} {
      var bad :| bad in errors.Keys;
      return Incomplete(errors.Keys);
    }
    assert forall i :: 0 <= i < |runs| ==> i in results.Keys + errors.Keys;
    var ordered: seq<Response> := [];
    for i := 0 to |runs|
      invariant |ordered| == i
      invariant forall k :: 0 <= k < i ==> runs[k] == Succeeded(ordered[k])
    {
      assert i in results.Keys + errors.Keys;
      ordered := ordered + [results[i]];
    }
    assert ordered == Responses(runs);
    b := Aggregated(|runs|, Totals(ordered));
  }
}
