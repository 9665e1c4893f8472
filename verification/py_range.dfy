/** Python's built-in `range(start, stop, step)`, which drives the topic-count sweep. */
module PyRange {
  import opened Results

  /** The values of `range(start, stop, step)` for a positive step: `start`, `start + step`, ... while below `stop`. */
  function RangeUp(start: int, stop: int, step: int): (r: seq<int>)
    requires step > 0
    ensures |r| == 0 <==> start >= stop
    ensures forall i :: 0 <= i < |r| ==> r[i] == start + i * step
    ensures forall i :: 0 <= i < |r| ==> r[i] < stop
    ensures |r| > 0 ==> start + |r| * step >= stop
    decreases stop - start
  {
    if start >= stop then []
    else
      var rest := RangeUp(start + step, stop, step);
      assert forall i :: 0 <= i < |rest| ==> start + step + i * step == start + (i + 1) * step;
      assert start + step + |rest| * step == start + (|rest| + 1) * step;
      [start] + rest
  }

  /** The values of `range(start, stop, step)` for a negative step: `start`, `start + step`, ... while above `stop`. */
  function RangeDown(start: int, stop: int, step: int): (r: seq<int>)
    requires step < 0
    ensures |r| == 0 <==> start <= stop
    ensures forall i :: 0 <= i < |r| ==> r[i] == start + i * step
    ensures forall i :: 0 <= i < |r| ==> r[i] > stop
    ensures |r| > 0 ==> start + |r| * step <= stop
    decreases start - stop
  {
    if start <= stop then []
    else
      var rest := RangeDown(start + step, stop, step);
      assert forall i :: 0 <= i < |rest| ==> start + step + i * step == start + (i + 1) * step;
      assert start + step + |rest| * step == start + (|rest| + 1) * step;
      [start] + rest
  }

  /** `range(start, stop, step)`: a zero step raises `ValueError`; otherwise the arithmetic progression up to, not including, `stop`. */
  function Range(start: int, stop: int, step: int): (r: Result<seq<int>>)
    ensures r.Err? <==> step == 0
    ensures r.Ok? ==> forall i :: 0 <= i < |r.value| ==> r.value[i] == start + i * step
    ensures r.Ok? && step > 0 ==> forall i :: 0 <= i < |r.value| ==> r.value[i] < stop
    ensures r.Ok? && step < 0 ==> forall i :: 0 <= i < |r.value| ==> r.value[i] > stop
    ensures r.Ok? && step > 0 ==> start + |r.value| * step >= stop
    ensures r.Ok? && step < 0 ==> start + |r.value| * step <= stop
  {
    if step == 0 then Err(ValueError("range() arg 3 must not be zero"))
    else if step > 0 then Ok(RangeUp(start, stop, step))
    else Ok(RangeDown(start, stop, step))
  }

  /** For a positive step, `k` is swept exactly when it lies in `[start, stop)` and is a whole number of steps past `start`. */
  lemma {:induction false} RangeUpMembership(start: int, stop: int, step: int, k: int, i: nat)
    requires step > 0
    requires k == start + i * step
    ensures k in RangeUp(start, stop, step) <==> k < stop
    decreases stop - start
  {
    var r := RangeUp(start, stop, step);
    if k < stop {
      if i >= |r| {
        assert false;
      }
      assert r[i] == k;
    }
  }

  /** The default sweep schedule `start=2, step=3` with `limit=8` tries 2 and 5 topics. */
  lemma DefaultScheduleExample()
    ensures Range(2, 8, 3) == Ok([2, 5])
  {
    assert RangeUp(8, 8, 3) == [];
    assert RangeUp(5, 8, 3) == [5] + RangeUp(8, 8, 3);
    assert RangeUp(2, 8, 3) == [2] + RangeUp(5, 8, 3);
    assert [2] + [5] == [2, 5];
    assert RangeUp(2, 8, 3) == [2, 5];
    assert Range(2, 8, 3) == Ok(RangeUp(2, 8, 3));
  }

  /** A sweep whose start is not below its limit is empty, without an error. */
  lemma EmptyWhenStartNotBelowLimit(start: int, limit: int, step: int)
    requires step > 0 && start >= limit
    ensures Range(start, limit, step) == Ok([])
  {
  }
}
