/**
 * How the download and concat loops consume `read_out_time`: every value
 * up to the first -1 sets the progress bar's `completed`, which starts at
 * 0, and the loop breaks at the -1. An exception the generator raises
 * before any -1 escapes from the loop.
 *
 * The outcome of one ffmpeg child is given as data: the lines it writes
 * to stdout, its exit code, whether it left its output file behind, and
 * for a segment what the duration probe reports.
 */
module Progress {
  import opened Wrappers
  import opened Strings
  import opened Util

  /**
   * One segment download: stdout lines, exit code, the duration probe's
   * answer (None or 0 is falsy), and whether a child that failed still
   * created its output file.
   */
  datatype SegmentRun = SegmentRun(lines: seq<string>, exitCode: int, probed: Option<int>, created: bool) {
    /** ffmpeg that exits with 0 has written its output; one that failed (a bad URL, a 403) may not have. */
    predicate Wrote() {
      exitCode == 0 || created
    }
  }

  /** One concat run: stdout lines, exit code, and whether a failed child still created its output file. */
  datatype ConcatRun = ConcatRun(lines: seq<string>, exitCode: int, created: bool) {
    /** ffmpeg that exits with 0 has written its output; one that failed may not have. */
    predicate Wrote() {
      exitCode == 0 || created
    }
  }

  /** The loop over the values, `last` being the bar's current `completed`. */
  function Track(values: seq<int>, last: int, error: Option<ProgressError>): Result<int, ProgressError> {
    if values == [] then
      if error.Some? then Err(error.value) else Ok(last)
    else if values[0] == -1 then Ok(last)
    else Track(values[1..], values[0], error)
  }

  /** The bar's `completed` after the loop, or the exception that escaped it. */
  function Consumed(r: ReadOut): Result<int, ProgressError> {
    Track(r.values, 0, r.error)
  }

  /** Position of the first -1, or the number of values when there is none. */
  function FirstSentinel(values: seq<int>): (k: nat)
    ensures k <= |values|
    ensures k < |values| ==> values[k] == -1
    ensures forall j :: 0 <= j < k ==> values[j] != -1
  {
    if values == [] || values[0] == -1 then 0 else 1 + FirstSentinel(values[1..])
  }

  /**
   * The consumer's loop over what the generator yields: update on each
   * value, break at -1, let a raised exception through.
   */
  method ConsumeProgress(r: ReadOut) returns (res: Result<int, ProgressError>)
    ensures res == Consumed(r)
  {
    var completed := 0;
    var i := 0;
    while i < |r.values|
      invariant 0 <= i <= |r.values|
      invariant Track(r.values[i..], completed, r.error) == Consumed(r)
    {
      assert r.values[i..][1..] == r.values[i + 1..];
      var outTime := r.values[i];
      if outTime == -1 {
        return Ok(completed);
      }
      completed := outTime;
      i := i + 1;
    }
    assert r.values[i..] == [];
    if r.error.Some? {
      return Err(r.error.value);
    }
    return Ok(completed);
  }

  /** The loop fails exactly when the generator raised before yielding any -1. */
  lemma {:induction false} TrackFails(values: seq<int>, last: int, error: Option<ProgressError>)
    ensures Track(values, last, error).Err? <==> -1 !in values && error.Some?
  {
    if values != [] && values[0] != -1 {
      TrackFails(values[1..], values[0], error);
      assert values == [values[0]] + values[1..];
    }
  }

  /**
   * When it does not fail, the result is the value yielded just before
   * the first -1, or the starting value when -1 comes first.
   */
  lemma {:induction false} TrackValue(values: seq<int>, last: int, error: Option<ProgressError>)
    requires Track(values, last, error).Ok?
    ensures var k := FirstSentinel(values);
      Track(values, last, error).value == if k == 0 then last else values[k - 1]
  {
    if values != [] && values[0] != -1 {
      TrackValue(values[1..], values[0], error);
      var k := FirstSentinel(values[1..]);
      if k > 0 {
        assert values[1..][k - 1] == values[k];
      }
    }
  }

  /** Both facts for a whole stream, starting from 0. */
  lemma ConsumedMeaning(r: ReadOut)
    ensures Consumed(r).Err? <==> -1 !in r.values && r.error.Some?
    ensures Consumed(r).Ok? ==>
      var k := FirstSentinel(r.values);
      Consumed(r).value == if k == 0 then 0 else r.values[k - 1]
  {
    TrackFails(r.values, 0, r.error);
    if Consumed(r).Ok? {
      TrackValue(r.values, 0, r.error);
    }
  }

  /**
   * A child that reports times `ts` then `progress=end` leaves the bar at
   * its last time in milliseconds, or at 0 when it reported none.
   */
  lemma ConsumedOfTimes(ts: seq<nat>, tail: seq<string>)
    ensures Consumed(ProgressValues(TimeLines(ts) + ["progress=end"] + tail))
      == Ok(if ts == [] then 0 else ts[|ts| - 1] / 1000)
  {
    ProgressOfTimes(ts, tail);
    var vs := AllMillis(ts) + [-1];
    SentinelAfterMillis(ts);
    ConsumedMeaning(ReadOut(vs, None));
    if ts != [] {
      assert vs[|ts| - 1] == ts[|ts| - 1] / 1000;
    }
  }

  lemma SentinelAfterMillis(ts: seq<nat>)
    ensures FirstSentinel(AllMillis(ts) + [-1]) == |ts|
  {
    var vs := AllMillis(ts) + [-1];
    var k := FirstSentinel(vs);
    assert forall j :: 0 <= j < |ts| ==> vs[j] == ts[j] / 1000 >= 0;
    assert vs[|ts|] == -1;
  }
}
