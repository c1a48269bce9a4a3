/**
 * The command-line driver: the segment download loop, the concat
 * completion rule, temporary-file cleanup, and the small input parsers.
 *
 * The filesystem is a set of paths. A launched ffmpeg child leaves its
 * output path behind when it exits with 0, and may or may not when it
 * fails; what it prints, its exit code, whether a failed child created
 * its file and what the duration probe says are given per segment by
 * `runs`.
 */
module Cli {
  import opened Wrappers
  import opened Strings
  import opened Util
  import opened Soop
  import opened Manifests
  import opened Progress
  import opened Process

  /** A segment shorter than expected by more than this many milliseconds counts as truncated. */
  const Slack := 160

  /**
   * What ends the segment loop with an exception: the progress reader
   * raised, ffmpeg failed (`ProcessError`), or, as the loop is written,
   * the duration probe is missing from `util` (`AttributeError`).
   */
  datatype PartsFailure = ProgressFailed(error: ProgressError) | SegmentFailed | ProbeMissing

  /** The loop's outcome: segments visited, accumulated progress, and the escaping exception if any. */
  datatype PartsResult = PartsResult(visited: nat, total: int, failure: Option<PartsFailure>)

  /** The segment's length: the duration probe's answer when it is truthy, else the last progress value. */
  function VidLen(probed: Option<int>, completed: int): (v: int)
    ensures probed.Some? && probed.value != 0 ==> v == probed.value
    ensures probed.None? || probed.value == 0 ==> v == completed
  {
    if probed.Some? && probed.value != 0 then probed.value else completed
  }

  /** What the bar shows after segment `j`'s child has finished. */
  function Observed(runs: nat -> SegmentRun, j: nat): Result<int, ProgressError> {
    Consumed(ProgressValues(runs(j).lines))
  }

  /** Segment `j` was read, exited with 0 and is long enough: the loop goes on after it. */
  predicate Complete(items: seq<(string, int)>, runs: nat -> SegmentRun, j: nat)
    requires j < |items|
  {
    var o := Observed(runs, j);
    o.Ok? && runs(j).exitCode == 0 && !(VidLen(runs(j).probed, o.value) < items[j].1 - Slack)
  }

  /** The loop from segment `i` on, with `total` accumulated so far. */
  function PartsFrom(items: seq<(string, int)>, runs: nat -> SegmentRun, i: nat, total: int): (r: PartsResult)
    requires i <= |items|
    ensures i <= r.visited <= |items|
    decreases |items| - i
  {
    if i == |items| then PartsResult(i, total, None)
    else
      match Observed(runs, i)
      case Err(e) => PartsResult(i + 1, total, Some(ProgressFailed(e)))
      case Ok(v) =>
        if runs(i).exitCode != 0 then PartsResult(i + 1, total + v, Some(SegmentFailed))
        else if VidLen(runs(i).probed, v) < items[i].1 - Slack then PartsResult(i + 1, total + v, None)
        else PartsFrom(items, runs, i + 1, total + v)
  }

  /** Sum of the observed values of segments `from` to `to` (exclusive), 0 for one that raised. */
  function ObservedSum(runs: nat -> SegmentRun, from: nat, to: nat): int
    decreases to - from
  {
    if to <= from then 0
    else (var o := Observed(runs, from); if o.Ok? then o.value else 0) + ObservedSum(runs, from + 1, to)
  }

  /** The first segment from `i` on that is not complete, or the number of segments. */
  function FirstIncomplete(items: seq<(string, int)>, runs: nat -> SegmentRun, i: nat): (k: nat)
    requires i <= |items|
    ensures i <= k <= |items|
    ensures forall j :: i <= j < k ==> Complete(items, runs, j)
    ensures k < |items| ==> !Complete(items, runs, k)
    decreases |items| - i
  {
    if i == |items| || !Complete(items, runs, i) then i else FirstIncomplete(items, runs, i + 1)
  }

  /** The exception an incomplete segment raises, if any. */
  function StopCause(runs: nat -> SegmentRun, k: nat): Option<PartsFailure> {
    match Observed(runs, k)
    case Err(e) => Some(ProgressFailed(e))
    case Ok(_) => if runs(k).exitCode != 0 then Some(SegmentFailed) else None
  }

  /**
   * The loop's outcome in terms of the segments. It visits every complete
   * segment and the first incomplete one. That one decides the exception:
   * a reader error, a failed child, or none when it was merely truncated;
   * the loop runs off the end only when all are complete. Every visited
   * segment's last progress value is added to the total, the expected
   * durations never are.
   */
  lemma {:induction false} PartsMeaning(items: seq<(string, int)>, runs: nat -> SegmentRun, i: nat, total: int)
    requires i <= |items|
    ensures var r := PartsFrom(items, runs, i, total);
      var k := FirstIncomplete(items, runs, i);
      && r.visited == (if k < |items| then k + 1 else k)
      && r.total == total + ObservedSum(runs, i, r.visited)
      && (k == |items| ==> r.failure.None?)
      && (k < |items| ==> r.failure == StopCause(runs, k))
    decreases |items| - i
  {
    if i < |items| {
      var o := Observed(runs, i);
      if Complete(items, runs, i) {
        PartsMeaning(items, runs, i + 1, total + o.value);
        var r := PartsFrom(items, runs, i + 1, total + o.value);
        assert PartsFrom(items, runs, i, total) == r;
        assert FirstIncomplete(items, runs, i) == FirstIncomplete(items, runs, i + 1);
        assert ObservedSum(runs, i, r.visited) == o.value + ObservedSum(runs, i + 1, r.visited);
      } else {
        assert FirstIncomplete(items, runs, i) == i;
        assert ObservedSum(runs, i, i + 1) == (if o.Ok? then o.value else 0);
      }
    }
  }

  /**
   * The loop as written. The module `util` defines no `get_duration_ms`,
   * so the first segment whose progress was read and added to the total
   * raises `AttributeError` at the probe, before its exit code is looked
   * at; a reader error raises before that.
   */
  function PartsAsWritten(items: seq<(string, int)>, runs: nat -> SegmentRun, total: int): (r: PartsResult)
    ensures r.visited <= 1 && r.visited <= |items|
  {
    if items == [] then PartsResult(0, total, None)
    else
      match Observed(runs, 0)
      case Err(e) => PartsResult(1, total, Some(ProgressFailed(e)))
      case Ok(v) => PartsResult(1, total + v, Some(ProbeMissing))
  }

  /**
   * As written, the loop never returns for a manifest with a segment: it
   * stops at the first one with an exception, so concat never runs. With
   * the probe in place, `PartsFrom`, a manifest whose segments are all
   * complete is downloaded in full and the loop returns normally.
   */
  lemma ProbeMissingFinding(items: seq<(string, int)>, runs: nat -> SegmentRun)
    requires items != []
    ensures PartsAsWritten(items, runs, 0).visited == 1 && PartsAsWritten(items, runs, 0).failure.Some?
    ensures Observed(runs, 0).Ok? ==> PartsAsWritten(items, runs, 0).failure == Some(ProbeMissing)
    ensures (forall j :: 0 <= j < |items| ==> Complete(items, runs, j)) ==>
      PartsFrom(items, runs, 0, 0).visited == |items| && PartsFrom(items, runs, 0, 0).failure.None?
  {
    PartsMeaning(items, runs, 0, 0);
    if forall j :: 0 <= j < |items| ==> Complete(items, runs, j) {
      assert FirstIncomplete(items, runs, 0) == |items|;
    }
  }

  /** The temporary path every segment starts from: `<cwd>/tmp/<sanitised title>.mp4`. */
  function TmpBase(cwd: string, title: string): string {
    JoinPath(JoinPath(cwd, "tmp"), DeleteSpecChar(title) + ".mp4")
  }

  /** The `k`-th name `get_unique_filename` tries for `base`: `base` itself, then its numbered forms. */
  function Named(base: string, k: nat): string {
    if k == 0 then base else NumberedPath(base, k)
  }

  /** `p` is one of the names `get_unique_filename` can make of `base`. */
  ghost predicate NameFor(p: string, base: string) {
    exists k: nat :: p == Named(base, k)
  }

  /**
   * A temporary part and an output file never share a path: every name
   * made from `<cwd>/tmp/<file>` has its last `/` just after `tmp`,
   * further right than any name made from `<cwd>/<file>` has one.
   */
  lemma NamesApart(cwd: string, file: string, j: nat, k: nat)
    requires '/' !in file
    ensures Named(JoinPath(JoinPath(cwd, "tmp"), file), j) != Named(JoinPath(cwd, file), k)
  {
    var pre := JoinPrefix(cwd);
    var dir := pre + "tmp/";
    JoinRelative(cwd, "tmp");
    JoinRelative(pre + "tmp", file);
    JoinRelative(cwd, file);
    assert JoinPrefix(pre + "tmp") == dir;
    if j == 0 { LastSlashAt(dir, file); } else { NumberedLastSlash(dir, file, j); }
    if k == 0 { LastSlashAt(pre, file); } else { NumberedLastSlash(pre, file, k); }
  }

  /**
   * The same loop over the first `|items|` runs, with the progress the
   * bar showed after segment `j` given as `see[j]`.
   */
  function PartsOn(items: seq<(string, int)>, runs: seq<SegmentRun>, see: seq<Result<int, ProgressError>>, i: nat, total: int)
    : PartsResult
    requires i <= |items| == |runs| == |see|
    decreases |items| - i
  {
    if i == |items| then PartsResult(i, total, None)
    else
      match see[i]
      case Err(e) => PartsResult(i + 1, total, Some(ProgressFailed(e)))
      case Ok(v) =>
        if runs[i].exitCode != 0 then PartsResult(i + 1, total + v, Some(SegmentFailed))
        else if VidLen(runs[i].probed, v) < items[i].1 - Slack then PartsResult(i + 1, total + v, None)
        else PartsOn(items, runs, see, i + 1, total + v)
  }

  /**
   * One step of the loop from segment `i`, whose outcome is `r`, as the
   * method takes it; `next` is the total once segment `i`'s value is added.
   */
  lemma PartsOnStep(items: seq<(string, int)>, runs: seq<SegmentRun>, see: seq<Result<int, ProgressError>>, i: nat,
                    before: int, next: int, r: PartsResult)
    requires i < |items| == |runs| == |see|
    requires PartsOn(items, runs, see, i, before) == r
    requires see[i].Ok? ==> next == before + see[i].value
    ensures see[i].Err? ==> r == PartsResult(i + 1, before, Some(ProgressFailed(see[i].error)))
    ensures see[i].Ok? && runs[i].exitCode != 0 ==> r == PartsResult(i + 1, next, Some(SegmentFailed))
    ensures see[i].Ok? && runs[i].exitCode == 0 && VidLen(runs[i].probed, see[i].value) < items[i].1 - Slack
      ==> r == PartsResult(i + 1, next, None)
    ensures see[i].Ok? && runs[i].exitCode == 0 && !(VidLen(runs[i].probed, see[i].value) < items[i].1 - Slack)
      ==> PartsOn(items, runs, see, i + 1, next) == r
  {
  }

  /** With the runs and their own progress, it is the loop above. */
  lemma {:induction false} PartsOnObserved(items: seq<(string, int)>, runs: nat -> SegmentRun, i: nat, total: int)
    requires i <= |items|
    ensures PartsOn(items, seq(|items|, j requires 0 <= j => runs(j)), seq(|items|, j requires 0 <= j => Observed(runs, j)), i, total) == PartsFrom(items, runs, i, total)
    decreases |items| - i
  {
    if i < |items| && Observed(runs, i).Ok? {
      PartsOnObserved(items, runs, i + 1, total + Observed(runs, i).value);
    }
  }

  /**
   * `download_parts`: for each item in order, a fresh temporary path is
   * chosen and recorded, the child is launched on it, its progress read
   * and added to the total; then a failed child raises and a truncated
   * segment ends the loop.
   */
  method DownloadParts(manifest: Manifest, ffmpegPath: string, cwd: string, session: Session, turbo: bool,
                       runs: nat -> SegmentRun, files: set<string>)
    returns (total: int, tmpList: seq<string>, failure: Option<PartsFailure>, cmds: seq<seq<string>>, after: set<string>,
             ghost made: seq<bool>, ghost counters: seq<nat>)
    ensures PartsResult(|tmpList|, total, failure) == PartsFrom(manifest.Items(), runs, 0, 0)
    ensures |made| == |tmpList| && forall j :: 0 <= j < |tmpList| ==> made[j] == runs(j).Wrote()
    ensures Launched(tmpList, made, cmds, after, counters, files, TmpBase(cwd, manifest.title), manifest.Items(),
                     ffmpegPath, Flags(HeaderValues(session.headers, session.cookies)), turbo)
  {
    var items := manifest.Items();
    var segs := seq(|items|, j requires 0 <= j => runs(j));
    ghost var see := seq(|items|, j requires 0 <= j => Observed(runs, j));
    total, tmpList, failure, cmds, after, made, counters :=
      VisitParts(items, TmpBase(cwd, manifest.title), ffmpegPath, session, turbo, segs, files,
                 Flags(HeaderValues(session.headers, session.cookies)), see);
    PartsOnObserved(items, runs, 0, 0);
  }

  /** The loop itself, over the items, their runs and the base path computed once. */
  method VisitParts(items: seq<(string, int)>, base: string, ffmpegPath: string, session: Session, turbo: bool,
                    runs: seq<SegmentRun>, files: set<string>, ghost args: seq<string>, ghost see: seq<Result<int, ProgressError>>)
    returns (total: int, tmpList: seq<string>, failure: Option<PartsFailure>, cmds: seq<seq<string>>, after: set<string>,
             ghost made: seq<bool>, ghost counters: seq<nat>)
    requires |items| == |runs| == |see|
    requires args == Flags(HeaderValues(session.headers, session.cookies))
    requires forall j {:trigger ProgressValues(runs[j].lines)} :: 0 <= j < |runs| ==> see[j] == Consumed(ProgressValues(runs[j].lines))
    ensures PartsResult(|tmpList|, total, failure) == PartsOn(items, runs, see, 0, 0)
    ensures |made| == |tmpList| <= |runs| && forall j :: 0 <= j < |tmpList| ==> made[j] == runs[j].Wrote()
    ensures Launched(tmpList, made, cmds, after, counters, files, base, items, ffmpegPath, args, turbo)
  {
    total, tmpList, failure, cmds, after, made, counters := 0, [], None, [], files, [], [];
    var i := 0;
    while i < |items|
      invariant 0 <= i <= |items| && |tmpList| == i && |cmds| == i
      invariant args == Flags(HeaderValues(session.headers, session.cookies))
      invariant PartsOn(items, runs, see, i, total) == PartsOn(items, runs, see, 0, 0)
      invariant |made| == i && forall j :: 0 <= j < i ==> made[j] == runs[j].Wrote()
      invariant Launched(tmpList, made, cmds, after, counters, files, base, items, ffmpegPath, args, turbo)
    {
      var (url, duration) := items[i];
      ghost var made0 := made;
      tmpList, made, cmds, after, counters := Launch(tmpList, made, cmds, after, counters, files, base, items, ffmpegPath, session, turbo, args, runs[i]);
      forall j | 0 <= j <= i ensures made[j] == runs[j].Wrote() {
        if j < i { assert made[j] == made0[j]; }
      }
      var observed := Segment(runs[i]);
      assert observed == see[i];
      ghost var before := total;
      if observed.Err? {
        PartsOnStep(items, runs, see, i, before, before, PartsOn(items, runs, see, 0, 0));
        failure := Some(ProgressFailed(observed.error));
        break;
      }
      total := total + observed.value;
      PartsOnStep(items, runs, see, i, before, total, PartsOn(items, runs, see, 0, 0));
      var vidLen := VidLen(runs[i].probed, observed.value);
      if runs[i].exitCode != 0 {
        failure := Some(SegmentFailed);
        break;
      }
      if vidLen < duration - Slack {
        break;
      }
      i := i + 1;
    }
  }

  /**
   * What the loop has recorded about the segments launched so far: the
   * paths chosen, launch by launch, as `Chosen` says; path `j` is the name
   * `get_unique_filename` reached from `base` at counter `counters[j]`;
   * and launch `j` ran ffmpeg on item `j`'s URL and path.
   */
  ghost predicate Launched(tmpList: seq<string>, made: seq<bool>, cmds: seq<seq<string>>, after: set<string>, counters: seq<nat>,
                           files: set<string>, base: string, items: seq<(string, int)>, ffmpegPath: string, args: seq<string>, turbo: bool)
  {
    && |tmpList| <= |items|
    && Chosen(tmpList, made, after, files)
    && |counters| == |tmpList|
    && (forall j {:trigger counters[j]} :: 0 <= j < |tmpList| ==> tmpList[j] == Named(base, counters[j]))
    && |cmds| == |tmpList|
    && (forall j {:trigger cmds[j]} :: 0 <= j < |cmds| ==> cmds[j] == DownloadCommand(ffmpegPath, items[j].0, tmpList[j], args, turbo))
  }

  /**
   * The paths chosen, launch by launch: launch `n` took a path that was
   * free on the filesystem as it stood then, and the child created that
   * file exactly when `made[n]`. Before the first launch the filesystem
   * is `files`.
   */
  ghost predicate Chosen(tmpList: seq<string>, made: seq<bool>, after: set<string>, files: set<string>)
    decreases |tmpList|
  {
    && |made| == |tmpList|
    && if tmpList == [] then after == files
       else
         var n := |tmpList| - 1;
         var p := tmpList[n];
         if made[n] then p in after && Chosen(tmpList[..n], made[..n], after - {p}, files)
         else p !in after && Chosen(tmpList[..n], made[..n], after, files)
  }

  /**
   * The paths read as a whole: every path is new to the original
   * filesystem, a path whose file was created is never chosen again, and
   * the filesystem now holds exactly the original files and the created
   * paths.
   */
  lemma {:induction false} ChosenMeaning(tmpList: seq<string>, made: seq<bool>, after: set<string>, files: set<string>)
    requires Chosen(tmpList, made, after, files)
    ensures forall j :: 0 <= j < |tmpList| ==> tmpList[j] !in files
    ensures forall j, k :: 0 <= j < k < |tmpList| && made[j] ==> tmpList[j] != tmpList[k]
    ensures forall q :: q in after <==> q in files || exists j :: 0 <= j < |tmpList| && made[j] && tmpList[j] == q
    decreases |tmpList|
  {
    if tmpList != [] {
      var n := |tmpList| - 1;
      var p := tmpList[n];
      var front := tmpList[..n];
      var fs := if made[n] then after - {p} else after;
      ChosenMeaning(front, made[..n], fs, files);
      forall j | 0 <= j < n ensures tmpList[j] == front[j] && made[j] == made[..n][j] {
      }
      forall q ensures q in after <==> q in files || exists j :: 0 <= j < |tmpList| && made[j] && tmpList[j] == q {
        if exists j :: 0 <= j < |tmpList| && made[j] && tmpList[j] == q {
          var j :| 0 <= j < |tmpList| && made[j] && tmpList[j] == q;
          if j < n { assert made[..n][j] && front[j] == q; }
        }
        if exists j :: 0 <= j < n && made[..n][j] && front[j] == q {
          var j :| 0 <= j < n && made[..n][j] && front[j] == q;
          assert made[j] && tmpList[j] == q;
        }
      }
    }
  }

  /**
   * The chosen paths are distinct and all on the filesystem exactly when
   * every child created its file.
   */
  lemma ChosenAllWritten(tmpList: seq<string>, made: seq<bool>, after: set<string>, files: set<string>)
    requires Chosen(tmpList, made, after, files)
    ensures ((forall j, k :: 0 <= j < k < |tmpList| ==> tmpList[j] != tmpList[k]) && (forall j :: 0 <= j < |tmpList| ==> tmpList[j] in after))
      <==> forall j :: 0 <= j < |tmpList| ==> made[j]
  {
    ChosenMeaning(tmpList, made, after, files);
    if forall j :: 0 <= j < |tmpList| ==> made[j] {
      forall j | 0 <= j < |tmpList| ensures tmpList[j] in after {
        assert made[j] && tmpList[j] == tmpList[j];
      }
    }
    if (forall j, k :: 0 <= j < k < |tmpList| ==> tmpList[j] != tmpList[k]) && (forall j :: 0 <= j < |tmpList| ==> tmpList[j] in after) {
      forall j | 0 <= j < |tmpList| ensures made[j] {
        var i :| 0 <= i < |tmpList| && made[i] && tmpList[i] == tmpList[j];
        assert i == j;
      }
    }
  }

  /**
   * The record grows by one launch on a path free on the current
   * filesystem; the path joins the filesystem when the child created it.
   */
  lemma LaunchedSnoc(tmpList: seq<string>, made: seq<bool>, cmds: seq<seq<string>>, after: set<string>, counters: seq<nat>,
                     files: set<string>, base: string, items: seq<(string, int)>, ffmpegPath: string, args: seq<string>, turbo: bool,
                     p: string, k: nat, wrote: bool)
    requires |tmpList| < |items|
    requires Launched(tmpList, made, cmds, after, counters, files, base, items, ffmpegPath, args, turbo)
    requires p !in after && p == Named(base, k)
    ensures Launched(tmpList + [p], made + [wrote], cmds + [DownloadCommand(ffmpegPath, items[|tmpList|].0, p, args, turbo)],
                     (if wrote then after + {p} else after), counters + [k], files, base, items, ffmpegPath, args, turbo)
  {
    CommandsSnoc(tmpList, cmds, items, ffmpegPath, args, turbo, p);
    NamesSnoc(tmpList, counters, base, p, k);
    assert (tmpList + [p])[..|tmpList|] == tmpList;
    assert (made + [wrote])[..|made|] == made;
    assert (after + {p}) - {p} == after;
  }

  /** The command facts of the record survive one more launch. */
  lemma CommandsSnoc(tmpList: seq<string>, cmds: seq<seq<string>>, items: seq<(string, int)>, ffmpegPath: string,
                     args: seq<string>, turbo: bool, p: string)
    requires |cmds| == |tmpList| < |items|
    requires forall j {:trigger cmds[j]} :: 0 <= j < |cmds| ==> cmds[j] == DownloadCommand(ffmpegPath, items[j].0, tmpList[j], args, turbo)
    ensures var tmpList', cmds' := tmpList + [p], cmds + [DownloadCommand(ffmpegPath, items[|tmpList|].0, p, args, turbo)];
      forall j {:trigger cmds'[j]} :: 0 <= j < |cmds'| ==> cmds'[j] == DownloadCommand(ffmpegPath, items[j].0, tmpList'[j], args, turbo)
  {
    var tmpList', cmds' := tmpList + [p], cmds + [DownloadCommand(ffmpegPath, items[|tmpList|].0, p, args, turbo)];
    forall j | 0 <= j < |cmds'| ensures cmds'[j] == DownloadCommand(ffmpegPath, items[j].0, tmpList'[j], args, turbo) {
      if j < |cmds| {
        assert cmds'[j] == cmds[j] && tmpList'[j] == tmpList[j];
      }
    }
  }

  /** The name facts of the record survive one more path reached at counter `k`. */
  lemma NamesSnoc(tmpList: seq<string>, counters: seq<nat>, base: string, p: string, k: nat)
    requires |counters| == |tmpList|
    requires forall j {:trigger counters[j]} :: 0 <= j < |tmpList| ==> tmpList[j] == Named(base, counters[j])
    requires p == Named(base, k)
    ensures var tmpList', counters' := tmpList + [p], counters + [k];
      forall j {:trigger counters'[j]} :: 0 <= j < |tmpList'| ==> tmpList'[j] == Named(base, counters'[j])
  {
    var tmpList', counters' := tmpList + [p], counters + [k];
    forall j | 0 <= j < |tmpList'| ensures tmpList'[j] == Named(base, counters'[j]) {
      if j < |tmpList| {
        assert tmpList'[j] == tmpList[j] && counters'[j] == counters[j];
      }
    }
  }

  /**
   * One launch: a free path is chosen on the current filesystem and
   * recorded, the command is built for the next item, and the child
   * `run` leaves its output file there when it wrote one.
   */
  method Launch(tmpList: seq<string>, ghost made: seq<bool>, cmds: seq<seq<string>>, after: set<string>, ghost counters: seq<nat>,
                files: set<string>, base: string, items: seq<(string, int)>, ffmpegPath: string, session: Session, turbo: bool,
                ghost args: seq<string>, run: SegmentRun)
    returns (tmpList': seq<string>, ghost made': seq<bool>, cmds': seq<seq<string>>, after': set<string>, ghost counters': seq<nat>)
    requires |tmpList| < |items|
    requires args == Flags(HeaderValues(session.headers, session.cookies))
    requires Launched(tmpList, made, cmds, after, counters, files, base, items, ffmpegPath, args, turbo)
    ensures |tmpList'| == |tmpList| + 1 && tmpList'[..|tmpList|] == tmpList
    ensures made' == made + [run.Wrote()]
    ensures Launched(tmpList', made', cmds', after', counters', files, base, items, ffmpegPath, args, turbo)
  {
    var tmpPath, k := FreshPath(base, after);
    var cmd := DownloadProcess(ffmpegPath, items[|tmpList|].0, tmpPath, session, turbo);
    LaunchedSnoc(tmpList, made, cmds, after, counters, files, base, items, ffmpegPath, args, turbo, tmpPath, k, run.Wrote());
    tmpList', made', cmds', counters' := tmpList + [tmpPath], made + [run.Wrote()], cmds + [cmd], counters + [k];
    after' := if run.Wrote() then after + {tmpPath} else after;
    assert tmpList'[..|tmpList|] == tmpList;
  }

  /** `get_unique_filename` on the current filesystem, with the counter it stopped at. */
  method FreshPath(base: string, fs: set<string>) returns (p: string, ghost k: nat)
    ensures p !in fs && p == Named(base, k)
    ensures base !in fs ==> k == 0
  {
    p := GetUniqueFilename(base, fs);
    k := 0;
    if base in fs {
      k :| 1 <= k && p == NumberedPath(base, k);
    }
  }

  /** One child's progress stream read to the end and consumed by the bar. */
  method Segment(run: SegmentRun) returns (observed: Result<int, ProgressError>)
    ensures observed == Consumed(ProgressValues(run.lines))
  {
    var out := ReadOutTime(run.lines);
    observed := ConsumeProgress(out);
  }

  // ---------------------------------------------------------------------
  // concat_parts

  /** What ends `concat_parts` with an exception. */
  datatype ConcatFailure = ConcatProgressFailed(error: ProgressError) | ConcatFailed

  /**
   * The completion rule: a failed child raises `ProcessError`; otherwise
   * the output path is returned only when the bar reached the total
   * less 1 ms, and nothing is returned when it fell short.
   */
  function ConcatDecision(observed: Result<int, ProgressError>, exitCode: int, total: int, path: string): (r: Result<Option<string>, ConcatFailure>)
    ensures r == Ok(Some(path)) <==> observed.Ok? && exitCode == 0 && observed.value >= total - 1
    ensures r == Ok(None) <==> observed.Ok? && exitCode == 0 && observed.value < total - 1
    ensures r == Err(ConcatFailed) <==> observed.Ok? && exitCode != 0
    ensures observed.Err? ==> r == Err(ConcatProgressFailed(observed.error))
  {
    match observed
    case Err(e) => Err(ConcatProgressFailed(e))
    case Ok(v) =>
      if exitCode != 0 then Err(ConcatFailed)
      else if v < total - 1 then Ok(None)
      else Ok(Some(path))
  }

  /** The output path before numbering: `<cwd>/<sanitised title>.mp4`. */
  function OutputBase(cwd: string, title: string): string {
    JoinPath(cwd, DeleteSpecChar(title) + ".mp4")
  }

  /**
   * `concat_parts`: a free output path is chosen, the list file is
   * written at `listPath` (a `NamedTemporaryFile` created with
   * `delete=False`, so it stays on disk) and the concat command built
   * over the parts in order, the child's progress is read, and the
   * completion rule applied. `listed` is the filesystem with the list file.
   */
  method ConcatParts(ffmpegPath: string, cwd: string, title: string, turbo: bool, parts: seq<string>, total: int,
                     listPath: string, run: ConcatRun, files: set<string>)
    returns (path: string, listText: string, cmd: seq<string>, result: Result<Option<string>, ConcatFailure>, listed: set<string>)
    ensures path !in files && NameFor(path, OutputBase(cwd, title))
    ensures OutputBase(cwd, title) !in files ==> path == OutputBase(cwd, title)
    ensures listText == ConcatListText(parts) && listed == files + {listPath}
    ensures cmd == ConcatCommand(ffmpegPath, listPath, path, turbo)
    ensures result == ConcatDecision(Consumed(ProgressValues(run.lines)), run.exitCode, total, path)
  {
    ghost var k;
    path, k := FreshPath(OutputBase(cwd, title), files);
    listText := WriteConcatList(parts);
    listed := files + {listPath};
    cmd := ConcatCommand(ffmpegPath, listPath, path, turbo);
    var out := ReadOutTime(run.lines);
    var observed := ConsumeProgress(out);
    if observed.Err? {
      return path, listText, cmd, Err(ConcatProgressFailed(observed.error)), listed;
    }
    if run.exitCode != 0 {
      return path, listText, cmd, Err(ConcatFailed), listed;
    }
    if observed.value < total - 1 {
      result := Ok(None);
    } else {
      result := Ok(Some(path));
    }
  }

  /**
   * A concat child that reports the times `ts` then `progress=end` and
   * exits with 0 yields its output path exactly when its last time, in
   * milliseconds, is within 1 ms of the total.
   */
  lemma ConcatOfTimes(ts: seq<nat>, tail: seq<string>, total: int, path: string)
    ensures var lines := TimeLines(ts) + ["progress=end"] + tail;
      var last := if ts == [] then 0 else ts[|ts| - 1] / 1000;
      ConcatDecision(Consumed(ProgressValues(lines)), 0, total, path) == (if last >= total - 1 then Ok(Some(path)) else Ok(None))
  {
    ConsumedOfTimes(ts, tail);
  }

  // ---------------------------------------------------------------------
  // remove_temp_files

  /** `os.remove` succeeds on a path that exists and is not held open by another process. */
  predicate Removable(p: string, fs: set<string>, locked: set<string>) {
    p in fs && p !in locked
  }

  /** The cleanup loop: removals in order until the first failure; how many succeeded and what is left. */
  function Removal(parts: seq<string>, fs: set<string>, locked: set<string>): (r: (nat, set<string>))
    ensures r.0 <= |parts|
  {
    if parts == [] || !Removable(parts[0], fs, locked) then (0, fs)
    else
      var rest := Removal(parts[1..], fs - {parts[0]}, locked);
      (rest.0 + 1, rest.1)
  }

  /** `remove_temp_files`: removes the parts in order and stops at the first `OSError`, which is only reported. */
  method RemoveTempFiles(parts: seq<string>, files: set<string>, locked: set<string>)
    returns (removed: nat, after: set<string>, ok: bool)
    ensures (removed, after) == Removal(parts, files, locked)
    ensures ok <==> removed == |parts|
  {
    removed, after := 0, files;
    while removed < |parts|
      invariant removed <= |parts|
      invariant Removal(parts[removed..], after, locked).1 == Removal(parts, files, locked).1
      invariant removed + Removal(parts[removed..], after, locked).0 == Removal(parts, files, locked).0
    {
      assert parts[removed..][1..] == parts[removed + 1..];
      if !Removable(parts[removed], after, locked) {
        return removed, after, false;
      }
      after := after - {parts[removed]};
      removed := removed + 1;
    }
    assert parts[removed..] == [];
    ok := true;
  }

  /**
   * What cleanup achieves: exactly the first `n` parts are gone, and when
   * it stopped early the next part could not be removed.
   */
  lemma {:induction false} RemovalMeaning(parts: seq<string>, fs: set<string>, locked: set<string>)
    ensures var (n, left) := Removal(parts, fs, locked);
      && (forall p :: p in left <==> p in fs && p !in parts[..n])
      && (n < |parts| ==> !Removable(parts[n], left, locked))
  {
    if parts != [] && Removable(parts[0], fs, locked) {
      RemovalMeaning(parts[1..], fs - {parts[0]}, locked);
      var (m, left) := Removal(parts[1..], fs - {parts[0]}, locked);
      assert parts[..m + 1] == [parts[0]] + parts[1..][..m];
    }
  }

  /** Distinct parts that all exist and none of which is in use are all removed. */
  lemma {:induction false} RemovalAll(parts: seq<string>, fs: set<string>, locked: set<string>)
    requires forall j, k :: 0 <= j < k < |parts| ==> parts[j] != parts[k]
    requires forall j :: 0 <= j < |parts| ==> Removable(parts[j], fs, locked)
    ensures Removal(parts, fs, locked).0 == |parts|
  {
    if parts != [] {
      var fs' := fs - {parts[0]};
      forall j | 0 <= j < |parts[1..]| ensures Removable(parts[1..][j], fs', locked) {
        assert parts[1..][j] == parts[j + 1] != parts[0];
      }
      RemovalAll(parts[1..], fs', locked);
    }
  }

  // ---------------------------------------------------------------------
  // download

  datatype StopReason = PartsStopped(parts: PartsFailure) | ConcatStopped(concat: ConcatFailure) | NoPath

  /**
   * How `download` ends: the saved path, or the exception that ends it.
   * `NoPath` is the `AttributeError` on `path.replace` when
   * `concat_parts` returned nothing.
   */
  datatype DownloadOutcome = Saved(path: string) | Stopped(reason: StopReason)

  /**
   * `download`: segments, then concat over the recorded paths with the
   * accumulated total, then cleanup, which runs only when both returned.
   * `parts` are the temporary paths the segment loop recorded.
   */
  method Download(manifest: Manifest, ffmpegPath: string, cwd: string, session: Session, turbo: bool,
                  runs: nat -> SegmentRun, listPath: string, concatRun: ConcatRun, files: set<string>, locked: set<string>)
    returns (outcome: DownloadOutcome, parts: seq<string>, after: set<string>)
    requires listPath !in files
    requires !NameFor(listPath, TmpBase(cwd, manifest.title)) && !NameFor(listPath, OutputBase(cwd, manifest.title))
    ensures var seg := PartsFrom(manifest.Items(), runs, 0, 0);
      var observed := Consumed(ProgressValues(concatRun.lines));
      && |parts| == seg.visited
      && (seg.failure.Some? ==> outcome == Stopped(PartsStopped(seg.failure.value)))
      && (seg.failure.None? && observed.Err? ==> outcome == Stopped(ConcatStopped(ConcatProgressFailed(observed.error))))
      && (seg.failure.None? && observed.Ok? && concatRun.exitCode != 0 ==> outcome == Stopped(ConcatStopped(ConcatFailed)))
      && (outcome.Saved? <==> (seg.failure.None? && observed.Ok? && concatRun.exitCode == 0 && observed.value >= seg.total - 1))
      && (outcome == Stopped(NoPath) <==> (seg.failure.None? && observed.Ok? && concatRun.exitCode == 0 && observed.value < seg.total - 1))
    ensures forall j :: 0 <= j < |parts| ==> parts[j] !in files && NameFor(parts[j], TmpBase(cwd, manifest.title))
    ensures forall j, k :: 0 <= j < k < |parts| ==> parts[j] != parts[k]
    ensures outcome.Stopped? && outcome.reason.PartsStopped? ==>
      && (forall j :: 0 <= j < |parts| ==> (parts[j] in after <==> runs(j).Wrote()))
      && (forall q :: q !in parts ==> (q in after <==> q in files))
    ensures outcome.Stopped? && outcome.reason.ConcatStopped? ==>
      && (forall j :: 0 <= j < |parts| ==> parts[j] in after)
      && (forall q :: q !in parts ==>
            (q in files ==> q in after)
            && (q in after && q !in files && q != listPath ==> concatRun.Wrote() && NameFor(q, OutputBase(cwd, manifest.title))))
      && (concatRun.Wrote() ==> exists q :: q in after && q !in files && q !in parts && q != listPath)
    ensures !(outcome.Stopped? && outcome.reason.PartsStopped?) ==> listPath in after
    ensures outcome.Saved? ==> outcome.path !in files && NameFor(outcome.path, OutputBase(cwd, manifest.title)) && outcome.path in after
    ensures outcome.Saved? ==> forall q :: q !in parts && q != outcome.path && q != listPath ==> (q in after <==> q in files)
    ensures outcome == Stopped(NoPath) ==> forall q :: q !in parts ==>
      (q in files ==> q in after) && (q in after && q !in files && q != listPath ==> NameFor(q, OutputBase(cwd, manifest.title)))
    ensures outcome.Saved? || outcome == Stopped(NoPath) ==>
      ((forall j :: 0 <= j < |parts| ==> parts[j] !in locked) <==> (forall j :: 0 <= j < |parts| ==> parts[j] !in after))
  {
    var total, failure, cmds, afterParts;
    ghost var made, counters;
    total, parts, failure, cmds, afterParts, made, counters := DownloadParts(manifest, ffmpegPath, cwd, session, turbo, runs, files);
    VisitedExitZero(manifest.Items(), runs);
    WrittenParts(parts, made, afterParts, files, TmpBase(cwd, manifest.title), counters, listPath);
    after := afterParts;
    if failure.Some? {
      return Stopped(PartsStopped(failure.value)), parts, after;
    }
    outcome, after := ConcatAndClean(ffmpegPath, cwd, manifest.title, turbo, parts, total, listPath, concatRun, afterParts, locked);
    if outcome.Stopped? && outcome.reason.ConcatStopped? && concatRun.Wrote() {
      var q :| q in after - afterParts - {listPath};
      assert q in after && q !in files && q !in parts && q != listPath;
    }
  }

  /**
   * The parts once the segment loop returned, when every child but perhaps
   * the last wrote its file: they are distinct, each is on disk exactly
   * when its child wrote it, nothing else changed, and the list file,
   * which is no name of the base, is not among them.
   */
  lemma WrittenParts(parts: seq<string>, made: seq<bool>, after: set<string>, files: set<string>, base: string,
                     counters: seq<nat>, listPath: string)
    requires Chosen(parts, made, after, files)
    requires |counters| == |parts| && forall j {:trigger counters[j]} :: 0 <= j < |parts| ==> parts[j] == Named(base, counters[j])
    requires forall j :: 0 <= j < |parts| - 1 ==> made[j]
    requires listPath !in files && !NameFor(listPath, base)
    ensures forall j :: 0 <= j < |parts| ==> parts[j] !in files && NameFor(parts[j], base)
    ensures forall j, k :: 0 <= j < k < |parts| ==> parts[j] != parts[k]
    ensures forall j :: 0 <= j < |parts| ==> (parts[j] in after <==> made[j])
    ensures forall q :: q !in parts ==> (q in after <==> q in files)
    ensures listPath !in after
  {
    ChosenMeaning(parts, made, after, files);
    forall j | 0 <= j < |parts| ensures NameFor(parts[j], base) && parts[j] != listPath {
      assert parts[j] == Named(base, counters[j]);
    }
    forall j, k | 0 <= j < k < |parts| ensures parts[j] != parts[k] {
      assert made[j];
    }
    forall j | 0 <= j < |parts| ensures parts[j] in after <==> made[j] {
      if parts[j] in after {
        var i :| 0 <= i < |parts| && made[i] && parts[i] == parts[j];
        assert i == j;
      }
    }
  }

  /**
   * Every segment the loop visited exited with 0, except perhaps the last
   * one, which did too when the loop ended without an exception.
   */
  lemma VisitedExitZero(items: seq<(string, int)>, runs: nat -> SegmentRun)
    ensures var r := PartsFrom(items, runs, 0, 0);
      && (forall j :: 0 <= j < r.visited - 1 ==> runs(j).exitCode == 0)
      && (r.failure.None? ==> forall j :: 0 <= j < r.visited ==> runs(j).exitCode == 0)
  {
    PartsMeaning(items, runs, 0, 0);
    var r := PartsFrom(items, runs, 0, 0);
    var k := FirstIncomplete(items, runs, 0);
    forall j | 0 <= j < k ensures runs(j).exitCode == 0 {
      assert Complete(items, runs, j);
    }
    if r.failure.None? && k < |items| {
      assert StopCause(runs, k).None?;
      assert runs(k).exitCode == 0;
    }
  }

  /**
   * The rest of `download` once the segment loop has returned: concat,
   * then (only when concat returned) the cleanup of the parts. The list
   * file stays in every case; a failed concat child leaves at most its
   * own output beside it. The list file is new, and is never a name the
   * output path could take.
   */
  method ConcatAndClean(ffmpegPath: string, cwd: string, title: string, turbo: bool, parts: seq<string>, total: int,
                        listPath: string, concatRun: ConcatRun, fs: set<string>, locked: set<string>)
    returns (outcome: DownloadOutcome, after: set<string>)
    requires forall j, k :: 0 <= j < k < |parts| ==> parts[j] != parts[k]
    requires forall j :: 0 <= j < |parts| ==> parts[j] in fs
    requires listPath !in fs && !NameFor(listPath, OutputBase(cwd, title))
    ensures var observed := Consumed(ProgressValues(concatRun.lines));
      && (observed.Err? ==> outcome == Stopped(ConcatStopped(ConcatProgressFailed(observed.error))))
      && (observed.Ok? && concatRun.exitCode != 0 ==> outcome == Stopped(ConcatStopped(ConcatFailed)))
      && (observed.Ok? && concatRun.exitCode == 0 ==>
            && (outcome.Saved? <==> observed.value >= total - 1)
            && (outcome == Stopped(NoPath) <==> observed.value < total - 1))
    ensures listPath in after
    ensures outcome.Stopped? && outcome.reason.ConcatStopped? ==>
      && fs <= after
      && (forall q :: q in after - fs - {listPath} ==> NameFor(q, OutputBase(cwd, title)))
      && |after - fs - {listPath}| == (if concatRun.Wrote() then 1 else 0)
    ensures outcome.Saved? ==> outcome.path !in fs && NameFor(outcome.path, OutputBase(cwd, title)) && outcome.path in after
    ensures outcome.Saved? ==> forall q :: q !in parts && q != outcome.path && q != listPath ==> (q in after <==> q in fs)
    ensures outcome == Stopped(NoPath) ==> forall q :: q !in parts ==>
      (q in fs ==> q in after) && (q in after && q !in fs && q != listPath ==> NameFor(q, OutputBase(cwd, title)))
    ensures outcome.Saved? || outcome == Stopped(NoPath) ==>
      ((forall j :: 0 <= j < |parts| ==> parts[j] !in locked) <==> (forall j :: 0 <= j < |parts| ==> parts[j] !in after))
  {
    var path, listText, concatCmd, result, listed := ConcatParts(ffmpegPath, cwd, title, turbo, parts, total, listPath, concatRun, fs);
    assert path != listPath;
    if result.Err? {
      after := if concatRun.Wrote() then listed + {path} else listed;
      BesideList(fs, listPath, path, concatRun.Wrote());
      return Stopped(ConcatStopped(result.error)), after;
    }
    var removed, left, ok := RemoveTempFiles(parts, listed + {path}, locked);
    after := left;
    CleanupBesideList(parts, fs, listPath, path, locked);
    if result.value.None? {
      return Stopped(NoPath), after;
    }
    outcome := Saved(result.value.value);
  }

  /** After a failed concat: the old files, the list file and, if written, the output. */
  lemma BesideList(fs: set<string>, listPath: string, path: string, wrote: bool)
    requires listPath !in fs && path !in fs && path != listPath
    ensures var after := if wrote then fs + {listPath} + {path} else fs + {listPath};
      && listPath in after && fs <= after
      && after - fs - {listPath} == (if wrote then {path} else {})
      && |after - fs - {listPath}| == (if wrote then 1 else 0)
  {
  }

  /** Cleanup once concat returned: the list file and the output stay beside the old files. */
  lemma CleanupBesideList(parts: seq<string>, fs: set<string>, listPath: string, path: string, locked: set<string>)
    requires forall j, k :: 0 <= j < k < |parts| ==> parts[j] != parts[k]
    requires forall j :: 0 <= j < |parts| ==> parts[j] in fs
    requires listPath !in fs && path !in fs && path != listPath
    ensures var left := Removal(parts, fs + {listPath} + {path}, locked).1;
      && listPath in left && path in left
      && (forall q :: q !in parts && q != path && q != listPath ==> (q in left <==> q in fs))
      && ((forall j :: 0 <= j < |parts| ==> parts[j] !in locked) <==> (forall j :: 0 <= j < |parts| ==> parts[j] !in left))
  {
    CleanupMeaning(parts, fs + {listPath} + {path}, locked);
    assert listPath !in parts && path !in parts;
  }

  /**
   * Cleanup over distinct parts that all exist: everything else stays,
   * and all parts are gone exactly when none of them is held open.
   */
  lemma CleanupMeaning(parts: seq<string>, fs: set<string>, locked: set<string>)
    requires forall j, k :: 0 <= j < k < |parts| ==> parts[j] != parts[k]
    requires forall j :: 0 <= j < |parts| ==> parts[j] in fs
    ensures var left := Removal(parts, fs, locked).1;
      && (forall q :: q !in parts ==> (q in left <==> q in fs))
      && ((forall j :: 0 <= j < |parts| ==> parts[j] !in locked) <==> (forall j :: 0 <= j < |parts| ==> parts[j] !in left))
  {
    var (n, left) := Removal(parts, fs, locked);
    RemovalMeaning(parts, fs, locked);
    RemovalStops(parts, fs, locked);
    if n == |parts| {
      assert parts[..n] == parts;
    } else {
      assert parts[n] !in parts[..n] by {
        forall j | 0 <= j < n ensures parts[..n][j] != parts[n] {
          assert parts[..n][j] == parts[j];
        }
      }
      assert parts[n] in left;
    }
  }

  /**
   * The parts are all removed exactly when they are distinct, all exist
   * and none of them is held open.
   */
  lemma {:induction false} RemovalStops(parts: seq<string>, fs: set<string>, locked: set<string>)
    ensures Removal(parts, fs, locked).0 == |parts| <==>
      && (forall j, k :: 0 <= j < k < |parts| ==> parts[j] != parts[k])
      && (forall j :: 0 <= j < |parts| ==> parts[j] in fs && parts[j] !in locked)
  {
    if parts != [] && Removable(parts[0], fs, locked) {
      var p, tail, fs' := parts[0], parts[1..], fs - {parts[0]};
      RemovalStops(tail, fs', locked);
      assert forall j :: 1 <= j < |parts| ==> parts[j] == tail[j - 1];
      if (forall j, k :: 0 <= j < k < |parts| ==> parts[j] != parts[k]) && (forall j :: 0 <= j < |parts| ==> parts[j] in fs && parts[j] !in locked) {
        forall j | 0 <= j < |tail| ensures tail[j] in fs' && tail[j] !in locked {
          assert tail[j] == parts[j + 1] != p;
        }
        forall j, k | 0 <= j < k < |tail| ensures tail[j] != tail[k] {
          assert tail[j] == parts[j + 1] && tail[k] == parts[k + 1];
        }
      }
      if Removal(tail, fs', locked).0 == |tail| {
        forall j, k | 0 <= j < k < |parts| ensures parts[j] != parts[k] {
          if j == 0 { assert parts[k] == tail[k - 1] && tail[k - 1] in fs'; }
          else { assert parts[j] == tail[j - 1] && parts[k] == tail[k - 1]; }
        }
        forall j | 0 <= j < |parts| ensures parts[j] in fs && parts[j] !in locked {
          if j > 0 { assert parts[j] == tail[j - 1]; }
        }
      }
    }
  }

  // ---------------------------------------------------------------------
  // Input parsers

  /** The qualities `get_url_input` accepts after the URL. */
  const QualityMapping: seq<string> := QualityLabels + ["auto"]

  /** The user cleared the prompt: `KeyboardInterrupt`. */
  datatype Interrupt = KeyboardInterrupt

  /**
   * `get_url_input`: an empty answer ends the program; a URL followed by
   * a known quality gives both; anything else is the whole trimmed answer
   * with the default quality.
   */
  function GetUrlInput(answer: string, defaultQuality: string): (r: Result<(string, string), Interrupt>)
    ensures r.Err? <==> Strip(answer) == []
    ensures r.Ok? ==>
      var ws := Words(Strip(answer));
      if |ws| > 1 && ws[1] in QualityMapping then r.value == (ws[0], ws[1])
      else r.value == (Strip(answer), defaultQuality)
    ensures r.Ok? ==> r.value.0 != []
    ensures r.Ok? && r.value.1 != defaultQuality ==> r.value.1 in QualityMapping && r.value.0 == Words(Strip(answer))[0]
    ensures r.Ok? && r.value.0 != Strip(answer) ==> r.value.1 in QualityMapping
  {
    var url := Strip(answer);
    if url == [] then Err(KeyboardInterrupt)
    else
      var ws := Words(url);
      if |ws| > 1 && ws[1] in QualityMapping then Ok((ws[0], ws[1])) else Ok((url, defaultQuality))
  }

  /**
   * A URL, any run of whitespace and a known quality, whatever words
   * follow and whatever whitespace surrounds the answer, give back the
   * URL and the quality.
   */
  lemma GetUrlInputOfPair(lead: string, url: string, gap: string, quality: string, rest: string, trail: string,
                          defaultQuality: string)
    requires forall i :: 0 <= i < |lead| ==> IsSpace(lead[i])
    requires url != [] && forall i :: 0 <= i < |url| ==> !IsSpace(url[i])
    requires gap != [] && forall i :: 0 <= i < |gap| ==> IsSpace(gap[i])
    requires quality in QualityMapping
    requires rest == [] || (IsSpace(rest[0]) && !IsSpace(rest[|rest| - 1]))
    requires forall i :: 0 <= i < |trail| ==> IsSpace(trail[i])
    ensures GetUrlInput(lead + url + gap + quality + rest + trail, defaultQuality) == Ok((url, quality))
  {
    QualityIsWord(quality);
    AnswerShape(lead, url, gap, quality, rest, trail);
    var ws := Words(url + gap + quality + rest);
    assert ws[0] == url && ws[1] == quality;
  }

  /** Every quality `get_url_input` accepts is a single word. */
  lemma QualityIsWord(q: string)
    requires q in QualityMapping
    ensures q != [] && forall i :: 0 <= i < |q| ==> !IsSpace(q[i])
  {
    assert q == "1440p" || q == "1080p" || q == "720p" || q == "540p" || q == "auto";
  }

  /**
   * When the second word is not a known quality, the whole trimmed
   * answer is the URL and the default quality is kept.
   */
  lemma GetUrlInputOfUnknown(lead: string, url: string, gap: string, word: string, rest: string, trail: string,
                             defaultQuality: string)
    requires forall i :: 0 <= i < |lead| ==> IsSpace(lead[i])
    requires url != [] && forall i :: 0 <= i < |url| ==> !IsSpace(url[i])
    requires gap != [] && forall i :: 0 <= i < |gap| ==> IsSpace(gap[i])
    requires word != [] && (forall i :: 0 <= i < |word| ==> !IsSpace(word[i])) && word !in QualityMapping
    requires rest == [] || (IsSpace(rest[0]) && !IsSpace(rest[|rest| - 1]))
    requires forall i :: 0 <= i < |trail| ==> IsSpace(trail[i])
    ensures GetUrlInput(lead + url + gap + word + rest + trail, defaultQuality) == Ok((url + gap + word + rest, defaultQuality))
  {
    AnswerShape(lead, url, gap, word, rest, trail);
  }

  /** The trimmed answer of the two lemmas above, and its words. */
  lemma AnswerShape(lead: string, u: string, gap: string, q: string, rest: string, trail: string)
    requires forall i :: 0 <= i < |lead| ==> IsSpace(lead[i])
    requires u != [] && forall i :: 0 <= i < |u| ==> !IsSpace(u[i])
    requires gap != [] && forall i :: 0 <= i < |gap| ==> IsSpace(gap[i])
    requires q != [] && forall i :: 0 <= i < |q| ==> !IsSpace(q[i])
    requires rest == [] || (IsSpace(rest[0]) && !IsSpace(rest[|rest| - 1]))
    requires forall i :: 0 <= i < |trail| ==> IsSpace(trail[i])
    ensures Strip(lead + u + gap + q + rest + trail) == u + gap + q + rest
    ensures Words(u + gap + q + rest) == [u] + ([q] + Words(rest))
  {
    var core := u + gap + q + rest;
    CoreEnds(u, gap, q, rest);
    AppendAssoc5(lead, u, gap, q, rest);
    StripAround(lead, core, trail);
    AppendAssoc4(u, gap, q, rest);
    WordsOfGap(u, gap, q, rest);
  }

  /** The first and last characters of the trimmed answer. */
  lemma CoreEnds(u: string, gap: string, q: string, rest: string)
    requires u != [] && q != []
    ensures var core := u + gap + q + rest;
      core[0] == u[0] && core[|core| - 1] == if rest == [] then q[|q| - 1] else rest[|rest| - 1]
  {
  }

  /** Two words separated by any whitespace run, then words that start after whitespace. */
  lemma WordsOfGap(u: string, gap: string, q: string, rest: string)
    requires u != [] && forall i :: 0 <= i < |u| ==> !IsSpace(u[i])
    requires gap != [] && forall i :: 0 <= i < |gap| ==> IsSpace(gap[i])
    requires q != [] && forall i :: 0 <= i < |q| ==> !IsSpace(q[i])
    requires rest == [] || IsSpace(rest[0])
    ensures Words(u + (gap + (q + rest))) == [u] + ([q] + Words(rest))
  {
    var gqr := gap + (q + rest);
    assert gqr[0] == gap[0];
    WordsFirst(u, gqr);
    WordsAfterGap(gap, q, rest);
  }

  /** A whitespace run, a word, then a tail starting with whitespace. */
  lemma WordsAfterGap(gap: string, q: string, rest: string)
    requires forall i :: 0 <= i < |gap| ==> IsSpace(gap[i])
    requires q != [] && forall i :: 0 <= i < |q| ==> !IsSpace(q[i])
    requires rest == [] || IsSpace(rest[0])
    ensures Words(gap + (q + rest)) == [q] + Words(rest)
  {
    var qr := q + rest;
    assert qr[0] == q[0];
    WordsAfterSpaces(gap, qr);
    if rest == [] {
      assert qr == q;
      WordsOfWord(q);
    } else {
      WordsFirst(q, rest);
    }
  }

  /** A word followed by whitespace is split off first. */
  lemma WordsFirst(u: string, rest: string)
    requires u != [] && forall i :: 0 <= i < |u| ==> !IsSpace(u[i])
    requires rest != [] && IsSpace(rest[0])
    ensures Words(u + rest) == [u] + Words(rest)
  {
    var s := u + rest;
    assert LeadingSpaces(s) == 0 by {
      assert s[0] == u[0];
    }
    assert s[0..] == s;
    WordLengthStop(s, |u|);
    assert s[..|u|] == u && s[|u|..] == rest;
  }

  /** A word ends at the first whitespace character. */
  lemma {:induction false} WordLengthStop(s: string, k: nat)
    requires k < |s| && IsSpace(s[k]) && forall i :: 0 <= i < k ==> !IsSpace(s[i])
    ensures WordLength(s) == k
  {
    if k > 0 {
      WordLengthStop(s[1..], k - 1);
    }
  }

  /** `check_ffmpeg_path`'s failures: `ValueError` when ffmpeg is missing or not ffmpeg, `IndexError` when the line is short. */
  datatype FfmpegError = NotFfmpeg | ShortVersionLine

  /**
   * `check_ffmpeg_path` on the output of `ffmpeg -version` (None when
   * the program is missing or fails): the third space-separated token of
   * the first line, cut at the first `-` unless the line mentions `git`.
   */
  function CheckFfmpegPath(stdout: Option<string>): (r: Result<string, FfmpegError>)
    ensures stdout.None? ==> r == Err(NotFfmpeg)
    ensures stdout.Some? ==> (r == Err(NotFfmpeg) <==> !Contains(Split(stdout.value, '\n')[0], "ffmpeg"))
    ensures stdout.Some? ==> (r == Err(ShortVersionLine) <==>
      Contains(Split(stdout.value, '\n')[0], "ffmpeg") && |Split(Split(stdout.value, '\n')[0], ' ')| < 3)
    ensures r.Ok? ==> stdout.Some?
    ensures r.Ok? ==>
      var line := Split(stdout.value, '\n')[0];
      var tokens := Split(line, ' ');
      && |tokens| >= 3
      && (Contains(line, "git") ==> r.value == tokens[2])
      && (!Contains(line, "git") ==> r.value == Split(tokens[2], '-')[0])
    ensures r.Ok? ==> ' ' !in r.value
    ensures r.Ok? && !Contains(Split(stdout.value, '\n')[0], "git") ==> '-' !in r.value
  {
    match stdout
    case None => Err(NotFfmpeg)
    case Some(out) =>
      var line := Split(out, '\n')[0];
      if !Contains(line, "ffmpeg") then Err(NotFfmpeg)
      else
        var tokens := Split(line, ' ');
        if |tokens| < 3 then Err(ShortVersionLine)
        else if Contains(line, "git") then Ok(tokens[2])
        else
          var v := Split(tokens[2], '-')[0];
          SplitPiecesIn(tokens[2], '-');
          Ok(v)
  }

  /**
   * A release build's banner `ffmpeg version <ver>-<build> <rest>` gives
   * `<ver>`, whatever follows on later lines.
   */
  lemma CheckFfmpegRelease(ver: string, build: string, rest: string, more: string)
    requires ' ' !in ver && '-' !in ver && '\n' !in ver && ' ' !in build && '\n' !in build && '\n' !in rest
    requires !Contains("ffmpeg version " + ver + "-" + build + " " + rest, "git")
    ensures CheckFfmpegPath(Some("ffmpeg version " + ver + "-" + build + " " + rest + "\n" + more)) == Ok(ver)
  {
    var line := "ffmpeg version " + ver + "-" + build + " " + rest;
    ReleaseLine(ver, build, rest, more);
    ReleaseToken(ver, build, rest);
    assert OccursAt(line, "ffmpeg", 0);
    ReleaseVersion(line + "\n" + more, line, ver);
  }

  /**
   * A development build's banner `ffmpeg version <token> <rest>` whose
   * first line mentions `git` gives the whole `<token>`, dashes included.
   */
  lemma CheckFfmpegGit(token: string, rest: string, more: string)
    requires ' ' !in token && '\n' !in token && '\n' !in rest
    requires Contains("ffmpeg version " + token + " " + rest, "git")
    ensures CheckFfmpegPath(Some("ffmpeg version " + token + " " + rest + "\n" + more)) == Ok(token)
  {
    var line := "ffmpeg version " + token + " " + rest;
    BannerFirstLine(token, rest, more);
    BannerTokens(token, rest);
    assert OccursAt(line, "ffmpeg", 0);
  }

  /** The last step of `CheckFfmpegRelease`: the path through `check_ffmpeg_path` once its facts are known. */
  lemma ReleaseVersion(out: string, line: string, ver: string)
    requires Split(out, '\n')[0] == line
    requires Contains(line, "ffmpeg") && !Contains(line, "git")
    requires |Split(line, ' ')| >= 3 && Split(Split(line, ' ')[2], '-')[0] == ver
    ensures CheckFfmpegPath(Some(out)) == Ok(ver)
  {
  }

  /** The banner's first line is the release line. */
  lemma ReleaseLine(ver: string, build: string, rest: string, more: string)
    requires '\n' !in ver && '\n' !in build && '\n' !in rest
    ensures var line := "ffmpeg version " + ver + "-" + build + " " + rest;
      Split(line + "\n" + more, '\n')[0] == line
  {
    var token := ver + "-" + build;
    assert "ffmpeg version " + ver + "-" + build + " " + rest == "ffmpeg version " + token + " " + rest;
    BannerFirstLine(token, rest, more);
  }

  /** The release line's third token, cut at its first `-`, is the version. */
  lemma ReleaseToken(ver: string, build: string, rest: string)
    requires ' ' !in ver && '-' !in ver && ' ' !in build
    ensures var tokens := Split("ffmpeg version " + ver + "-" + build + " " + rest, ' ');
      |tokens| >= 3 && Split(tokens[2], '-')[0] == ver
  {
    var token := ver + "-" + build;
    assert "ffmpeg version " + ver + "-" + build + " " + rest == "ffmpeg version " + token + " " + rest;
    BannerTokens(token, rest);
    assert token == ver + ['-'] + build;
    SplitAfterPiece(ver, build, '-');
  }

  lemma BannerFirstLine(token: string, rest: string, more: string)
    requires '\n' !in token && '\n' !in rest
    ensures Split("ffmpeg version " + token + " " + rest + "\n" + more, '\n')[0] == "ffmpeg version " + token + " " + rest
  {
    var line := "ffmpeg version " + token + " " + rest;
    assert '\n' !in "ffmpeg version ";
    assert '\n' !in line;
    assert line + "\n" + more == line + ['\n'] + more;
    SplitAfterPiece(line, more, '\n');
  }

  lemma BannerTokens(token: string, rest: string)
    requires ' ' !in token
    ensures var tokens := Split("ffmpeg version " + token + " " + rest, ' ');
      |tokens| >= 3 && tokens[2] == token
  {
    var line := "ffmpeg version " + token + " " + rest;
    assert line == "ffmpeg" + [' '] + ("version" + [' '] + (token + [' '] + rest));
    SplitAfterPiece(token, rest, ' ');
    SplitAfterPiece("version", token + [' '] + rest, ' ');
    SplitAfterPiece("ffmpeg", "version" + [' '] + (token + [' '] + rest), ' ');
  }

  /** `handle_batch`'s list: the stripped lines of the file that are not blank, in order. */
  function BatchUrls(lines: seq<string>): (urls: seq<string>)
    ensures |urls| <= |lines|
    ensures forall j :: 0 <= j < |urls| ==> urls[j] != [] && Strip(urls[j]) == urls[j]
  {
    if lines == [] then []
    else
      var u := Strip(lines[|lines| - 1]);
      StripIdempotent(lines[|lines| - 1]);
      BatchUrls(lines[..|lines| - 1]) + (if u != [] then [u] else [])
  }

  /** The list holds the stripped text of every non-blank line, and nothing else. */
  lemma {:induction false} BatchUrlsMeaning(lines: seq<string>)
    ensures forall u :: u in BatchUrls(lines) <==> u != [] && exists i :: 0 <= i < |lines| && Strip(lines[i]) == u
  {
    if lines != [] {
      var n := |lines| - 1;
      BatchUrlsMeaning(lines[..n]);
      assert forall i :: 0 <= i < n ==> lines[..n][i] == lines[i];
    }
  }

  /** A one-line file gives its stripped line, or nothing when it is blank. */
  lemma BatchUrlsOne(line: string)
    ensures BatchUrls([line]) == (if Strip(line) != [] then [Strip(line)] else [])
  {
    assert [line][..0] == [];
  }

  /** Lines are read independently: the list of two files joined is the two lists joined. */
  lemma {:induction false} BatchUrlsAppend(a: seq<string>, b: seq<string>)
    ensures BatchUrls(a + b) == BatchUrls(a) + BatchUrls(b)
  {
    if b == [] {
      assert a + b == a;
    } else {
      var front := b[..|b| - 1];
      BatchUrlsAppend(a, front);
      assert (a + b)[..|a + b| - 1] == a + front;
      assert (a + b)[|a + b| - 1] == b[|b| - 1];
      var u := Strip(b[|b| - 1]);
      var tail := if u != [] then [u] else [];
      assert BatchUrls(b) == BatchUrls(front) + tail;
      Strings.AppendAssoc(BatchUrls(a), BatchUrls(front), tail);
    }
  }

  // ---------------------------------------------------------------------
  // Credentials and login

  /** The settings `main` keeps; credentials are what the prompts replace. */
  datatype Config = Config(username: string, password: string, secondPassword: string, ffmpegPath: string)

  /**
   * `get_credential_input`: the three answers replace the credentials,
   * and the label of each one that differs from before is added to the
   * set of changed settings (the user name is labelled as a nickname).
   */
  function CredentialInput(config: Config, username: string, password: string, secondPassword: string, changed: set<string>)
    : (r: (Config, set<string>))
    ensures r.0.username == username && r.0.password == password && r.0.secondPassword == secondPassword
    ensures r.0.ffmpegPath == config.ffmpegPath
    ensures changed <= r.1 && r.1 - changed <= {"2차 비밀번호", "닉네임", "비밀번호"}
    ensures "2차 비밀번호" in r.1 <==> "2차 비밀번호" in changed || secondPassword != config.secondPassword
    ensures "닉네임" in r.1 <==> "닉네임" in changed || username != config.username
    ensures "비밀번호" in r.1 <==> "비밀번호" in changed || password != config.password
  {
    var c := config.(username := username, password := password, secondPassword := secondPassword);
    var s1 := if secondPassword != config.secondPassword then changed + {"2차 비밀번호"} else changed;
    var s2 := if username != config.username then s1 + {"닉네임"} else s1;
    var s3 := if password != config.password then s2 + {"비밀번호"} else s2;
    (c, s3)
  }

  /** Typing the same credentials again marks nothing as changed. */
  lemma CredentialsUnchanged(config: Config, changed: set<string>)
    ensures CredentialInput(config, config.username, config.password, config.secondPassword, changed) == (config, changed)
  {
  }

  /**
   * `try_login`: a `LoginError` becomes False; any other exception
   * escapes; otherwise True, even when `login` itself returned False.
   */
  function TryLogin(before: AuthProbe, reply: LoginReply, after: AuthProbe, second: LoginReply): (r: Result<bool, LoginFailure>)
    ensures r == Ok(true) <==> Login(before, reply, after, second).Ok?
    ensures r == Ok(false) <==> Login(before, reply, after, second).Err? && Login(before, reply, after, second).error.Rejected?
    ensures r.Err? ==> r == Login(before, reply, after, second) && !r.error.Rejected?
  {
    match Login(before, reply, after, second)
    case Ok(_) => Ok(true)
    case Err(Rejected(_)) => Ok(false)
    case Err(f) => Err(f)
  }

  /** An accepted login whose confirming probe fails is still reported as a success. */
  lemma TryLoginTrustsLogin(before: AuthProbe, reply: LoginReply, after: AuthProbe, second: LoginReply)
    requires Login(before, reply, after, second) == Ok(false)
    ensures TryLogin(before, reply, after, second) == Ok(true)
  {
  }

  /** Already logged in: success without a login request. */
  lemma TryLoginWhenLoggedIn(before: AuthProbe, reply: LoginReply, after: AuthProbe, second: LoginReply)
    requires CheckAuth(before)
    ensures TryLogin(before, reply, after, second) == Ok(true)
  {
    LoginWhenLoggedIn(before, reply, after, second);
  }
}
