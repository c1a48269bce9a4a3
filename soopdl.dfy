/**
 * `soop_dl`, the older driver: its ffmpeg command lines, its `download`
 * (segment loop, merge, cleanup) and `try_login`.
 *
 * Its segment loop allows 1 ms of slack. A segment's progress is added
 * to the running total only when the segment fell short, and neither
 * ffmpeg's exit code nor ffprobe is consulted. The merge is labelled
 * complete or aborted, and cleanup runs in either case.
 *
 * As in the newer driver, the filesystem is a set of paths, every
 * child's output is given as data, and a child that fails may leave no
 * file behind.
 */
module SoopDl {
  import opened Wrappers
  import opened Strings
  import opened Util
  import opened Soop
  import opened Manifests
  import opened Progress
  import Process
  import Cli

  /** A segment shorter than expected by more than this many milliseconds counts as truncated. */
  const Slack := 1

  // ---------------------------------------------------------------------
  // _get_download_process

  /**
   * `_get_download_process`'s argv: ffmpeg, the header arguments, the
   * input URL and fixed options, the output path, and `-threads 0`
   * appended after the path in turbo mode.
   */
  function DownloadCommand(ffmpegPath: string, url: string, path: string, args: seq<string>, turbo: bool): (cmd: seq<string>)
    ensures |cmd| == |args| + (if turbo then 17 else 15) && cmd[0] == ffmpegPath && cmd[|args| + 14] == path
  {
    [ffmpegPath] + args
      + ["-i", url, "-c", "copy", "-movflags", "faststart+frag_keyframe", "-f", "mp4", "-v", "quiet", "-stats",
         "-progress", "pipe:1", path]
      + (if turbo then ["-threads", "0"] else [])
  }

  /**
   * The shape of the argv: ffmpeg first, the header arguments intact
   * right after it, then the input URL. The output path is last without
   * turbo; with turbo it is followed by `-threads 0`.
   */
  lemma DownloadCommandShape(ffmpegPath: string, url: string, path: string, args: seq<string>, turbo: bool)
    ensures var cmd := DownloadCommand(ffmpegPath, url, path, args, turbo);
      && |cmd| == |args| + (if turbo then 17 else 15)
      && cmd[0] == ffmpegPath && cmd[1..1 + |args|] == args
      && cmd[1 + |args|..3 + |args|] == ["-i", url]
      && (!turbo ==> cmd[|cmd| - 1] == path)
      && (turbo ==> cmd[|cmd| - 3] == path && cmd[|cmd| - 2..] == ["-threads", "0"])
  {
    var fixed := ["-i", url, "-c", "copy", "-movflags", "faststart+frag_keyframe", "-f", "mp4", "-v", "quiet", "-stats",
      "-progress", "pipe:1", path];
    var threads: seq<string> := if turbo then ["-threads", "0"] else [];
    var cmd := [ffmpegPath] + args + fixed + threads;
    assert cmd == DownloadCommand(ffmpegPath, url, path, args, turbo);
    assert |fixed| == 14 && cmd[1 + |args|..3 + |args|] == fixed[..2];
    assert cmd[1..1 + |args|] == args;
    assert cmd[|cmd| - 1 - |threads|] == path;
  }

  /** `os.path.join(dir, "tmp", file)`: where every segment is first placed. */
  function TmpPath(cwd: string, file: string): string {
    JoinPath(JoinPath(cwd, "tmp"), file)
  }

  /** `delete_spec_char(f"{title}.mp4")`: the output file name. */
  function OutputFile(title: string): string {
    DeleteSpecChar(title + ".mp4")
  }

  /**
   * Sanitising the title with its extension is sanitising the title
   * alone, so the segments start from the same path as in the newer
   * driver.
   */
  lemma OutputFileSame(cwd: string, title: string)
    ensures OutputFile(title) == DeleteSpecChar(title) + ".mp4"
    ensures TmpPath(cwd, OutputFile(title)) == Cli.TmpBase(cwd, title)
  {
    DeleteSpecCharConcat(title, ".mp4");
    assert forall i :: 0 <= i < |".mp4"| ==> !IsSpecChar(".mp4"[i]);
    DeleteSpecCharClean(".mp4");
  }

  /**
   * `_get_download_process` up to the launch: a free path is chosen
   * under `tmp`, then the argv is built for it.
   */
  method GetDownloadProcess(ffmpegPath: string, url: string, base: string, session: Session, turbo: bool, fs: set<string>)
    returns (path: string, cmd: seq<string>, ghost k: nat)
    ensures path !in fs && path == Cli.Named(base, k)
    ensures base !in fs ==> path == base
    ensures cmd == DownloadCommand(ffmpegPath, url, path, Process.Flags(Process.HeaderValues(session.headers, session.cookies)), turbo)
  {
    path, k := Cli.FreshPath(base, fs);
    cmd := BuildDownloadCommand(ffmpegPath, url, path, session, turbo);
  }

  /** The header arguments collected, then the argv list built and extended. */
  method BuildDownloadCommand(ffmpegPath: string, url: string, path: string, session: Session, turbo: bool)
    returns (cmd: seq<string>)
    ensures cmd == DownloadCommand(ffmpegPath, url, path, Process.Flags(Process.HeaderValues(session.headers, session.cookies)), turbo)
  {
    var headerArgs := Process.HeaderArgs(session.headers, session.cookies);
    cmd := [ffmpegPath] + headerArgs
      + ["-i", url, "-c", "copy", "-movflags", "faststart+frag_keyframe", "-f", "mp4", "-v", "quiet", "-stats",
         "-progress", "pipe:1", path];
    if turbo {
      cmd := cmd + ["-threads"];
      cmd := cmd + ["0"];
    }
  }

  // ---------------------------------------------------------------------
  // _get_concat_process

  /**
   * `_get_concat_process`'s argv: fixed options around the list file and
   * the export path (with `-threads 0` before `-y`), then a second
   * `-threads 0` in turbo mode.
   */
  function ConcatCommand(ffmpegPath: string, listPath: string, exportPath: string, turbo: bool): seq<string> {
    [ffmpegPath, "-f", "concat", "-safe", "0", "-i", listPath, "-c", "copy", "-threads", "0", "-y",
     "-v", "quiet", "-stats", "-progress", "pipe:1", exportPath]
      + (if turbo then ["-threads", "0"] else [])
  }

  /** The concat argv ends with the export path exactly without turbo. */
  lemma ConcatCommandShape(ffmpegPath: string, listPath: string, exportPath: string, turbo: bool)
    ensures var cmd := ConcatCommand(ffmpegPath, listPath, exportPath, turbo);
      && |cmd| == (if turbo then 20 else 18)
      && cmd[0] == ffmpegPath && cmd[5..7] == ["-i", listPath] && cmd[9..11] == ["-threads", "0"]
      && (!turbo ==> cmd[|cmd| - 1] == exportPath)
      && (turbo ==> cmd[|cmd| - 3] == exportPath && cmd[|cmd| - 2..] == ["-threads", "0"])
  {
    var fixed := [ffmpegPath, "-f", "concat", "-safe", "0", "-i", listPath, "-c", "copy", "-threads", "0", "-y",
      "-v", "quiet", "-stats", "-progress", "pipe:1", exportPath];
    var cmd := fixed + (if turbo then ["-threads", "0"] else []);
    assert cmd == ConcatCommand(ffmpegPath, listPath, exportPath, turbo);
    assert |fixed| == 18 && cmd[5..7] == fixed[5..7] && cmd[9..11] == fixed[9..11];
  }

  /**
   * The parts as `os.path.abspath` gives them. `abspath` stands for that
   * function, which depends on the working directory.
   */
  function Absolute(parts: seq<string>, abspath: string -> string): (r: seq<string>)
    ensures |r| == |parts| && forall i :: 0 <= i < |parts| ==> r[i] == abspath(parts[i])
  {
    if parts == [] then [] else Absolute(parts[..|parts| - 1], abspath) + [abspath(parts[|parts| - 1])]
  }

  /**
   * Read back line by line, the list file holds one `file '<abspath(part)>'`
   * line per part, in order, and nothing after the last newline.
   */
  lemma AbsoluteListLines(parts: seq<string>, abspath: string -> string)
    requires forall i :: 0 <= i < |parts| ==> '\n' !in abspath(parts[i])
    ensures var lines := Split(Process.ConcatListText(Absolute(parts, abspath)), '\n');
      |lines| == |parts| + 1 && lines[|parts|] == []
      && forall i :: 0 <= i < |parts| ==> lines[i] == "file '" + abspath(parts[i]) + "'"
  {
    Process.ConcatListLines(Absolute(parts, abspath));
  }

  /** One more part: its absolute path goes last. */
  lemma AbsoluteSnoc(parts: seq<string>, abspath: string -> string, i: nat)
    requires i < |parts|
    ensures Absolute(parts[..i + 1], abspath) == Absolute(parts[..i], abspath) + [abspath(parts[i])]
  {
    assert parts[..i + 1][..i] == parts[..i];
  }

  /** The list file written line by line, each part made absolute. */
  method WriteAbsoluteList(parts: seq<string>, abspath: string -> string) returns (text: string)
    ensures text == Process.ConcatListText(Absolute(parts, abspath))
  {
    text := [];
    for i := 0 to |parts|
      invariant text == Process.ConcatListText(Absolute(parts[..i], abspath))
    {
      AbsoluteSnoc(parts, abspath, i);
      Process.ConcatListSnoc(Absolute(parts[..i], abspath), abspath(parts[i]));
      text := text + ("file '" + abspath(parts[i]) + "'\n");
    }
    assert parts[..|parts|] == parts;
  }

  /**
   * `_get_concat_process` up to the launch: the list file written with
   * absolute paths at `listPath` (a `NamedTemporaryFile` created with
   * `delete=False`, so it stays on disk), then a free export path chosen
   * on the filesystem that now holds it, the argv built. `listed` is the
   * filesystem with the list file.
   */
  method GetConcatProcess(ffmpegPath: string, cwd: string, file: string, parts: seq<string>, turbo: bool,
                          listPath: string, abspath: string -> string, fs: set<string>)
    returns (exportPath: string, listText: string, cmd: seq<string>, listed: set<string>)
    ensures listText == Process.ConcatListText(Absolute(parts, abspath)) && listed == fs + {listPath}
    ensures exportPath !in listed && Cli.NameFor(exportPath, JoinPath(cwd, file))
    ensures JoinPath(cwd, file) !in listed ==> exportPath == JoinPath(cwd, file)
    ensures cmd == ConcatCommand(ffmpegPath, listPath, exportPath, turbo)
  {
    listText := WriteAbsoluteList(parts, abspath);
    listed := fs + {listPath};
    ghost var k;
    exportPath, k := Cli.FreshPath(JoinPath(cwd, file), listed);
    cmd := BuildConcatCommand(ffmpegPath, listPath, exportPath, turbo);
  }

  /** The concat argv list built and extended. */
  method BuildConcatCommand(ffmpegPath: string, listPath: string, exportPath: string, turbo: bool) returns (cmd: seq<string>)
    ensures cmd == ConcatCommand(ffmpegPath, listPath, exportPath, turbo)
  {
    cmd := [ffmpegPath, "-f", "concat", "-safe", "0", "-i", listPath, "-c", "copy", "-threads", "0", "-y",
            "-v", "quiet", "-stats", "-progress", "pipe:1", exportPath];
    if turbo {
      cmd := cmd + ["-threads"];
      cmd := cmd + ["0"];
    }
  }

  // ---------------------------------------------------------------------
  // The segment loop of download

  /** How the segment loop ends: segments visited, the accumulated total, and the exception caught, if any. */
  datatype SegmentsResult = SegmentsResult(visited: nat, total: int, error: Option<ProgressError>)

  /**
   * The loop from segment `i` on, with `total` accumulated so far. A
   * segment whose progress reader raises ends the loop with that error; a
   * segment short by more than the slack adds its last progress value and
   * ends the loop; any other segment is complete and adds nothing.
   */
  function SegmentsFrom(items: seq<(string, int)>, runs: nat -> SegmentRun, i: nat, total: int): (r: SegmentsResult)
    requires i <= |items|
    ensures i <= r.visited <= |items|
    decreases |items| - i
  {
    if i == |items| then SegmentsResult(i, total, None)
    else
      match Cli.Observed(runs, i)
      case Err(e) => SegmentsResult(i + 1, total, Some(e))
      case Ok(v) =>
        if v < items[i].1 - Slack then SegmentsResult(i + 1, total + v, None)
        else SegmentsFrom(items, runs, i + 1, total)
  }

  /** Segment `j` was read and is long enough: the loop goes on after it. */
  predicate Reached(items: seq<(string, int)>, runs: nat -> SegmentRun, j: nat)
    requires j < |items|
  {
    var o := Cli.Observed(runs, j);
    o.Ok? && !(o.value < items[j].1 - Slack)
  }

  /** The first segment from `i` on that is not reached, or the number of segments. */
  function FirstShort(items: seq<(string, int)>, runs: nat -> SegmentRun, i: nat): (k: nat)
    requires i <= |items|
    ensures i <= k <= |items|
    ensures forall j :: i <= j < k ==> Reached(items, runs, j)
    ensures k < |items| ==> !Reached(items, runs, k)
    decreases |items| - i
  {
    if i == |items| || !Reached(items, runs, i) then i else FirstShort(items, runs, i + 1)
  }

  /**
   * The loop's outcome in terms of the segments. It visits every segment
   * up to and including the first one not reached. The total gains that
   * segment's last progress value when it was merely short, and nothing
   * otherwise; an error is reported exactly when its reader raised.
   */
  lemma {:induction false} SegmentsMeaning(items: seq<(string, int)>, runs: nat -> SegmentRun, i: nat, total: int)
    requires i <= |items|
    ensures var r := SegmentsFrom(items, runs, i, total);
      var k := FirstShort(items, runs, i);
      && r.visited == (if k < |items| then k + 1 else k)
      && (k == |items| ==> r.total == total && r.error.None?)
      && (k < |items| && Cli.Observed(runs, k).Err? ==> r.total == total && r.error == Some(Cli.Observed(runs, k).error))
      && (k < |items| && Cli.Observed(runs, k).Ok? ==> r.total == total + Cli.Observed(runs, k).value && r.error.None?)
    decreases |items| - i
  {
    if i < |items| && Reached(items, runs, i) {
      SegmentsMeaning(items, runs, i + 1, total);
    }
  }

  /**
   * When every segment is reached, the total handed to the merge is 0, so
   * a merge child that reports times and then `progress=end` is labelled
   * complete whatever it reports, even no time at all.
   */
  lemma MergeLabelAfterFullRun(items: seq<(string, int)>, runs: nat -> SegmentRun, ts: seq<nat>, tail: seq<string>)
    requires FirstShort(items, runs, 0) == |items|
    ensures var seg := SegmentsFrom(items, runs, 0, 0);
      var merge := Consumed(ProgressValues(TimeLines(ts) + ["progress=end"] + tail));
      seg.total == 0 && seg.error.None? && merge.Ok? && merge.value >= seg.total - 1
  {
    SegmentsMeaning(items, runs, 0, 0);
    ConsumedOfTimes(ts, tail);
  }

  /**
   * What the loop has recorded about the segments launched so far: the
   * paths chosen, launch by launch, as `Cli.Chosen` says; path `j` is the
   * name reached from `base` at counter `counters[j]`; and launch `j` ran
   * ffmpeg on item `j`'s URL and path.
   */
  ghost predicate Started(parts: seq<string>, made: seq<bool>, cmds: seq<seq<string>>, after: set<string>, counters: seq<nat>,
                          files: set<string>, base: string, items: seq<(string, int)>, ffmpegPath: string, args: seq<string>, turbo: bool)
  {
    && |parts| <= |items|
    && Cli.Chosen(parts, made, after, files)
    && |counters| == |parts|
    && (forall j {:trigger counters[j]} :: 0 <= j < |parts| ==> parts[j] == Cli.Named(base, counters[j]))
    && |cmds| == |parts|
    && (forall j {:trigger cmds[j]} :: 0 <= j < |cmds| ==> cmds[j] == DownloadCommand(ffmpegPath, items[j].0, parts[j], args, turbo))
  }

  /**
   * The record grows by one launch on a path free on the current
   * filesystem; the path joins the filesystem when the child created it.
   */
  lemma StartedSnoc(parts: seq<string>, made: seq<bool>, cmds: seq<seq<string>>, after: set<string>, counters: seq<nat>,
                    files: set<string>, base: string, items: seq<(string, int)>, ffmpegPath: string, args: seq<string>, turbo: bool,
                    p: string, k: nat, wrote: bool)
    requires |parts| < |items|
    requires Started(parts, made, cmds, after, counters, files, base, items, ffmpegPath, args, turbo)
    requires p !in after && p == Cli.Named(base, k)
    ensures Started(parts + [p], made + [wrote], cmds + [DownloadCommand(ffmpegPath, items[|parts|].0, p, args, turbo)],
                    (if wrote then after + {p} else after), counters + [k], files, base, items, ffmpegPath, args, turbo)
  {
    CommandsSnoc(parts, cmds, items, ffmpegPath, args, turbo, p);
    Cli.NamesSnoc(parts, counters, base, p, k);
    assert (parts + [p])[..|parts|] == parts;
    assert (made + [wrote])[..|made|] == made;
    assert (after + {p}) - {p} == after;
  }

  /** The command facts of the record survive one more launch. */
  lemma CommandsSnoc(parts: seq<string>, cmds: seq<seq<string>>, items: seq<(string, int)>, ffmpegPath: string,
                     args: seq<string>, turbo: bool, p: string)
    requires |cmds| == |parts| < |items|
    requires forall j {:trigger cmds[j]} :: 0 <= j < |cmds| ==> cmds[j] == DownloadCommand(ffmpegPath, items[j].0, parts[j], args, turbo)
    ensures var parts', cmds' := parts + [p], cmds + [DownloadCommand(ffmpegPath, items[|parts|].0, p, args, turbo)];
      forall j {:trigger cmds'[j]} :: 0 <= j < |cmds'| ==> cmds'[j] == DownloadCommand(ffmpegPath, items[j].0, parts'[j], args, turbo)
  {
    var parts', cmds' := parts + [p], cmds + [DownloadCommand(ffmpegPath, items[|parts|].0, p, args, turbo)];
    forall j | 0 <= j < |cmds'| ensures cmds'[j] == DownloadCommand(ffmpegPath, items[j].0, parts'[j], args, turbo) {
      if j < |cmds| {
        assert cmds'[j] == cmds[j] && parts'[j] == parts[j];
      }
    }
  }

  /** Whether each of the first `n` children wrote its file. */
  ghost function Made(runs: nat -> SegmentRun, n: nat): (made: seq<bool>)
    ensures |made| == n && forall j :: 0 <= j < n ==> made[j] == runs(j).Wrote()
  {
    seq(n, j requires 0 <= j < n => runs(j).Wrote())
  }

  /** One more child: its flag goes last. */
  lemma MadeSnoc(runs: nat -> SegmentRun, n: nat)
    ensures Made(runs, n + 1) == Made(runs, n) + [runs(n).Wrote()]
  {
    assert Made(runs, n + 1)[..n] == Made(runs, n);
  }

  /**
   * The segment loop: for each item in order, a free path is chosen and
   * recorded, the child launched on it and its progress read; a raised
   * error or a short segment ends the loop.
   */
  method DownloadSegments(items: seq<(string, int)>, base: string, ffmpegPath: string, session: Session, turbo: bool,
                          runs: nat -> SegmentRun, files: set<string>, ghost args: seq<string>)
    returns (total: int, parts: seq<string>, error: Option<ProgressError>, cmds: seq<seq<string>>, after: set<string>,
             ghost made: seq<bool>, ghost counters: seq<nat>)
    requires args == Process.Flags(Process.HeaderValues(session.headers, session.cookies))
    ensures SegmentsResult(|parts|, total, error) == SegmentsFrom(items, runs, 0, 0)
    ensures |made| == |parts| && forall j :: 0 <= j < |parts| ==> made[j] == runs(j).Wrote()
    ensures Started(parts, made, cmds, after, counters, files, base, items, ffmpegPath, args, turbo)
  {
    total, parts, error, cmds, after, made, counters := 0, [], None, [], files, [], [];
    var i := 0;
    while i < |items|
      invariant 0 <= i <= |items| && |parts| == i
      invariant SegmentsFrom(items, runs, i, total) == SegmentsFrom(items, runs, 0, 0)
      invariant made == Made(runs, i) && error.None?
      invariant Started(parts, made, cmds, after, counters, files, base, items, ffmpegPath, args, turbo)
    {
      parts, made, cmds, after, counters := Start(parts, made, cmds, after, counters, files, base, items, ffmpegPath, session, turbo, args, runs(i));
      MadeSnoc(runs, i);
      var stop;
      total, error, stop := ReadSegment(items, runs, i, total);
      if stop {
        break;
      }
      i := i + 1;
    }
  }

  /**
   * The rest of one turn of the segment loop once the child is launched:
   * its progress read, then the turn either ends the loop with the error
   * raised or with a short segment's last value added, or goes on.
   */
  method ReadSegment(items: seq<(string, int)>, runs: nat -> SegmentRun, i: nat, total: int)
    returns (total': int, error: Option<ProgressError>, stop: bool)
    requires i < |items|
    ensures stop ==> SegmentsResult(i + 1, total', error) == SegmentsFrom(items, runs, i, total)
    ensures !stop ==> error.None? && total' == total && SegmentsFrom(items, runs, i + 1, total) == SegmentsFrom(items, runs, i, total)
  {
    var observed := Cli.Segment(runs(i));
    assert observed == Cli.Observed(runs, i);
    if observed.Err? {
      return total, Some(observed.error), true;
    }
    if observed.value < items[i].1 - Slack {
      return total + observed.value, None, true;
    }
    return total, None, false;
  }

  /**
   * One launch: a path chosen and recorded, the command built for the
   * next item, and the child `run` leaves its file there when it wrote one.
   */
  method Start(parts: seq<string>, ghost made: seq<bool>, cmds: seq<seq<string>>, after: set<string>, ghost counters: seq<nat>,
               files: set<string>, base: string, items: seq<(string, int)>, ffmpegPath: string, session: Session, turbo: bool,
               ghost args: seq<string>, run: SegmentRun)
    returns (parts': seq<string>, ghost made': seq<bool>, cmds': seq<seq<string>>, after': set<string>, ghost counters': seq<nat>)
    requires |parts| < |items|
    requires args == Process.Flags(Process.HeaderValues(session.headers, session.cookies))
    requires Started(parts, made, cmds, after, counters, files, base, items, ffmpegPath, args, turbo)
    ensures |parts'| == |parts| + 1
    ensures made' == made + [run.Wrote()]
    ensures Started(parts', made', cmds', after', counters', files, base, items, ffmpegPath, args, turbo)
  {
    var path, cmd, k := GetDownloadProcess(ffmpegPath, items[|parts|].0, base, session, turbo, after);
    StartedSnoc(parts, made, cmds, after, counters, files, base, items, ffmpegPath, args, turbo, path, k, run.Wrote());
    parts', made', cmds', counters' := parts + [path], made + [run.Wrote()], cmds + [cmd], counters + [k];
    after' := if run.Wrote() then after + {path} else after;
  }

  // ---------------------------------------------------------------------
  // Reading the pairs from the manifest

  /** Looking up an attribute a `Manifest` instance does not have. */
  datatype AttributeError = AttributeError(name: string)

  /**
   * The (url, duration) pairs read through the attribute `name` of a
   * `Manifest` whose entries are `items`. The class defines the property
   * `items` and nothing else that yields the pairs.
   */
  function PairsAttribute(items: seq<(string, int)>, name: string): (r: Result<seq<(string, int)>, AttributeError>)
    ensures r.Ok? <==> name == "items"
    ensures r.Ok? ==> r.value == items
    ensures r.Err? ==> r.error.name == name
  {
    if name == "items" then Ok(items) else Err(AttributeError(name))
  }

  /**
   * The segment phase with the pairs read through attribute `name`: the
   * loop header raises before the first segment when the attribute is
   * missing, and the handler around the loop then returns True.
   */
  function SegmentsVia(items: seq<(string, int)>, runs: nat -> SegmentRun, name: string): Result<SegmentsResult, AttributeError> {
    match PairsAttribute(items, name)
    case Err(e) => Err(e)
    case Ok(pairs) => Ok(SegmentsFrom(pairs, runs, 0, 0))
  }

  /**
   * As written, the loop reads `manifest.list`, so no segment is ever
   * downloaded: for every manifest the segment phase raises
   * `AttributeError('list')`. Reading `items` instead gives the loop
   * above, which launches at least one segment whenever the manifest is
   * not empty.
   */
  lemma ListAttributeFinding(items: seq<(string, int)>, runs: nat -> SegmentRun)
    ensures SegmentsVia(items, runs, "list") == Err(AttributeError("list"))
    ensures SegmentsVia(items, runs, "items") == Ok(SegmentsFrom(items, runs, 0, 0))
    ensures items != [] ==> SegmentsFrom(items, runs, 0, 0).visited >= 1
  {
  }

  // ---------------------------------------------------------------------
  // download

  /**
   * How `download` ends. A reader error in the segment loop is caught and
   * True returned. A reader error while the merge runs escapes `download`.
   * An `OSError` during cleanup returns True. Otherwise it returns None
   * after printing the export path. `merged` is the label the merge got.
   */
  datatype DownloadOutcome =
    | SegmentError(error: ProgressError)
    | MergeError(error: ProgressError)
    | CleanupFailed(merged: bool)
    | Finished(path: string, merged: bool)

  /**
   * The outcome of `download` over the manifest's `items`, given what each
   * child reports and which parts cannot be removed. The merge runs over
   * whatever parts were recorded, truncated or not. It is labelled
   * complete unless its last progress value is below the total less 1 ms,
   * and cleanup runs under either label; it succeeds exactly when every
   * segment child left its file behind and none of them is held open.
   */
  ghost predicate DownloadEnds(items: seq<(string, int)>, runs: nat -> SegmentRun, concatRun: ConcatRun, locked: set<string>,
                               outcome: DownloadOutcome, parts: seq<string>)
  {
    var seg := SegmentsFrom(items, runs, 0, 0);
    var merge := Consumed(ProgressValues(concatRun.lines));
    && |parts| == seg.visited
    && (seg.error.Some? ==> outcome == SegmentError(seg.error.value))
    && (seg.error.None? && merge.Err? ==> outcome == MergeError(merge.error))
    && (seg.error.None? && merge.Ok? ==>
          && (outcome.CleanupFailed? || outcome.Finished?)
          && outcome.merged == (merge.value >= seg.total - 1)
          && (outcome.Finished? <==> forall j :: 0 <= j < |parts| ==> runs(j).Wrote() && parts[j] !in locked))
  }

  /**
   * `download` with its session given: the segment loop over the items,
   * then (unless it caught an error) the merge over the recorded parts
   * with the accumulated total, then the cleanup of those parts.
   */
  method DownloadWith(manifest: Manifest, ffmpegPath: string, session: Session, turbo: bool, cwd: string,
                      runs: nat -> SegmentRun, listPath: string, abspath: string -> string, concatRun: ConcatRun,
                      files: set<string>, locked: set<string>)
    returns (outcome: DownloadOutcome, parts: seq<string>, after: set<string>)
    requires listPath !in files && !Cli.NameFor(listPath, TmpPath(cwd, OutputFile(manifest.title)))
    ensures DownloadEnds(manifest.Items(), runs, concatRun, locked, outcome, parts)
    ensures forall j :: 0 <= j < |parts| ==> parts[j] !in files && Cli.NameFor(parts[j], TmpPath(cwd, OutputFile(manifest.title)))
    ensures forall j, k :: 0 <= j < k < |parts| && runs(j).Wrote() ==> parts[j] != parts[k]
    ensures outcome.SegmentError? ==>
      forall q :: q in after <==> q in files || exists j :: 0 <= j < |parts| && runs(j).Wrote() && parts[j] == q
    ensures outcome.Finished? ==> outcome.path !in files && Cli.NameFor(outcome.path, JoinPath(cwd, OutputFile(manifest.title)))
    ensures outcome.Finished? ==> (outcome.path in after <==> concatRun.Wrote()) && forall j :: 0 <= j < |parts| ==> parts[j] !in after
    ensures !outcome.SegmentError? ==> listPath in after
    ensures outcome.Finished? ==> forall q :: q !in parts && q != outcome.path && q != listPath ==> (q in after <==> q in files)
  {
    var items := manifest.Items();
    var file := OutputFile(manifest.title);
    var base := TmpPath(cwd, file);
    var total, error, cmds;
    ghost var made, counters;
    total, parts, error, cmds, after, made, counters :=
      DownloadSegments(items, base, ffmpegPath, session, turbo, runs, files, Process.Flags(Process.HeaderValues(session.headers, session.cookies)));
    Cli.ChosenMeaning(parts, made, after, files);
    Cli.ChosenAllWritten(parts, made, after, files);
    assert forall j :: 0 <= j < |parts| ==> parts[j] == Cli.Named(base, counters[j]);
    if error.Some? {
      return SegmentError(error.value), parts, after;
    }
    assert '/' !in file by {
      forall i | 0 <= i < |file| ensures file[i] != '/' { assert !IsSpecChar(file[i]); }
    }
    forall j | 0 <= j < |parts| ensures !Cli.NameFor(parts[j], JoinPath(cwd, file)) {
      forall k: nat ensures parts[j] != Cli.Named(JoinPath(cwd, file), k) {
        Cli.NamesApart(cwd, file, counters[j], k);
      }
    }
    assert forall j :: 0 <= j < |parts| ==> parts[j] != listPath;
    outcome, after := MergeAndClean(ffmpegPath, cwd, file, parts, total, turbo, listPath, abspath, concatRun, after, locked);
  }

  /**
   * The rest of `download` once the segment loop has returned normally:
   * the merge over the recorded parts, its label, and the cleanup, which
   * succeeds exactly when the parts are distinct, all on disk and none
   * held open.
   */
  method MergeAndClean(ffmpegPath: string, cwd: string, file: string, parts: seq<string>, total: int, turbo: bool,
                       listPath: string, abspath: string -> string, concatRun: ConcatRun, fs: set<string>, locked: set<string>)
    returns (outcome: DownloadOutcome, after: set<string>)
    requires forall j :: 0 <= j < |parts| ==> !Cli.NameFor(parts[j], JoinPath(cwd, file)) && parts[j] != listPath
    requires listPath !in fs
    ensures var merge := Consumed(ProgressValues(concatRun.lines));
      && (merge.Err? ==> outcome == MergeError(merge.error))
      && (merge.Ok? ==>
            && (outcome.CleanupFailed? || outcome.Finished?)
            && outcome.merged == (merge.value >= total - 1)
            && (outcome.Finished? <==>
                  && (forall j, k :: 0 <= j < k < |parts| ==> parts[j] != parts[k])
                  && (forall j :: 0 <= j < |parts| ==> parts[j] in fs && parts[j] !in locked)))
    ensures listPath in after
    ensures outcome.MergeError? ==>
      && fs <= after
      && (forall q :: q in after - fs - {listPath} ==> Cli.NameFor(q, JoinPath(cwd, file)))
      && |after - fs - {listPath}| == (if concatRun.Wrote() then 1 else 0)
    ensures outcome.Finished? ==> outcome.path !in fs && outcome.path != listPath && Cli.NameFor(outcome.path, JoinPath(cwd, file))
    ensures outcome.Finished? ==> (outcome.path in after <==> concatRun.Wrote()) && forall j :: 0 <= j < |parts| ==> parts[j] !in after
    ensures outcome.Finished? ==> forall q :: q !in parts && q != outcome.path && q != listPath ==> (q in after <==> q in fs)
  {
    var exportPath, listText, cmd, listed := GetConcatProcess(ffmpegPath, cwd, file, parts, turbo, listPath, abspath, fs);
    after := if concatRun.Wrote() then listed + {exportPath} else listed;
    Cli.BesideList(fs, listPath, exportPath, concatRun.Wrote());
    var out := ReadOutTime(concatRun.lines);
    var merge := ConsumeProgress(out);
    if merge.Err? {
      return MergeError(merge.error), after;
    }
    var merged := !(merge.value < total - 1);
    assert forall j :: 0 <= j < |parts| ==> parts[j] != exportPath;
    var removed, left, ok := Cli.RemoveTempFiles(parts, after, locked);
    CleanupBesideExport(parts, fs, listPath, exportPath, concatRun.Wrote(), locked);
    if !ok {
      return CleanupFailed(merged), left;
    }
    return Finished(exportPath, merged), left;
  }

  /**
   * Cleanup on the filesystem the merge left, which holds the list file
   * and, when the merge child wrote it, the new export file: the parts are
   * all removed exactly when they are distinct, all on disk before the
   * merge and none held open, and nothing but the parts is touched.
   */
  lemma CleanupBesideExport(parts: seq<string>, fs: set<string>, listPath: string, exportPath: string, wrote: bool,
                            locked: set<string>)
    requires listPath !in fs && exportPath !in fs && exportPath != listPath
    requires forall j :: 0 <= j < |parts| ==> parts[j] != exportPath && parts[j] != listPath
    ensures var written := if wrote then fs + {listPath} + {exportPath} else fs + {listPath};
      var (n, left) := Cli.Removal(parts, written, locked);
      && (n == |parts| <==>
            && (forall j, k :: 0 <= j < k < |parts| ==> parts[j] != parts[k])
            && (forall j :: 0 <= j < |parts| ==> parts[j] in fs && parts[j] !in locked))
      && (n == |parts| ==> forall j :: 0 <= j < |parts| ==> parts[j] !in left)
      && (exportPath in left <==> wrote) && listPath in left
      && (forall q :: q !in parts && q != exportPath && q != listPath ==> (q in left <==> q in fs))
  {
    var written := if wrote then fs + {listPath} + {exportPath} else fs + {listPath};
    assert forall j :: 0 <= j < |parts| ==> (parts[j] in written <==> parts[j] in fs);
    Cli.RemovalStops(parts, written, locked);
    Cli.RemovalMeaning(parts, written, locked);
    var (n, left) := Cli.Removal(parts, written, locked);
    assert exportPath !in parts[..n] && listPath !in parts[..n];
    assert forall q :: q in parts[..n] ==> q in parts;
    if n == |parts| {
      assert parts[..n] == parts;
    }
  }

  /**
   * `download`: the shared session is fetched (and created on first
   * use), then the download proceeds with it.
   */
  method Download(client: SoopClient, manifest: Manifest, ffmpegPath: string, turbo: bool, cwd: string, defaults: seq<Header>,
                  runs: nat -> SegmentRun, listPath: string, abspath: string -> string, concatRun: ConcatRun,
                  files: set<string>, locked: set<string>)
    returns (outcome: DownloadOutcome, parts: seq<string>, after: set<string>)
    requires listPath !in files && !Cli.NameFor(listPath, TmpPath(cwd, OutputFile(manifest.title)))
    modifies client
    ensures client.session != null && (old(client.session) != null ==> client.session == old(client.session))
    ensures DownloadEnds(manifest.Items(), runs, concatRun, locked, outcome, parts)
    ensures forall j :: 0 <= j < |parts| ==> parts[j] !in files
    ensures outcome.Finished? ==> outcome.path !in files && (outcome.path in after <==> concatRun.Wrote())
    ensures !outcome.SegmentError? ==> listPath in after
  {
    var session := client.GetSession(defaults);
    outcome, parts, after := DownloadWith(manifest, ffmpegPath, session, turbo, cwd, runs, listPath, abspath, concatRun, files, locked);
  }

  // ---------------------------------------------------------------------
  // try_login

  /**
   * `try_login`: True without any request when login is not asked for;
   * otherwise what `login` returns, False for a `LoginError`, and any
   * other exception escapes.
   */
  function TryLogin(doLogin: bool, before: AuthProbe, reply: LoginReply, after: AuthProbe, second: LoginReply)
    : (r: Result<bool, LoginFailure>)
    ensures !doLogin ==> r == Ok(true)
    ensures doLogin ==> (r == Ok(true) <==> Login(before, reply, after, second) == Ok(true))
    ensures doLogin ==> (r == Ok(false) <==> (Login(before, reply, after, second) == Ok(false)
      || (Login(before, reply, after, second).Err? && Login(before, reply, after, second).error.Rejected?)))
    ensures r.Err? ==> doLogin && r == Login(before, reply, after, second) && !r.error.Rejected?
  {
    if !doLogin then Ok(true)
    else
      match Login(before, reply, after, second)
      case Ok(b) => Ok(b)
      case Err(Rejected(_)) => Ok(false)
      case Err(f) => Err(f)
  }

  /**
   * Compared with the newer driver's `try_login`, which reports success
   * whenever `login` returns: the two differ exactly when `login` returned
   * False, that is when the probe after an accepted login disagrees.
   */
  lemma TryLoginDiffers(before: AuthProbe, reply: LoginReply, after: AuthProbe, second: LoginReply)
    ensures TryLogin(true, before, reply, after, second) != Cli.TryLogin(before, reply, after, second)
      <==> Login(before, reply, after, second) == Ok(false)
    ensures Login(before, reply, after, second) == Ok(false) ==>
      TryLogin(true, before, reply, after, second) == Ok(false) && Cli.TryLogin(before, reply, after, second) == Ok(true)
  {
  }
}
