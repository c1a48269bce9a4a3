/**
 * `util`: the file-name sanitiser, the first-free-name search over the
 * existing paths, and the reader of ffmpeg's `-progress pipe:1` output.
 *
 * The filesystem is the finite set of paths that exist; the child's
 * stdout is the finite sequence of lines `readline()` returns before EOF.
 * Paths follow the POSIX rules of `os.path`.
 */
module Util {
  import opened Wrappers
  import opened Strings

  // ---------------------------------------------------------------------
  // delete_spec_char

  /** The characters of the class `[\/:*?"<>|]`; backslash is not among them. */
  predicate IsSpecChar(c: char) {
    c == '/' || c == ':' || c == '*' || c == '?' || c == '"' || c == '<' || c == '>' || c == '|'
  }

  /**
   * `delete_spec_char`: every special character removed, every other
   * character kept as often as it occurs.
   */
  function DeleteSpecChar(s: string): (r: string)
    ensures |r| <= |s|
    ensures forall i :: 0 <= i < |r| ==> !IsSpecChar(r[i])
  {
    if s == [] then []
    else (if IsSpecChar(s[0]) then [] else [s[0]]) + DeleteSpecChar(s[1..])
  }

  /** Each special character is gone; every other one occurs as often as before. */
  lemma {:induction false} DeleteSpecCharCounts(s: string, c: char)
    ensures multiset(DeleteSpecChar(s))[c] == if IsSpecChar(c) then 0 else multiset(s)[c]
  {
    if s != [] {
      DeleteSpecCharCounts(s[1..], c);
      assert s == [s[0]] + s[1..];
      assert multiset(s) == multiset([s[0]]) + multiset(s[1..]);
    }
  }

  /** Removal works piece by piece: the order of the kept characters is the original one. */
  lemma {:induction false} DeleteSpecCharConcat(a: string, b: string)
    ensures DeleteSpecChar(a + b) == DeleteSpecChar(a) + DeleteSpecChar(b)
  {
    if a == [] {
      assert a + b == b;
    } else {
      assert (a + b)[0] == a[0] && (a + b)[1..] == a[1..] + b;
      DeleteSpecCharConcat(a[1..], b);
    }
  }

  /** On one character: dropped exactly when it is special. */
  lemma DeleteSpecCharSingle(c: char)
    ensures DeleteSpecChar([c]) == if IsSpecChar(c) then [] else [c]
  {
    assert [c][1..] == [];
  }

  /** A text without special characters is left as it is. */
  lemma {:induction false} DeleteSpecCharClean(s: string)
    requires forall i :: 0 <= i < |s| ==> !IsSpecChar(s[i])
    ensures DeleteSpecChar(s) == s
  {
    if s != [] {
      DeleteSpecCharClean(s[1..]);
    }
  }

  /** Sanitising twice is sanitising once. */
  lemma DeleteSpecCharIdempotent(s: string)
    ensures DeleteSpecChar(DeleteSpecChar(s)) == DeleteSpecChar(s)
  {
    DeleteSpecCharClean(DeleteSpecChar(s));
  }

  // ---------------------------------------------------------------------
  // os.path on POSIX

  /** `s.rfind(c)`: the last position holding `c`, or -1. */
  function RFind(s: string, c: char): (k: int)
    ensures -1 <= k < |s|
    ensures k >= 0 ==> s[k] == c
    ensures forall j :: k < j < |s| ==> s[j] != c
  {
    if s == [] then -1
    else if s[|s| - 1] == c then |s| - 1
    else RFind(s[..|s| - 1], c)
  }

  /** `s.rstrip(c)`. */
  function RStripChar(s: string, c: char): (r: string)
    ensures |r| <= |s| && r == s[..|r|]
    ensures r == [] || r[|r| - 1] != c
  {
    if s == [] || s[|s| - 1] != c then s else RStripChar(s[..|s| - 1], c)
  }

  predicate AllChar(s: string, c: char) {
    forall i :: 0 <= i < |s| ==> s[i] == c
  }

  /**
   * `os.path.split`: the tail after the last `/`, and the head before it
   * without its trailing slashes unless the head is slashes only.
   */
  function SplitPath(p: string): (r: (string, string))
    ensures '/' !in r.1 && |r.1| <= |p|
    ensures p == p[..|p| - |r.1|] + r.1
  {
    var i := RFind(p, '/') + 1;
    var head := p[..i];
    var tail := p[i..];
    AfterLastSlash(p);
    (if head != [] && !AllChar(head, '/') then RStripChar(head, '/') else head, tail)
  }

  /** The text after the last `/` holds no `/`, and `p` is what comes before it followed by it. */
  lemma AfterLastSlash(p: string)
    ensures var i := RFind(p, '/') + 1;
      '/' !in p[i..] && p[..|p| - |p[i..]|] == p[..i] && p == p[..i] + p[i..]
  {
    var i := RFind(p, '/') + 1;
    var tail := p[i..];
    assert |p| - |tail| == i;
    forall j | 0 <= j < |tail| ensures tail[j] != '/' {
      assert tail[j] == p[i + j];
    }
    assert p == p[..i] + tail;
  }

  /** Only dots between positions `from` and `to` of `p`. */
  predicate DotsOnly(p: string, from: int, to: int)
    requires 0 <= from && to <= |p|
  {
    forall j :: from <= j < to ==> p[j] == '.'
  }

  /**
   * `os.path.splitext`: cut at the last dot of the last component, unless
   * the component has only dots before it (a leading-dot name has no extension).
   */
  function SplitExt(p: string): (r: (string, string))
    ensures r.0 + r.1 == p
    ensures r.1 == [] || r.1[0] == '.'
  {
    var sepIndex := RFind(p, '/');
    var dotIndex := RFind(p, '.');
    if dotIndex > sepIndex && !DotsOnly(p, sepIndex + 1, dotIndex) then
      assert p[..dotIndex] + p[dotIndex..] == p;
      (p[..dotIndex], p[dotIndex..])
    else
      assert p + [] == p;
      (p, [])
  }

  /** `os.path.join(a, b)` for two components. */
  function JoinPath(a: string, b: string): string {
    if StartsWith(b, "/") then b
    else if a == [] || a[|a| - 1] == '/' then a + b
    else a + "/" + b
  }

  /** What `join` puts in front of a second component that does not start with `/`. */
  function JoinPrefix(a: string): string {
    if a == [] || a[|a| - 1] == '/' then a else a + "/"
  }

  lemma JoinRelative(a: string, b: string)
    requires b == [] || b[0] != '/'
    ensures JoinPath(a, b) == JoinPrefix(a) + b
  {
  }

  /** `join` always ends with its second component, and keeps the first in front of a relative one. */
  lemma JoinKeepsParts(a: string, b: string)
    ensures var r := JoinPath(a, b); |r| >= |b| && r[|r| - |b|..] == b
    ensures !StartsWith(b, "/") ==> var r := JoinPath(a, b); |r| >= |a| + |b| && r[..|a|] == a
  {
  }

  // ---------------------------------------------------------------------
  // get_unique_filename

  /** `os.path.join(directory, f"{stem}({k}){ext}")`. */
  function Candidate(directory: string, stem: string, ext: string, k: nat): string {
    JoinPath(directory, stem + "(" + NatToString(k) + ")" + ext)
  }

  /** The `k`-th candidate: `directory/name(k)ext` with the stem sanitised. */
  function NumberedPath(filePath: string, k: nat): string {
    var (directory, filename) := SplitPath(filePath);
    var (name, ext) := SplitExt(filename);
    Candidate(directory, DeleteSpecChar(name), ext, k)
  }

  /** A stem without `/` makes candidates with different counters different. */
  lemma CandidateInjective(directory: string, stem: string, ext: string, j: nat, k: nat)
    requires stem == [] || stem[0] != '/'
    requires Candidate(directory, stem, ext, j) == Candidate(directory, stem, ext, k)
    ensures j == k
  {
    var q := JoinPrefix(directory) + stem + "(";
    var dj, dk, rest := NatToString(j), NatToString(k), ")" + ext;
    CandidateShape(directory, stem, ext, j);
    CandidateShape(directory, stem, ext, k);
    CountersAfterPrefix(q, dj + rest, dk + rest);
    DigitPrefixUnique(dj, rest, dk, rest);
    NatToStringInjective(j, k);
  }

  /** Equal strings with the same prefix agree after it. */
  lemma CountersAfterPrefix(q: string, a: string, b: string)
    requires q + a == q + b
    ensures a == b
  {
    assert (q + a)[|q|..] == a && (q + b)[|q|..] == b;
  }

  /** A candidate is the joined directory, the stem and `(`, then the counter's digits, `)` and the extension. */
  lemma CandidateShape(directory: string, stem: string, ext: string, k: nat)
    requires stem == [] || stem[0] != '/'
    ensures Candidate(directory, stem, ext, k) == (JoinPrefix(directory) + stem + "(") + (NatToString(k) + (")" + ext))
  {
    var b := stem + "(" + NatToString(k) + ")" + ext;
    assert b[0] != '/' by {
      if stem == [] { assert b[0] == '('; } else { assert b[0] == stem[0]; }
    }
    JoinRelative(directory, b);
    assert JoinPrefix(directory) + b == (JoinPrefix(directory) + stem + "(") + (NatToString(k) + (")" + ext));
  }

  /** Different counters give different candidates, so the search never repeats a path. */
  lemma NumberedPathInjective(filePath: string, j: nat, k: nat)
    requires NumberedPath(filePath, j) == NumberedPath(filePath, k)
    ensures j == k
  {
    var (directory, filename) := SplitPath(filePath);
    var (name, ext) := SplitExt(filename);
    var stem := DeleteSpecChar(name);
    assert stem == [] || !IsSpecChar(stem[0]);
    CandidateInjective(directory, stem, ext, j, k);
  }

  /** A head that is empty or ends with `/`, followed by text without `/`: the last `/` is the head's own. */
  lemma LastSlashAt(h: string, w: string)
    requires h == [] || h[|h| - 1] == '/'
    requires '/' !in w
    ensures RFind(h + w, '/') == |h| - 1
  {
    var s := h + w;
    forall j | |h| <= j < |s| ensures s[j] != '/' {
      assert s[j] == w[j - |h|];
    }
    assert h != [] ==> s[|h| - 1] == '/';
  }

  /**
   * The numbered names of `h + w`, where `w` is the last component: their
   * last `/` is no further right than one past the head's, and exactly
   * the head's when the head ends with a single `/` after some other
   * character.
   */
  lemma NumberedLastSlash(h: string, w: string, k: nat)
    requires h == [] || h[|h| - 1] == '/'
    requires '/' !in w
    ensures RFind(NumberedPath(h + w, k), '/') <= |h|
    ensures |h| >= 2 && h[|h| - 2] != '/' ==> RFind(NumberedPath(h + w, k), '/') == |h| - 1
  {
    var dir := SplitPath(h + w).0;
    SplitAfterHead(h, w);
    var (name, ext) := SplitExt(w);
    var b := DeleteSpecChar(name) + "(" + NatToString(k) + ")" + ext;
    CandidateTail(w, name, ext, k);
    JoinRelative(dir, b);
    LastSlashAt(JoinPrefix(dir), b);
    if |h| >= 2 && h[|h| - 2] != '/' {
      var front := h[..|h| - 1];
      assert RStripChar(front, '/') == front;
      assert JoinPrefix(front) == h;
    }
  }

  /** `os.path.split` of a head ending with `/` and a last component without `/`. */
  lemma SplitAfterHead(h: string, w: string)
    requires h == [] || h[|h| - 1] == '/'
    requires '/' !in w
    ensures SplitPath(h + w).1 == w
    ensures SplitPath(h + w).0 == (if h != [] && !AllChar(h, '/') then RStripChar(h, '/') else h)
    ensures |h| >= 2 && h[|h| - 2] != '/' ==> SplitPath(h + w).0 == h[..|h| - 1]
  {
    var p := h + w;
    LastSlashAt(h, w);
    var i := RFind(p, '/') + 1;
    assert p[..i] == h;
    assert p[i..] == w;
    if |h| >= 2 && h[|h| - 2] != '/' {
      SingleTrailingSlash(h);
    }
  }

  /** A text ending with one `/` after some other character loses just that `/` to `rstrip`. */
  lemma SingleTrailingSlash(h: string)
    requires |h| >= 2 && h[|h| - 1] == '/' && h[|h| - 2] != '/'
    ensures !AllChar(h, '/') && RStripChar(h, '/') == h[..|h| - 1]
  {
    var front := h[..|h| - 1];
    assert front[|front| - 1] == h[|h| - 2];
  }

  /** The text `get_unique_filename` puts after the directory holds no `/` and does not start with one. */
  lemma CandidateTail(w: string, name: string, ext: string, k: nat)
    requires '/' !in w && name + ext == w
    ensures var b := DeleteSpecChar(name) + "(" + NatToString(k) + ")" + ext;
      '/' !in b && b[0] != '/'
  {
    var stem, digits := DeleteSpecChar(name), NatToString(k);
    var b := stem + "(" + digits + ")" + ext;
    forall i | 0 <= i < |ext| ensures ext[i] != '/' { assert ext[i] == w[|name| + i]; }
    forall i | 0 <= i < |stem| ensures stem[i] != '/' { assert !IsSpecChar(stem[i]); }
    forall i | 0 <= i < |digits| ensures digits[i] != '/' { assert IsDigit(digits[i]); }
    forall i | 0 <= i < |b| ensures b[i] != '/' {
      if i < |stem| { assert b[i] == stem[i]; }
      else if i == |stem| { assert b[i] == '('; }
      else if i < |stem| + 1 + |digits| { assert b[i] == digits[i - |stem| - 1]; }
      else if i == |stem| + 1 + |digits| { assert b[i] == ')'; }
      else { assert b[i] == ext[i - |stem| - 2 - |digits|]; }
    }
  }

  /** The candidates with counters `1 .. c-1`. */
  ghost function Tried(directory: string, stem: string, ext: string, c: nat): set<string> {
    set j: nat | 1 <= j < c :: Candidate(directory, stem, ext, j)
  }

  /** One more taken candidate: the tried set grows by a path not tried before, still all taken. */
  lemma TriedStep(directory: string, stem: string, ext: string, c: nat, files: set<string>)
    requires stem == [] || stem[0] != '/'
    requires c >= 2 && Tried(directory, stem, ext, c - 1) <= files && Candidate(directory, stem, ext, c - 1) in files
    ensures Tried(directory, stem, ext, c) <= files
    ensures files - Tried(directory, stem, ext, c) < files - Tried(directory, stem, ext, c - 1)
  {
    var r := Candidate(directory, stem, ext, c - 1);
    forall j: nat | 1 <= j < c - 1
      ensures Candidate(directory, stem, ext, j) != r
    {
      if Candidate(directory, stem, ext, j) == r {
        CandidateInjective(directory, stem, ext, j, c - 1);
      }
    }
    assert Tried(directory, stem, ext, c) == Tried(directory, stem, ext, c - 1) + {r};
    assert r !in Tried(directory, stem, ext, c - 1);
    assert r in files - Tried(directory, stem, ext, c - 1);
  }

  /**
   * `get_unique_filename`: the path itself when it is free (unsanitised);
   * otherwise the candidate with the smallest counter `k >= 1` whose path
   * is free. The result is never an existing path.
   */
  method GetUniqueFilename(filePath: string, files: set<string>) returns (r: string)
    ensures r !in files
    ensures filePath !in files ==> r == filePath
    ensures filePath in files ==>
      exists k: nat :: 1 <= k && r == NumberedPath(filePath, k)
        && forall j: nat :: 1 <= j < k ==> NumberedPath(filePath, j) in files
  {
    var (directory, filename) := SplitPath(filePath);
    var (name, ext) := SplitExt(filename);
    name := DeleteSpecChar(name);
    assert name == [] || !IsSpecChar(name[0]);
    r := FirstFree(filePath, directory, name, ext, files);
    assert forall k: nat :: NumberedPath(filePath, k) == Candidate(directory, name, ext, k);
  }

  /** The search loop of `get_unique_filename`, over the candidates of the split path. */
  method FirstFree(filePath: string, directory: string, name: string, ext: string, files: set<string>) returns (r: string)
    requires name == [] || name[0] != '/'
    ensures r !in files
    ensures filePath !in files ==> r == filePath
    ensures filePath in files ==>
      exists k: nat :: 1 <= k && r == Candidate(directory, name, ext, k)
        && forall j: nat :: 1 <= j < k ==> Candidate(directory, name, ext, j) in files
  {
    var counter: nat := 1;
    r := filePath;
    while r in files
      invariant counter >= 1
      invariant counter == 1 ==> r == filePath
      invariant counter > 1 ==> filePath in files && r == Candidate(directory, name, ext, counter - 1)
      invariant forall j: nat :: 1 <= j < counter - 1 ==> Candidate(directory, name, ext, j) in files
      invariant Tried(directory, name, ext, counter - 1) <= files
      decreases files - Tried(directory, name, ext, counter - 1), if counter == 1 then 1 else 0
    {
      if counter > 1 {
        TriedStep(directory, name, ext, counter, files);
      } else {
        assert Tried(directory, name, ext, 1) == {} == Tried(directory, name, ext, 0);
      }
      r := Candidate(directory, name, ext, counter);
      counter := counter + 1;
    }
  }

  // ---------------------------------------------------------------------
  // read_out_time

  /** Why reading the progress stream raised. */
  datatype ProgressError =
    | MissingValue              // `out_time_ms` without `=`: IndexError
    | NotAnInteger(text: string) // `int()` refused the value: ValueError

  /**
   * What the generator yields before it stops: the values, and whether it
   * stopped by raising instead of after yielding -1.
   */
  datatype ReadOut = ReadOut(values: seq<int>, error: Option<ProgressError>)

  /** `n // 1000` for the positive divisor: a floor, as Python computes it. */
  function Millis(n: int): (ms: int)
    ensures ms * 1000 <= n < ms * 1000 + 1000
  {
    n / 1000
  }

  /** The value of an `out_time_ms` line: the text between the first and second `=`, in milliseconds. */
  function OutTime(line: string): (r: Result<int, ProgressError>)
    ensures r.Err? <==> |Split(line, '=')| < 2 || ParseInt(Split(line, '=')[1]).None?
  {
    var parts := Split(line, '=');
    if |parts| < 2 then Err(MissingValue)
    else
      match ParseInt(parts[1])
      case None => Err(NotAnInteger(parts[1]))
      case Some(n) => Ok(Millis(n))
  }

  function Cons(v: int, r: ReadOut): ReadOut {
    ReadOut([v] + r.values, r.error)
  }

  /**
   * The generator over the remaining lines, EOF included: a blank line or
   * EOF yields -1 and stops, a `progress...end` line does too, an
   * `out_time_ms` line yields its value or raises, any other line is skipped.
   */
  function ProgressValues(lines: seq<string>): ReadOut
    decreases |lines|
  {
    if lines == [] then ReadOut([-1], None)
    else
      var line := Strip(lines[0]);
      if line == [] then ReadOut([-1], None)
      else if StartsWith(line, "out_time_ms") then
        match OutTime(line)
        case Err(e) => ReadOut([], Some(e))
        case Ok(v) => Cons(v, ProgressValues(lines[1..]))
      else if StartsWith(line, "progress") && Contains(line, "end") then ReadOut([-1], None)
      else ProgressValues(lines[1..])
  }

  /** The values `vs` already yielded, followed by what the rest of the stream yields. */
  function After(vs: seq<int>, r: ReadOut): ReadOut {
    ReadOut(vs + r.values, r.error)
  }

  lemma AfterCons(vs: seq<int>, v: int, r: ReadOut)
    ensures After(vs, Cons(v, r)) == After(vs + [v], r)
  {
    assert vs + ([v] + r.values) == (vs + [v]) + r.values;
  }

  /** `read_out_time` run to exhaustion on the child's stdout lines. */
  method ReadOutTime(lines: seq<string>) returns (out: ReadOut)
    ensures out == ProgressValues(lines)
  {
    var i := 0;
    var values: seq<int> := [];
    assert lines[0..] == lines;
    while true
      invariant 0 <= i <= |lines|
      invariant After(values, ProgressValues(lines[i..])) == ProgressValues(lines)
      decreases |lines| - i
    {
      if i == |lines| {
        assert lines[i..] == [];
        return ReadOut(values + [-1], None);
      }
      assert lines[i..][0] == lines[i] && lines[i..][1..] == lines[i + 1..];
      var line := Strip(lines[i]);
      if line == [] {
        return ReadOut(values + [-1], None);
      }
      if StartsWith(line, "out_time_ms") {
        var outTime := OutTime(line);
        if outTime.Err? {
          return ReadOut(values, Some(outTime.error));
        }
        AfterCons(values, outTime.value, ProgressValues(lines[i + 1..]));
        values := values + [outTime.value];
      } else if StartsWith(line, "progress") && Contains(line, "end") {
        return ReadOut(values + [-1], None);
      }
      i := i + 1;
    }
  }

  /** A stream that does not raise ends with the sentinel -1. */
  lemma {:induction false} EndsWithSentinel(lines: seq<string>)
    ensures var r := ProgressValues(lines);
      r.error.None? ==> r.values != [] && r.values[|r.values| - 1] == -1
    decreases |lines|
  {
    if lines != [] {
      var line := Strip(lines[0]);
      if line == [] {
        assert ProgressValues(lines) == ReadOut([-1], None);
      } else if StartsWith(line, "out_time_ms") {
        if OutTime(line).Ok? {
          EndsWithSentinel(lines[1..]);
          assert ProgressValues(lines) == Cons(OutTime(line).value, ProgressValues(lines[1..]));
        } else {
          assert ProgressValues(lines).error.Some?;
        }
      } else if StartsWith(line, "progress") && Contains(line, "end") {
        assert ProgressValues(lines) == ReadOut([-1], None);
      } else {
        EndsWithSentinel(lines[1..]);
        assert ProgressValues(lines) == ProgressValues(lines[1..]);
      }
    }
  }

  /** An `out_time_ms` line whose value parses carries a time of at least 0 ms. */
  predicate TimeNonNegative(line: string) {
    StartsWith(line, "out_time_ms") && OutTime(line).Ok? ==> OutTime(line).value >= 0
  }

  /** Every `out_time_ms` value the stream carries is non-negative. */
  predicate TimesNonNegative(lines: seq<string>) {
    forall i :: 0 <= i < |lines| ==> TimeNonNegative(Strip(lines[i]))
  }

  /**
   * With non-negative times, -1 only ever appears as the last value, so
   * the consumer's `break` on -1 happens at the sentinel and nowhere else.
   */
  lemma {:induction false} SentinelOnlyLast(lines: seq<string>)
    requires TimesNonNegative(lines)
    ensures var vs := ProgressValues(lines).values;
      forall i :: 0 <= i < |vs| - 1 ==> vs[i] >= 0
    decreases |lines|
  {
    if lines != [] {
      assert TimesNonNegative(lines[1..]) by {
        forall i | 0 <= i < |lines[1..]| ensures TimeNonNegative(Strip(lines[1..][i])) {
          assert lines[1..][i] == lines[i + 1];
        }
      }
      SentinelOnlyLast(lines[1..]);
      assert var vs := ProgressValues(lines[1..]).values; forall i :: 0 <= i < |vs| - 1 ==> vs[i] >= 0;
      var line := Strip(lines[0]);
      assert TimeNonNegative(line);
      var rest := ProgressValues(lines[1..]).values;
      if line == [] || !StartsWith(line, "out_time_ms") {
        assert ProgressValues(lines).values == [-1] || ProgressValues(lines).values == rest;
      } else if OutTime(line).Ok? {
        var v := OutTime(line).value;
        assert v >= 0;
        var vs := [v] + rest;
        assert ProgressValues(lines).values == vs;
        forall i | 0 <= i < |vs| - 1 ensures vs[i] >= 0 {
          if i > 0 { assert vs[i] == rest[i - 1]; }
        }
      }
    }
  }

  /** A time of -1000 to -1 microseconds also yields -1: the consumer stops early on it. */
  lemma NegativeTimeLooksLikeSentinel(n: int)
    requires -1000 <= n < 0
    ensures Millis(n) == -1
  {
  }

  /** The text of an `out_time_ms` line for a time of `t` microseconds. */
  function TimeLine(t: nat): string {
    "out_time_ms=" + NatToString(t)
  }

  /** Each well-formed `out_time_ms` line yields its time divided down to milliseconds. */
  lemma OutTimeOfLine(t: nat)
    ensures Strip(TimeLine(t)) == TimeLine(t)
    ensures StartsWith(TimeLine(t), "out_time_ms")
    ensures OutTime(TimeLine(t)) == Ok(t / 1000)
  {
    var s := NatToString(t);
    var line := TimeLine(t);
    assert line[0] == 'o' && line[|line| - 1] == s[|s| - 1];
    StripNoEdges(line);
    assert line == Join(["out_time_ms", s], '=');
    assert forall i :: 0 <= i < |s| ==> s[i] != '=' by {
      assert forall i :: 0 <= i < |s| ==> IsDigit(s[i]);
    }
    assert '=' !in "out_time_ms";
    SplitJoin(["out_time_ms", s], '=');
    ParseIntToString(t);
  }

  function TimeLines(ts: seq<nat>): seq<string> {
    if ts == [] then [] else [TimeLine(ts[0])] + TimeLines(ts[1..])
  }

  function AllMillis(ts: seq<nat>): (ms: seq<int>)
    ensures |ms| == |ts| && forall i :: 0 <= i < |ts| ==> ms[i] == ts[i] / 1000
  {
    if ts == [] then [] else [ts[0] / 1000] + AllMillis(ts[1..])
  }

  /** A time line yields its value and reading goes on with the next line. */
  lemma ProgressOnTimeLine(t: nat, more: seq<string>)
    ensures ProgressValues([TimeLine(t)] + more) == Cons(t / 1000, ProgressValues(more))
  {
    OutTimeOfLine(t);
    var lines := [TimeLine(t)] + more;
    assert lines[0] == TimeLine(t) && lines[1..] == more;
    assert TimeLine(t) != [];
  }

  /** The end marker yields -1 and stops, whatever follows it. */
  lemma ProgressOnEnd(more: seq<string>)
    ensures ProgressValues(["progress=end"] + more) == ReadOut([-1], None)
  {
    var lines := ["progress=end"] + more;
    assert lines[0] == "progress=end";
    StripNoEdges("progress=end");
    assert "progress=end"[..8] == "progress";
    assert !StartsWith("progress=end", "out_time_ms");
    assert OccursAt("progress=end", "end", 9);
  }

  /**
   * A run that reports times `ts` and then `progress=end` yields each time
   * in milliseconds, then -1, and does not raise; later lines are never read.
   */
  lemma {:induction false} ProgressOfTimes(ts: seq<nat>, tail: seq<string>)
    ensures ProgressValues(TimeLines(ts) + ["progress=end"] + tail) == ReadOut(AllMillis(ts) + [-1], None)
  {
    if ts == [] {
      assert TimeLines(ts) + ["progress=end"] + tail == ["progress=end"] + tail;
      ProgressOnEnd(tail);
    } else {
      var more := TimeLines(ts[1..]) + ["progress=end"] + tail;
      assert TimeLines(ts) + ["progress=end"] + tail == [TimeLine(ts[0])] + more;
      ProgressOnTimeLine(ts[0], more);
      ProgressOfTimes(ts[1..], tail);
      assert AllMillis(ts) + [-1] == [ts[0] / 1000] + (AllMillis(ts[1..]) + [-1]);
    }
  }

  /** The three-line example: one and two seconds, then the end marker. */
  lemma ExampleProgress(lines: seq<string>)
    requires lines == ["out_time_ms=1000000", "out_time_ms=2000000", "progress=end"]
    ensures ProgressValues(lines) == ReadOut([1000, 2000, -1], None)
  {
    ExampleLines();
    ExampleMillis();
    ProgressOfTimes([1000000, 2000000], []);
  }

  lemma ExampleLines()
    ensures TimeLines([1000000, 2000000]) + ["progress=end"] + []
      == ["out_time_ms=1000000", "out_time_ms=2000000", "progress=end"]
  {
    var ts: seq<nat> := [1000000, 2000000];
    assert ts[1..][1..] == [];
    Digits1000000();
    Digits2000000();
    assert TimeLine(1000000) == "out_time_ms=1000000";
    assert TimeLine(2000000) == "out_time_ms=2000000";
  }

  lemma ExampleMillis()
    ensures AllMillis([1000000, 2000000]) == [1000, 2000]
  {
    var ts: seq<nat> := [1000000, 2000000];
    assert ts[1..][1..] == [];
  }

  lemma Digits1000000()
    ensures NatToString(1000000) == "1000000"
  {
    assert NatToString(1) == "1";
    assert NatToString(10) == "10";
    assert NatToString(100) == "100";
    assert NatToString(1000) == "1000";
    assert NatToString(10000) == "10000";
    assert NatToString(100000) == "100000";
  }

  lemma Digits2000000()
    ensures NatToString(2000000) == "2000000"
  {
    assert NatToString(2) == "2";
    assert NatToString(20) == "20";
    assert NatToString(200) == "200";
    assert NatToString(2000) == "2000";
    assert NatToString(20000) == "20000";
    assert NatToString(200000) == "200000";
  }
}
