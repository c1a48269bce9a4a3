/**
 * `process`: the ffmpeg command lines for one segment download and for
 * the final concat, and the text of the concat list file. Starting the
 * child (`subprocess.Popen`), creating directories and naming the
 * temporary list file are outside the model; the list file's path is an
 * input.
 */
module Process {
  import opened Strings
  import opened Soop

  // ---------------------------------------------------------------------
  // Header arguments

  /** Every header except `content-length` and `content-encoding`, compared in lower case, is passed on. */
  predicate Forwarded(h: Header) {
    ToLower(h.0) != "content-length" && ToLower(h.0) != "content-encoding"
  }

  /** The forwarded headers, in the session's order. */
  function ForwardedHeaders(hs: seq<Header>): (r: seq<Header>)
    ensures forall h :: h in r <==> h in hs && Forwarded(h)
    ensures |r| <= |hs|
  {
    if hs == [] then []
    else ForwardedHeaders(hs[..|hs| - 1]) + (if Forwarded(hs[|hs| - 1]) then [hs[|hs| - 1]] else [])
  }

  function HeaderLine(h: Header): string {
    h.0 + ": " + h.1
  }

  function CookieLine(c: Header): string {
    "Cookie: " + c.0 + "=" + c.1
  }

  function HeaderLines(hs: seq<Header>): (r: seq<string>)
    ensures |r| == |hs| && forall i :: 0 <= i < |hs| ==> r[i] == HeaderLine(hs[i])
  {
    if hs == [] then [] else HeaderLines(hs[..|hs| - 1]) + [HeaderLine(hs[|hs| - 1])]
  }

  function CookieLines(cs: seq<Header>): (r: seq<string>)
    ensures |r| == |cs| && forall i :: 0 <= i < |cs| ==> r[i] == CookieLine(cs[i])
  {
    if cs == [] then [] else CookieLines(cs[..|cs| - 1]) + [CookieLine(cs[|cs| - 1])]
  }

  // ---------------------------------------------------------------------
  // cookies.get_dict()

  /** The names of a list of pairs, in order. */
  function Names(hs: seq<Header>): (ns: seq<string>)
    ensures |ns| == |hs| && forall i :: 0 <= i < |hs| ==> ns[i] == hs[i].0
  {
    seq(|hs|, i requires 0 <= i < |hs| => hs[i].0)
  }

  predicate Distinct(ns: seq<string>) {
    forall i, j :: 0 <= i < j < |ns| ==> ns[i] != ns[j]
  }

  /** Each name once, in the order of its first occurrence. */
  function FirstOccurrences(ns: seq<string>): (r: seq<string>)
    ensures Distinct(r)
    ensures forall n :: n in r <==> n in ns
  {
    if ns == [] then []
    else
      var front := FirstOccurrences(ns[..|ns| - 1]);
      assert ns == ns[..|ns| - 1] + [ns[|ns| - 1]];
      if ns[|ns| - 1] in front then front else front + [ns[|ns| - 1]]
  }

  /** The first position of a name in a list of pairs. */
  function NameIndex(d: seq<Header>, name: string): (k: nat)
    requires name in Names(d)
    ensures k < |d| && d[k].0 == name
    ensures forall j :: 0 <= j < k ==> d[j].0 != name
  {
    if d[0].0 == name then 0
    else
      assert Names(d[1..]) == Names(d)[1..];
      1 + NameIndex(d[1..], name)
  }

  /**
   * `dictionary[c.0] = c.1`: a name already there keeps its place and
   * takes the new value, a new name goes last.
   */
  function SetCookie(d: seq<Header>, c: Header): seq<Header> {
    if c.0 in Names(d) then d[NameIndex(d, c.0) := c] else d + [c]
  }

  /** Setting keeps the order of the names and appends a new one. */
  lemma SetCookieNames(d: seq<Header>, c: Header)
    ensures Names(SetCookie(d, c)) == if c.0 in Names(d) then Names(d) else Names(d) + [c.0]
  {
  }

  /** Setting keeps the names distinct. */
  lemma SetCookieDistinct(d: seq<Header>, c: Header)
    requires Distinct(Names(d))
    ensures Distinct(Names(SetCookie(d, c)))
  {
    SetCookieNames(d, c);
    if c.0 !in Names(d) {
      var ns := Names(d) + [c.0];
      forall i, j | 0 <= i < j < |ns| ensures ns[i] != ns[j] {
        if j < |d| {
          assert ns[i] == Names(d)[i] && ns[j] == Names(d)[j];
        } else {
          assert ns[i] == Names(d)[i];
        }
      }
    }
  }

  /** On distinct names, setting holds the new pair and every pair of another name, and nothing else. */
  lemma SetCookieEntries(d: seq<Header>, c: Header)
    requires Distinct(Names(d))
    ensures c in SetCookie(d, c)
    ensures forall h :: h in SetCookie(d, c) ==> h == c || (h in d && h.0 != c.0)
    ensures forall h :: h in d && h.0 != c.0 ==> h in SetCookie(d, c)
  {
    var r := SetCookie(d, c);
    if c.0 in Names(d) {
      var k := NameIndex(d, c.0);
      assert r[k] == c;
      forall h | h in r ensures h == c || (h in d && h.0 != c.0) {
        var i :| 0 <= i < |r| && r[i] == h;
        if i != k {
          assert Names(d)[i] != Names(d)[k];
        }
      }
      forall h | h in d && h.0 != c.0 ensures h in r {
        var i :| 0 <= i < |d| && d[i] == h;
        assert r[i] == h;
      }
    }
  }

  /**
   * `cookies.get_dict()` over the jar, in the order the jar iterates its
   * cookies: one entry per name, at the place where the name first occurs.
   */
  function CookieDict(jar: seq<Header>): seq<Header> {
    if jar == [] then [] else SetCookie(CookieDict(jar[..|jar| - 1]), jar[|jar| - 1])
  }

  /** The names of the dict are those of the jar, each once, in the order they first occur. */
  lemma {:induction false} CookieDictNames(jar: seq<Header>)
    ensures Names(CookieDict(jar)) == FirstOccurrences(Names(jar))
  {
    if jar != [] {
      CookieDictNames(jar[..|jar| - 1]);
      assert Names(jar[..|jar| - 1]) == Names(jar)[..|jar| - 1];
      SetCookieNames(CookieDict(jar[..|jar| - 1]), jar[|jar| - 1]);
    }
  }

  /** What `get_dict` keeps: names are distinct, and every entry is a cookie of the jar. */
  lemma {:induction false} CookieDictMeaning(jar: seq<Header>)
    ensures Distinct(Names(CookieDict(jar)))
    ensures forall h :: h in CookieDict(jar) ==> h in jar
  {
    if jar != [] {
      var n := |jar| - 1;
      CookieDictMeaning(jar[..n]);
      SetCookieDistinct(CookieDict(jar[..n]), jar[n]);
      SetCookieEntries(CookieDict(jar[..n]), jar[n]);
      assert forall h :: h in jar[..n] ==> h in jar;
    }
  }

  /** The last cookie of each name in the jar is the one `get_dict` keeps. */
  lemma {:induction false} CookieDictKeepsLast(jar: seq<Header>)
    ensures forall k :: 0 <= k < |jar| && (forall j :: k < j < |jar| ==> jar[j].0 != jar[k].0) ==> jar[k] in CookieDict(jar)
  {
    if jar != [] {
      var n := |jar| - 1;
      var front := jar[..n];
      CookieDictKeepsLast(front);
      CookieDictMeaning(front);
      SetCookieEntries(CookieDict(front), jar[n]);
      forall k | 0 <= k < |jar| && (forall j :: k < j < |jar| ==> jar[j].0 != jar[k].0)
        ensures jar[k] in CookieDict(jar)
      {
        if k < n {
          assert front[k] == jar[k];
          forall j | k < j < |front| ensures front[j].0 != front[k].0 {
            assert front[j] == jar[j];
          }
          assert jar[n].0 != jar[k].0;
        }
      }
    }
  }

  /** A jar whose names are already distinct is its own dict. */
  lemma {:induction false} CookieDictOfDistinct(jar: seq<Header>)
    requires Distinct(Names(jar))
    ensures CookieDict(jar) == jar
  {
    if jar != [] {
      var n := |jar| - 1;
      var front, c := jar[..n], jar[n];
      assert jar == front + [c];
      var names := Names(jar);
      assert Names(front) == names[..n];
      assert Distinct(Names(front)) by {
        forall i, j | 0 <= i < j < n ensures Names(front)[i] != Names(front)[j] {
          assert names[i] != names[j];
        }
      }
      CookieDictOfDistinct(front);
      assert c.0 !in Names(front) by {
        forall i | 0 <= i < n ensures Names(front)[i] != c.0 {
          assert names[i] != names[n];
        }
      }
      calc {
        CookieDict(jar);
        SetCookie(CookieDict(front), c);
        SetCookie(front, c);
        front + [c];
        jar;
      }
    }
  }

  /** Two cookies of one name, as two domains of a jar may hold: the dict keeps the later value, once. */
  lemma CookieDictSameName(name: string, v1: string, v2: string)
    ensures CookieDict([(name, v1), (name, v2)]) == [(name, v2)]
  {
    assert [(name, v1), (name, v2)][..1] == [(name, v1)];
    assert [(name, v1)][..0] == [];
    assert CookieDict([(name, v1)]) == [(name, v1)];
  }

  /** The values passed with `-headers`: forwarded headers first, then one per entry of the cookie dict. */
  function HeaderValues(headers: seq<Header>, jar: seq<Header>): seq<string> {
    HeaderLines(ForwardedHeaders(headers)) + CookieLines(CookieDict(jar))
  }

  /** Each value preceded by its own `-headers` flag. */
  function Flags(values: seq<string>): (r: seq<string>)
    ensures |r| == 2 * |values|
    ensures forall i :: 0 <= i < |values| ==> r[2 * i] == "-headers" && r[2 * i + 1] == values[i]
  {
    if values == [] then []
    else
      var front := Flags(values[..|values| - 1]);
      var r := front + ["-headers", values[|values| - 1]];
      assert forall i :: 0 <= i < |values| - 1 ==> r[2 * i] == front[2 * i] && r[2 * i + 1] == front[2 * i + 1];
      r
  }

  lemma {:induction false} FlagsAppend(a: seq<string>, b: seq<string>)
    ensures Flags(a + b) == Flags(a) + Flags(b)
    decreases |b|
  {
    if b == [] {
      assert a + b == a;
    } else {
      var b0 := b[..|b| - 1];
      assert (a + b)[..|a + b| - 1] == a + b0;
      FlagsAppend(a, b0);
    }
  }

  /** The first loop: the forwarded headers, collected in the session's order. */
  method CollectForwarded(headers: seq<Header>) returns (kept: seq<Header>)
    ensures kept == ForwardedHeaders(headers)
  {
    kept := [];
    for i := 0 to |headers|
      invariant kept == ForwardedHeaders(headers[..i])
    {
      assert headers[..i + 1][..i] == headers[..i];
      if Forwarded(headers[i]) {
        kept := kept + [headers[i]];
      }
    }
    assert headers[..|headers|] == headers;
  }

  /** The second loop: a `-headers "k: v"` pair per kept header. */
  method AddHeaderFlags(kept: seq<Header>) returns (args: seq<string>)
    ensures args == Flags(HeaderLines(kept))
  {
    args := [];
    for i := 0 to |kept|
      invariant args == Flags(HeaderLines(kept[..i]))
    {
      HeaderFlagsStep(kept, i);
      args := args + ["-headers", HeaderLine(kept[i])];
    }
    assert kept[..|kept|] == kept;
  }

  /** One more kept header adds its flag pair at the end. */
  lemma HeaderFlagsStep(kept: seq<Header>, i: nat)
    requires i < |kept|
    ensures Flags(HeaderLines(kept[..i + 1])) == Flags(HeaderLines(kept[..i])) + ["-headers", HeaderLine(kept[i])]
  {
    assert kept[..i + 1][..i] == kept[..i];
    FlagsAppend(HeaderLines(kept[..i]), [HeaderLine(kept[i])]);
  }

  /** One more cookie adds its flag pair at the end. */
  lemma CookieFlagsStep(cookies: seq<Header>, i: nat)
    requires i < |cookies|
    ensures Flags(CookieLines(cookies[..i + 1])) == Flags(CookieLines(cookies[..i])) + ["-headers", CookieLine(cookies[i])]
  {
    assert cookies[..i + 1][..i] == cookies[..i];
    FlagsAppend(CookieLines(cookies[..i]), [CookieLine(cookies[i])]);
  }

  /** The third loop: a `-headers "Cookie: k=v"` pair per entry of the cookie dict, after what is there. */
  method AddCookieFlags(args: seq<string>, cookies: seq<Header>) returns (out: seq<string>)
    ensures out == args + Flags(CookieLines(cookies))
  {
    out := args;
    for i := 0 to |cookies|
      invariant out == args + Flags(CookieLines(cookies[..i]))
    {
      CookieFlagsStep(cookies, i);
      AppendAssoc(args, Flags(CookieLines(cookies[..i])), ["-headers", CookieLine(cookies[i])]);
      out := out + ["-headers", CookieLine(cookies[i])];
    }
    assert cookies[..|cookies|] == cookies;
  }

  /**
   * The header arguments: every forwarded session header, then every
   * entry of the jar's `get_dict()`, each behind its own `-headers` flag.
   */
  method HeaderArgs(headers: seq<Header>, jar: seq<Header>) returns (args: seq<string>)
    ensures args == Flags(HeaderValues(headers, jar))
  {
    var cookies := CookieDict(jar);
    var kept := CollectForwarded(headers);
    args := AddHeaderFlags(kept);
    args := AddCookieFlags(args, cookies);
    FlagsAppend(HeaderLines(kept), CookieLines(cookies));
  }

  /** A header is passed on exactly when it is in the session and not one of the two excluded names. */
  lemma ForwardedExactly(hs: seq<Header>, h: Header)
    ensures HeaderLine(h) in HeaderLines(ForwardedHeaders(hs)) <== h in hs && Forwarded(h)
    ensures h in ForwardedHeaders(hs) <==> h in hs && Forwarded(h)
  {
    if h in hs && Forwarded(h) {
      var fs := ForwardedHeaders(hs);
      var i :| 0 <= i < |fs| && fs[i] == h;
      assert HeaderLines(fs)[i] == HeaderLine(h);
    }
  }

  /** The forwarded headers keep the session's order: filtering works piece by piece. */
  lemma {:induction false} ForwardedAppend(a: seq<Header>, b: seq<Header>)
    ensures ForwardedHeaders(a + b) == ForwardedHeaders(a) + ForwardedHeaders(b)
    decreases |b|
  {
    if b == [] {
      assert a + b == a;
    } else {
      var b0 := b[..|b| - 1];
      assert (a + b)[..|a + b| - 1] == a + b0;
      ForwardedAppend(a, b0);
    }
  }

  // ---------------------------------------------------------------------
  // download_process


  /**
   * `download_process`'s argv: ffmpeg, the header arguments, the input
   * URL and fixed options, `-threads 0` in turbo mode, then the output path.
   */
  function DownloadCommand(ffmpegPath: string, url: string, path: string, args: seq<string>, turbo: bool): (cmd: seq<string>)
    ensures |cmd| == |args| + (if turbo then 16 else 14) && cmd[0] == ffmpegPath && cmd[|cmd| - 1] == path
  {
    [ffmpegPath] + args
      + ["-i", url, "-c", "copy", "-movflags", "faststart+frag_keyframe", "-f", "mp4", "-v", "error", "-progress", "pipe:1"]
      + (if turbo then ["-threads", "0"] else [])
      + [path]
  }

  /**
   * The shape of the download argv: ffmpeg first, the header arguments
   * intact right after it, then the input URL, and the output path last
   * in every case; `-threads 0` stands just before the path exactly in
   * turbo mode.
   */
  lemma DownloadCommandShape(ffmpegPath: string, url: string, path: string, args: seq<string>, turbo: bool)
    ensures var cmd := DownloadCommand(ffmpegPath, url, path, args, turbo);
      && |cmd| == |args| + (if turbo then 16 else 14)
      && cmd[0] == ffmpegPath && cmd[1..1 + |args|] == args
      && cmd[1 + |args|..3 + |args|] == ["-i", url]
      && cmd[|cmd| - 1] == path
      && (turbo <==> cmd[|cmd| - 3..|cmd| - 1] == ["-threads", "0"])
  {
    var fixed := ["-i", url, "-c", "copy", "-movflags", "faststart+frag_keyframe", "-f", "mp4", "-v", "error", "-progress", "pipe:1"];
    var threads: seq<string> := if turbo then ["-threads", "0"] else [];
    var cmd := [ffmpegPath] + args + fixed + threads + [path];
    assert cmd == DownloadCommand(ffmpegPath, url, path, args, turbo);
    assert |fixed| == 12 && cmd[1 + |args|..3 + |args|] == fixed[..2];
    assert cmd[1..1 + |args|] == args;
    assert cmd[|cmd| - 1 - |threads|..|cmd| - 1] == threads;
    assert !turbo ==> cmd[|cmd| - 3..|cmd| - 1] == fixed[10..];
  }

  /** `download_process` up to the launch: the header loops, then the list built and extended. */
  method DownloadProcess(ffmpegPath: string, url: string, path: string, session: Session, turbo: bool)
    returns (cmd: seq<string>)
    ensures cmd == DownloadCommand(ffmpegPath, url, path, Flags(HeaderValues(session.headers, session.cookies)), turbo)
  {
    var args := HeaderArgs(session.headers, session.cookies);
    cmd := [ffmpegPath] + args
      + ["-i", url, "-c", "copy", "-movflags", "faststart+frag_keyframe", "-f", "mp4", "-v", "error", "-progress", "pipe:1"];
    if turbo {
      cmd := cmd + ["-threads"];
      cmd := cmd + ["0"];
    }
    cmd := cmd + [path];
  }

  // ---------------------------------------------------------------------
  // concat_process

  /** `concat_process`'s argv: fixed options around the list file and the export path, then `-threads 0` in turbo mode. */
  function ConcatCommand(ffmpegPath: string, listPath: string, exportPath: string, turbo: bool): (cmd: seq<string>)
    ensures |cmd| == (if turbo then 19 else 17) && cmd[0] == ffmpegPath && cmd[6] == listPath && cmd[16] == exportPath
  {
    [ffmpegPath, "-f", "concat", "-safe", "0", "-i", listPath, "-c", "copy", "-threads", "0", "-y",
     "-v", "error", "-progress", "pipe:1", exportPath]
      + (if turbo then ["-threads", "0"] else [])
  }

  /**
   * The shape of the concat argv. The fixed part already holds
   * `-threads 0` before `-y`; turbo appends a second `-threads 0` after
   * the export path, so the export path is the last element only without
   * turbo.
   */
  lemma ConcatCommandShape(ffmpegPath: string, listPath: string, exportPath: string, turbo: bool)
    ensures var cmd := ConcatCommand(ffmpegPath, listPath, exportPath, turbo);
      && |cmd| == (if turbo then 19 else 17)
      && cmd[0] == ffmpegPath && cmd[5..7] == ["-i", listPath]
      && (!turbo ==> cmd[|cmd| - 1] == exportPath)
      && (turbo ==> cmd[|cmd| - 3] == exportPath && cmd[|cmd| - 2..] == ["-threads", "0"])
  {
    var fixed := [ffmpegPath, "-f", "concat", "-safe", "0", "-i", listPath, "-c", "copy", "-threads", "0", "-y",
      "-v", "error", "-progress", "pipe:1", exportPath];
    var cmd := fixed + (if turbo then ["-threads", "0"] else []);
    assert cmd == ConcatCommand(ffmpegPath, listPath, exportPath, turbo);
    assert |fixed| == 17 && cmd[5..7] == fixed[5..7];
  }

  /** The line for one part, without its newline: `file '<part>'`. */
  function ConcatLine(part: string): string {
    "file '" + part + "'"
  }

  function ConcatLines(parts: seq<string>): (r: seq<string>)
    ensures |r| == |parts| && forall i :: 0 <= i < |parts| ==> r[i] == ConcatLine(parts[i])
  {
    if parts == [] then [] else ConcatLines(parts[..|parts| - 1]) + [ConcatLine(parts[|parts| - 1])]
  }

  /** The list file's text: one newline-terminated line per part, in order. */
  function ConcatListText(parts: seq<string>): (text: string)
    ensures text == [] <==> parts == []
    ensures parts != [] ==> text[|text| - 1] == '\n'
  {
    if parts == [] then [] else ConcatListText(parts[..|parts| - 1]) + ConcatLine(parts[|parts| - 1]) + "\n"
  }

  /** One more part: its line goes last. */
  lemma ConcatListSnoc(parts: seq<string>, part: string)
    ensures ConcatListText(parts + [part]) == ConcatListText(parts) + ("file '" + part + "'\n")
  {
    assert (parts + [part])[..|parts|] == parts;
  }

  /** The write loop: the paths are written as given, in order. */
  method WriteConcatList(parts: seq<string>) returns (text: string)
    ensures text == ConcatListText(parts)
  {
    text := [];
    for i := 0 to |parts|
      invariant text == ConcatListText(parts[..i])
    {
      assert parts[..i + 1] == parts[..i] + [parts[i]];
      ConcatListSnoc(parts[..i], parts[i]);
      text := text + ("file '" + parts[i] + "'\n");
    }
    assert parts[..|parts|] == parts;
  }

  /**
   * Read back line by line, the list file holds exactly one `file '...'`
   * line per part, in order, and nothing after the last newline, as long
   * as no path holds a newline itself.
   */
  lemma ConcatListLines(parts: seq<string>)
    requires forall i :: 0 <= i < |parts| ==> '\n' !in parts[i]
    ensures Split(ConcatListText(parts), '\n') == ConcatLines(parts) + [""]
  {
    var lines := ConcatLines(parts) + [""];
    ConcatListJoin(parts);
    forall i | 0 <= i < |lines| ensures '\n' !in lines[i] {
      if i < |parts| {
        ConcatLineOneLine(parts[i]);
      }
    }
    SplitJoin(lines, '\n');
  }

  lemma ConcatLineOneLine(part: string)
    requires '\n' !in part
    ensures '\n' !in ConcatLine(part)
  {
    var l := ConcatLine(part);
    forall j | 0 <= j < |l| ensures l[j] != '\n' {
      if j < 6 {
        assert l[j] == "file '"[j];
      } else if j < 6 + |part| {
        assert l[j] == part[j - 6];
      }
    }
  }

  lemma {:induction false} ConcatListJoin(parts: seq<string>)
    ensures ConcatListText(parts) == Join(ConcatLines(parts) + [""], '\n')
    decreases |parts|
  {
    if parts != [] {
      var front := parts[..|parts| - 1];
      ConcatListJoin(front);
      JoinSnoc(ConcatLines(front), ConcatLine(parts[|parts| - 1]));
    }
  }

  /** Joining with a trailing empty piece: adding a line adds it and the separator. */
  lemma {:induction false} JoinSnoc(ls: seq<string>, l: string)
    ensures Join(ls + [l] + [""], '\n') == Join(ls + [""], '\n') + l + "\n"
    decreases |ls|
  {
    if ls == [] {
      assert [l] + [""] == [l, ""];
      assert ls + [l] + [""] == [l, ""];
      assert Join([""], '\n') == "";
      assert Join([l, ""], '\n') == l + "\n" + "";
    } else {
      assert (ls + [l] + [""])[1..] == ls[1..] + [l] + [""];
      assert (ls + [""])[1..] == ls[1..] + [""];
      JoinSnoc(ls[1..], l);
    }
  }
}
