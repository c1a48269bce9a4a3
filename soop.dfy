/**
 * `SOOP`: the shared HTTP session, the login result-code dispatch, and
 * the choice of segment files for a VOD.
 *
 * Every HTTP exchange is an input value: the `check_auth` probe, the
 * login replies and the VOD API reply are datatypes describing what the
 * server answered, or that the request itself failed.
 */
module Soop {
  import opened Wrappers
  import opened Strings
  import opened Types
  import opened Manifests

  // ---------------------------------------------------------------------
  // Constants

  /** The keys of `QUALITY_MAPPING`. */
  const QualityLabels: seq<string> := ["1440p", "1080p", "720p", "540p"]

  const UserAgent := "Mozilla/5.0 (Windows NT 10.0; Win64; x64) AppleWebKit/537.36 (KHTML, like Gecko) Chrome/131.0.0.0 Safari/537.36"

  /** One header or cookie: a name and its value. */
  type Header = (string, string)

  /** `HEADERS`, in declaration order. */
  const FixedHeaders: seq<Header> := [
    ("User-Agent", UserAgent),
    ("Referer", "https://play.sooplive.co.kr/"),
    ("Origin", "https://play.sooplive.co.kr")
  ]

  // ---------------------------------------------------------------------
  // Case-insensitive header maps

  predicate SameName(a: string, b: string) {
    ToLower(a) == ToLower(b)
  }

  /** The value stored under a name, compared case-insensitively. */
  function Find(hs: seq<Header>, k: string): Option<string> {
    if hs == [] then None
    else if SameName(hs[0].0, k) then Some(hs[0].1)
    else Find(hs[1..], k)
  }

  /**
   * `headers[k] = v` on a case-insensitive dict: an entry with the same
   * name is replaced where it stands, name spelling included; otherwise
   * the entry goes at the end.
   */
  function SetHeader(hs: seq<Header>, k: string, v: string): seq<Header> {
    if hs == [] then [(k, v)]
    else if SameName(hs[0].0, k) then [(k, v)] + hs[1..]
    else [hs[0]] + SetHeader(hs[1..], k, v)
  }

  /** `headers.update(us)`: one assignment per entry, in order. */
  function UpdateAll(hs: seq<Header>, us: seq<Header>): seq<Header>
    decreases |us|
  {
    if us == [] then hs else UpdateAll(SetHeader(hs, us[0].0, us[0].1), us[1..])
  }

  /** An assignment makes the name hold the new value and leaves every other name alone. */
  lemma {:induction false} FindSetHeader(hs: seq<Header>, k: string, v: string, q: string)
    ensures Find(SetHeader(hs, k, v), q) == if SameName(k, q) then Some(v) else Find(hs, q)
  {
    if hs != [] && !SameName(hs[0].0, k) {
      FindSetHeader(hs[1..], k, v, q);
      assert SetHeader(hs, k, v)[1..] == SetHeader(hs[1..], k, v);
    }
  }

  /**
   * After `update(us)`, a name the updates mention holds the value of its
   * last mention; every other name keeps its old value.
   */
  lemma {:induction false} FindUpdateAll(hs: seq<Header>, us: seq<Header>, q: string)
    ensures Find(UpdateAll(hs, us), q) == if Mentions(us, q) then LastMention(us, q) else Find(hs, q)
    decreases |us|
  {
    if us != [] {
      FindUpdateAll(SetHeader(hs, us[0].0, us[0].1), us[1..], q);
      FindSetHeader(hs, us[0].0, us[0].1, q);
    }
  }

  predicate Mentions(us: seq<Header>, q: string) {
    exists i :: 0 <= i < |us| && SameName(us[i].0, q)
  }

  /** The value of the last update that names `q`. */
  function LastMention(us: seq<Header>, q: string): Option<string> {
    if us == [] then None
    else if Mentions(us[1..], q) then LastMention(us[1..], q)
    else if SameName(us[0].0, q) then Some(us[0].1)
    else None
  }

  /** The three fixed names differ even ignoring case: they differ in their first letter. */
  lemma FixedNamesDiffer()
    ensures !SameName("User-Agent", "Referer") && !SameName("User-Agent", "Origin") && !SameName("Referer", "Origin")
  {
    assert ToLower("User-Agent")[0] == 'u' && ToLower("Referer")[0] == 'r' && ToLower("Origin")[0] == 'o';
  }

  /**
   * A session that went through `update(HEADERS)` sends the three fixed
   * headers with their values, and keeps every other default header.
   */
  lemma SessionHeaders(defaults: seq<Header>, q: string)
    ensures var hs := UpdateAll(defaults, FixedHeaders);
      && Find(hs, "User-Agent") == Some(UserAgent)
      && Find(hs, "Referer") == Some("https://play.sooplive.co.kr/")
      && Find(hs, "Origin") == Some("https://play.sooplive.co.kr")
      && (!SameName(q, "User-Agent") && !SameName(q, "Referer") && !SameName(q, "Origin") ==> Find(hs, q) == Find(defaults, q))
  {
    FixedNamesDiffer();
    var us := FixedHeaders;
    assert us[1..][1..] == [us[2]] && us[1..][1..][1..] == [];
    FindUpdateAll(defaults, us, "User-Agent");
    FindUpdateAll(defaults, us, "Referer");
    FindUpdateAll(defaults, us, "Origin");
    FindUpdateAll(defaults, us, q);
    assert SameName("User-Agent", "User-Agent") && SameName("Referer", "Referer") && SameName("Origin", "Origin");
    assert SameName(us[1..][1..][0].0, "Origin") && Mentions(us[1..][1..], "Origin") && !Mentions(us[1..][1..][1..], "Origin");
    assert LastMention(us[1..][1..], "Origin") == Some("https://play.sooplive.co.kr");
    assert Mentions(us[1..], "Origin") && Mentions(us, "Origin");
    if !SameName(q, "User-Agent") && !SameName(q, "Referer") && !SameName(q, "Origin") {
      assert !Mentions(us, q);
    }
  }

  // ---------------------------------------------------------------------
  // The session

  /**
   * `requests.Session`: its headers, and its cookie jar in the order the jar
   * iterates it (a jar may hold one name more than once, for different
   * domains or paths).
   */
  class Session {
    var headers: seq<Header>
    var cookies: seq<Header>

    /** A new session carrying the library's own default headers. */
    constructor (defaults: seq<Header>)
      ensures headers == defaults && cookies == []
    {
      headers := defaults;
      cookies := [];
    }

    /** `headers.update(us)`, one assignment at a time. */
    method Update(us: seq<Header>)
      modifies this
      ensures headers == UpdateAll(old(headers), us)
      ensures cookies == old(cookies)
    {
      var i := 0;
      while i < |us|
        invariant 0 <= i <= |us|
        invariant UpdateAll(headers, us[i..]) == UpdateAll(old(headers), us)
        invariant cookies == old(cookies)
      {
        assert us[i..][0] == us[i] && us[i..][1..] == us[i + 1..];
        headers := SetHeader(headers, us[i].0, us[i].1);
        i := i + 1;
      }
      assert us[i..] == [];
    }
  }

  /** The class `SOOP`: its one piece of state is the shared session, created on first use. */
  class SoopClient {
    var session: Session?

    constructor ()
      ensures session == null
    {
      session := null;
    }

    /**
     * `SOOP.session()`: the first call creates the session and sets the
     * fixed headers on it; later calls return that same object untouched.
     */
    method GetSession(defaults: seq<Header>) returns (s: Session)
      modifies this
      ensures session == s
      ensures old(session) != null ==> s == old(session) && unchanged(s)
      ensures old(session) == null ==> fresh(s) && s.headers == UpdateAll(defaults, FixedHeaders) && s.cookies == []
    {
      if session == null {
        var created := new Session(defaults);
        created.Update(FixedHeaders);
        session := created;
      }
      s := session;
    }

    /**
     * `get_manifest`: the URL is checked before anything else, so a bad
     * URL creates no session; otherwise the session exists afterwards
     * and the returned manifest holds the selected segments.
     */
    method GetManifest(raw: string, netloc: string, path: string, quality: Option<string>,
                       defaults: seq<Header>, api: int -> VodReply)
      returns (res: Result<Manifest, ManifestError>)
      modifies this
      ensures ParsePlayerUrl(raw, netloc, path).Err? ==> session == old(session)
      ensures ParsePlayerUrl(raw, netloc, path).Ok? ==>
        session != null && (old(session) != null ==> session == old(session))
      ensures var spec := ManifestOutcome(raw, netloc, path, quality, api);
        match res
        case Err(e) => spec == Err(e)
        case Ok(m) => (fresh(m) && m.Valid() && spec.Ok?
          && m.title == spec.value.0 && m.Items() == spec.value.1)
    {
      var u := ParsePlayerUrl(raw, netloc, path);
      if u.Err? {
        return Err(BadUrl(u.error));
      }
      res := FetchManifest(u.value.titleNo, quality, defaults, api);
    }

    /** `get_manifest` once the URL has given its title number. */
    method FetchManifest(titleNo: int, quality: Option<string>, defaults: seq<Header>, api: int -> VodReply)
      returns (res: Result<Manifest, ManifestError>)
      modifies this
      ensures session != null && (old(session) != null ==> session == old(session))
      ensures var spec := ManifestOf(titleNo, quality, api);
        match res
        case Err(e) => spec == Err(e)
        case Ok(m) => (fresh(m) && m.Valid() && spec.Ok?
          && m.title == spec.value.0 && m.Items() == spec.value.1)
    {
      var manifest := new Manifest();
      var s := GetSession(defaults);
      var reply := api(titleNo);
      if reply.VodUnreachable? || IsHttpError(reply.status) {
        return Err(RequestFailed);
      }
      if reply.data.None? {
        return Err(NoData);
      }
      var data := reply.data.value;
      var desired := TargetQuality(QualityLabels, quality, data.fileResolution);
      var height := desired[..|desired| - 1];
      AddSelected(manifest, data.files, height);
      manifest.SetTitle(data.title);
      if manifest.Count() == 0 {
        return Err(Empty);
      }
      return Ok(manifest);
    }
  }

  /** The outer loop of `get_manifest`: every group in order. */
  method AddSelected(manifest: Manifest, files: seq<FileGroup>, height: string)
    modifies manifest
    requires manifest.Valid()
    ensures manifest.Valid() && manifest.title == old(manifest.title)
    ensures manifest.Items() == old(manifest.Items()) + Selected(files, height)
  {
    var i := 0;
    while i < |files|
      invariant 0 <= i <= |files|
      invariant manifest.Valid() && manifest.title == old(manifest.title)
      invariant manifest.Items() == old(manifest.Items()) + Selected(files[..i], height)
    {
      ghost var before := manifest.Items();
      AddKept(manifest, files[i].qualityInfo, files[i].duration, height);
      SelectedStep(files, i, height, old(manifest.Items()), before, manifest.Items());
      i := i + 1;
    }
    assert files[..i] == files;
  }

  /** One more group of the outer loop, as `AddSelected` accumulates it. */
  lemma SelectedStep(files: seq<FileGroup>, i: nat, height: string, start: seq<(string, int)>, before: seq<(string, int)>,
                     now: seq<(string, int)>)
    requires i < |files|
    requires before == start + Selected(files[..i], height)
    requires now == before + Kept(files[i].qualityInfo, files[i].duration, height)
    ensures now == start + Selected(files[..i + 1], height)
  {
    SelectedLast(files, i, height);
    var sel, kept := Selected(files[..i], height), Kept(files[i].qualityInfo, files[i].duration, height);
    AppendAssoc(start, sel, kept);
  }


  lemma SelectedLast(files: seq<FileGroup>, i: nat, height: string)
    requires i < |files|
    ensures Selected(files[..i + 1], height) == Selected(files[..i], height) + Kept(files[i].qualityInfo, files[i].duration, height)
  {
    assert files[..i + 1][..i] == files[..i];
  }

  /** The inner loop of `get_manifest`: `add_vod` for each variant of the wanted height. */
  method AddKept(manifest: Manifest, variants: seq<QualityVariant>, duration: int, height: string)
    modifies manifest
    requires manifest.Valid()
    ensures manifest.Valid() && manifest.title == old(manifest.title)
    ensures manifest.Items() == old(manifest.Items()) + Kept(variants, duration, height)
  {
    var j := 0;
    while j < |variants|
      invariant 0 <= j <= |variants|
      invariant manifest.Valid() && manifest.title == old(manifest.title)
      invariant manifest.Items() == old(manifest.Items()) + Kept(variants[..j], duration, height)
    {
      var variant := variants[j];
      assert variants[..j + 1][..j] == variants[..j];
      if Height(variant.resolution) == height {
        manifest.AddVod(variant.file, duration);
      }
      j := j + 1;
    }
    assert variants[..j] == variants;
  }

  // ---------------------------------------------------------------------
  // check_auth

  /** What the auth probe got: no answer at all, or a status and `CHANNEL.IS_LOGIN` when present. */
  datatype AuthProbe = ProbeFailed | ProbeAnswer(status: int, isLogin: Option<int>)

  /** `raise_for_status` raises for client and server errors. */
  predicate IsHttpError(status: int) {
    400 <= status < 600
  }

  /** `check_auth`: any exception gives false; otherwise the flag must be 1. */
  predicate CheckAuth(p: AuthProbe) {
    p.ProbeAnswer? && !IsHttpError(p.status) && p.isLogin == Some(1)
  }

  /** A probe that raised, or answered with an error status, means logged out; only a flag of 1 means logged in. */
  lemma CheckAuthCases(status: int, flag: Option<int>)
    ensures !CheckAuth(ProbeFailed)
    ensures IsHttpError(status) ==> !CheckAuth(ProbeAnswer(status, flag))
    ensures !IsHttpError(status) ==> (CheckAuth(ProbeAnswer(status, flag)) <==> flag == Some(1))
  {
  }

  // ---------------------------------------------------------------------
  // login and sec_login

  /** A login POST: no answer, or a status and the decoded JSON (None when the body is not JSON). */
  datatype LoginReply = Unreachable | Answered(status: int, json: Option<LoginJson>)

  /** The JSON body; `RESULT` may be missing. */
  datatype LoginJson = LoginJson(result: Option<int>)

  /** The `LoginError`s, one per message. */
  datatype LoginError = Unregistered | Disabled | Blocked | CannotLogin | SecondFactorFailed

  function LoginErrorMessage(e: LoginError): string {
    match e
    case Unregistered => "등록되지 않은 아이디이거나, 아이디 또는 비밀번호를 잘못 입력하셨습니다."
    case Disabled => "아이디가 비활성화되었습니다."
    case Blocked => "아이디의 비정상적인 로그인(대량 접속 등)이 확인되어 접속이 차단되었습니다."
    case CannotLogin => "SOOP에 로그인할 수 없습니다."
    case SecondFactorFailed => "2차 인증에 실패했습니다."
  }

  /**
   * How a login call can end other than by returning: a `LoginError`, the
   * request's own exception, a body that is not JSON, or the
   * `UnboundLocalError` `sec_login` hits when its POST raised.
   */
  datatype LoginFailure = Rejected(error: LoginError) | Transport | MalformedReply | UnboundResponse

  /** The `match` on `RESULT`. */
  datatype Dispatch = Confirm | Fail(error: LoginError) | SecondFactor

  /** The result-code table, `RESULT` defaulting to 1024 when missing. */
  function DispatchCode(result: Option<int>): (d: Dispatch)
    ensures d == Confirm <==> result == Some(1)
    ensures d == SecondFactor <==> result == Some(-11)
  {
    match result.GetOr(1024)
    case 1 => Confirm
    case -1 => Fail(Unregistered)
    case -3 => Fail(Disabled)
    case -10 => Fail(Blocked)
    case -11 => SecondFactor
    case _ => Fail(CannotLogin)
  }

  /** Every code outside the table, and a missing code, is "cannot log in". */
  lemma DispatchDefault(result: Option<int>)
    ensures DispatchCode(result) == Fail(CannotLogin)
      <==> result.None? || result.value !in {1, -1, -3, -10, -11}
  {
  }

  /** The three table errors: each code has its own message. */
  lemma DispatchErrors()
    ensures DispatchCode(Some(-1)) == Fail(Unregistered)
    ensures DispatchCode(Some(-3)) == Fail(Disabled)
    ensures DispatchCode(Some(-10)) == Fail(Blocked)
    ensures LoginErrorMessage(Unregistered) != LoginErrorMessage(Disabled)
    ensures LoginErrorMessage(Disabled) != LoginErrorMessage(Blocked)
    ensures LoginErrorMessage(Unregistered) != LoginErrorMessage(Blocked)
  {
  }

  /**
   * `sec_login`: true only for status 200 with `RESULT` (default 0) equal
   * to 1. A failed POST leaves `response` unbound; the JSON is read only
   * once the status is 200.
   */
  function SecLogin(reply: LoginReply): (r: Result<bool, LoginFailure>)
    ensures r != Ok(false)
    ensures r == Ok(true) <==> (reply.Answered? && reply.status == 200
      && reply.json.Some? && reply.json.value.result == Some(1))
    ensures r == Err(Rejected(SecondFactorFailed)) <==> (reply.Answered?
      && (reply.status != 200 || (reply.json.Some? && reply.json.value.result != Some(1))))
  {
    if reply.Unreachable? then Err(UnboundResponse)
    else if reply.status != 200 then Err(Rejected(SecondFactorFailed))
    else if reply.json.None? then Err(MalformedReply)
    else if reply.json.value.result.GetOr(0) == 1 then Ok(true)
    else Err(Rejected(SecondFactorFailed))
  }

  /**
   * `login`: already logged in means true without posting. Otherwise the
   * HTTP status is ignored (its message is overwritten) and `RESULT`
   * decides: 1 re-probes, -11 goes to the second factor, the rest raise.
   */
  function Login(before: AuthProbe, reply: LoginReply, after: AuthProbe, second: LoginReply): (r: Result<bool, LoginFailure>)
    ensures CheckAuth(before) ==> r == Ok(true)
    ensures !CheckAuth(before) && r.Ok? ==> reply.Answered? && reply.json.Some?
    ensures !CheckAuth(before) && reply.Unreachable? ==> r == Err(Transport)
  {
    if CheckAuth(before) then Ok(true)
    else if reply.Unreachable? then Err(Transport)
    else if reply.json.None? then Err(MalformedReply)
    else
      match DispatchCode(reply.json.value.result)
      case Confirm => Ok(CheckAuth(after))
      case Fail(e) => Err(Rejected(e))
      case SecondFactor => SecLogin(second)
  }

  /** When the probe already reports a login, nothing else is consulted. */
  lemma LoginWhenLoggedIn(before: AuthProbe, reply: LoginReply, after: AuthProbe, second: LoginReply)
    requires CheckAuth(before)
    ensures Login(before, reply, after, second) == Ok(true)
  {
  }

  /**
   * Of the outcomes with an answer, `RESULT` alone decides: the status of
   * the first reply makes no difference.
   */
  lemma LoginIgnoresStatus(before: AuthProbe, s1: int, s2: int, json: Option<LoginJson>, after: AuthProbe, second: LoginReply)
    ensures Login(before, Answered(s1, json), after, second) == Login(before, Answered(s2, json), after, second)
  {
  }

  /** The login returns false only when `RESULT` is 1 and the second probe disagrees. */
  lemma LoginFalse(before: AuthProbe, reply: LoginReply, after: AuthProbe, second: LoginReply)
    ensures Login(before, reply, after, second) == Ok(false)
      <==> (!CheckAuth(before) && reply.Answered? && reply.json.Some?
        && reply.json.value.result == Some(1) && !CheckAuth(after))
  {
    if !CheckAuth(before) && reply.Answered? && reply.json.Some? && reply.json.value.result == Some(-11) {
      assert SecLogin(second) != Ok(false);
    }
  }

  /** A raised `LoginError` is exactly a table error, or the second factor failing. */
  lemma LoginRejected(before: AuthProbe, reply: LoginReply, after: AuthProbe, second: LoginReply, e: LoginError)
    ensures Login(before, reply, after, second) == Err(Rejected(e)) <==>
      !CheckAuth(before) && reply.Answered? && reply.json.Some? &&
      (DispatchCode(reply.json.value.result) == Fail(e)
       || (reply.json.value.result == Some(-11) && SecLogin(second) == Err(Rejected(e))))
  {
  }

  // ---------------------------------------------------------------------
  // get_manifest

  /** One entry of `quality_info`. */
  datatype QualityVariant = QualityVariant(resolution: string, file: string)

  /** One entry of `files`: its duration in ms and its variants. */
  datatype FileGroup = FileGroup(duration: int, qualityInfo: seq<QualityVariant>)

  /** The `data` object of the VOD API reply. */
  datatype VodData = VodData(title: string, fileResolution: string, files: seq<FileGroup>)

  /** The VOD API POST: no answer, or a status and the `data` object when there is one. */
  datatype VodReply = VodUnreachable | VodAnswer(status: int, data: Option<VodData>)

  /**
   * Why `get_manifest` raised: a `ValueError` from the URL, the request's
   * own error, no `data` to read, or `KeyError("Manifest Empty.")`.
   */
  datatype ManifestError = BadUrl(error: UrlError) | RequestFailed | NoData | Empty

  /** The height of a `WxH` resolution: what follows the last `x`. */
  function Height(resolution: string): string {
    AfterLast(resolution, 'x')
  }

  /**
   * `desired_quality`: the request when it is one of `labels`; otherwise
   * (`auto`, `자동`, None or anything unknown) the native height plus `p`.
   */
  function TargetQuality(labels: seq<string>, quality: Option<string>, fileResolution: string): (t: string)
    ensures quality.Some? && quality.value in labels ==> t == quality.value
    ensures t in labels || t == Height(fileResolution) + "p"
    ensures t !in labels ==> quality.None? || quality.value !in labels
  {
    if quality.Some? && quality.value in labels then quality.value
    else Height(fileResolution) + "p"
  }

  /** The labels all end with `p`, so the height compared against is the label without it. */
  lemma TargetHeight(quality: Option<string>, fileResolution: string)
    ensures var t := TargetQuality(QualityLabels, quality, fileResolution);
      t != [] && t[..|t| - 1] == if quality.Some? && quality.value in QualityLabels then quality.value[..|quality.value| - 1] else Height(fileResolution)
  {
    var t := TargetQuality(QualityLabels, quality, fileResolution);
    if !(quality.Some? && quality.value in QualityLabels) {
      assert t[..|t| - 1] == Height(fileResolution);
    }
  }

  /** A 360p request is not in the table, so it falls back to the native height. */
  lemma Request360FallsBack(fileResolution: string)
    ensures TargetQuality(QualityLabels, Some("360p"), fileResolution) == Height(fileResolution) + "p"
  {
    assert "360p" != QualityLabels[0] && "360p" != QualityLabels[1];
    assert "360p" != QualityLabels[2] && "360p" != QualityLabels[3];
  }

  /** The filter of the inner loop: the text after the last `x` of the resolution is the height. */
  predicate Matches(v: QualityVariant, height: string) {
    Height(v.resolution) == height
  }

  /** The variants of one group whose height matches, as (file, group duration) pairs. */
  function Kept(variants: seq<QualityVariant>, duration: int, height: string): seq<(string, int)> {
    if variants == [] then []
    else
      var last := variants[|variants| - 1];
      Kept(variants[..|variants| - 1], duration, height)
        + (if Matches(last, height) then [(last.file, duration)] else [])
  }

  /** Every matching variant of every group, groups first, then variants, in order. */
  function Selected(files: seq<FileGroup>, height: string): seq<(string, int)> {
    if files == [] then []
    else
      var last := files[|files| - 1];
      Selected(files[..|files| - 1], height) + Kept(last.qualityInfo, last.duration, height)
  }

  lemma {:induction false} KeptAppend(a: seq<QualityVariant>, b: seq<QualityVariant>, duration: int, height: string)
    ensures Kept(a + b, duration, height) == Kept(a, duration, height) + Kept(b, duration, height)
    decreases |b|
  {
    if b == [] {
      assert a + b == a;
    } else {
      var b0 := b[..|b| - 1];
      assert (a + b)[..|a + b| - 1] == a + b0;
      KeptAppend(a, b0, duration, height);
    }
  }

  lemma {:induction false} SelectedAppend(a: seq<FileGroup>, b: seq<FileGroup>, height: string)
    ensures Selected(a + b, height) == Selected(a, height) + Selected(b, height)
    decreases |b|
  {
    if b == [] {
      assert a + b == a;
    } else {
      var b0 := b[..|b| - 1];
      assert (a + b)[..|a + b| - 1] == a + b0;
      SelectedAppend(a, b0, height);
    }
  }

  /** Every kept pair comes from a matching variant of the group. */
  lemma {:induction false} KeptSound(variants: seq<QualityVariant>, duration: int, height: string, entry: (string, int))
    requires entry in Kept(variants, duration, height)
    ensures entry.1 == duration
    ensures exists j :: 0 <= j < |variants| && Matches(variants[j], height) && variants[j].file == entry.0
    decreases |variants|
  {
    var n := |variants| - 1;
    var front := variants[..n];
    if entry in Kept(front, duration, height) {
      KeptSound(front, duration, height, entry);
      var j :| 0 <= j < |front| && Matches(front[j], height) && front[j].file == entry.0;
      assert variants[j] == front[j];
    } else {
      assert Matches(variants[n], height) && variants[n].file == entry.0;
    }
  }

  /** Every matching variant of the group is kept, with the group's duration. */
  lemma {:induction false} KeptComplete(variants: seq<QualityVariant>, duration: int, height: string, j: int)
    requires 0 <= j < |variants| && Matches(variants[j], height)
    ensures (variants[j].file, duration) in Kept(variants, duration, height)
    decreases |variants|
  {
    var n := |variants| - 1;
    if j < n {
      var front := variants[..n];
      assert front[j] == variants[j];
      KeptComplete(front, duration, height, j);
    }
  }

  /** A pair is kept exactly when some variant of the group has the height and that file. */
  lemma KeptMembership(variants: seq<QualityVariant>, duration: int, height: string, entry: (string, int))
    ensures entry in Kept(variants, duration, height) <==>
      (entry.1 == duration && exists j :: 0 <= j < |variants| && Matches(variants[j], height) && variants[j].file == entry.0)
  {
    if entry in Kept(variants, duration, height) {
      KeptSound(variants, duration, height, entry);
    }
    if entry.1 == duration && exists j :: 0 <= j < |variants| && Matches(variants[j], height) && variants[j].file == entry.0 {
      var j :| 0 <= j < |variants| && Matches(variants[j], height) && variants[j].file == entry.0;
      KeptComplete(variants, duration, height, j);
    }
  }

  /**
   * A pair is selected exactly when some group has that duration and a
   * variant of that height with that file.
   */
  lemma {:induction false} SelectedMembership(files: seq<FileGroup>, height: string, entry: (string, int))
    ensures entry in Selected(files, height) <==>
      exists i, j :: 0 <= i < |files| && 0 <= j < |files[i].qualityInfo| && files[i].duration == entry.1
        && Matches(files[i].qualityInfo[j], height) && files[i].qualityInfo[j].file == entry.0
  {
    if entry in Selected(files, height) {
      SelectedSound(files, height, entry);
    }
    if exists i, j :: 0 <= i < |files| && 0 <= j < |files[i].qualityInfo| && files[i].duration == entry.1
        && Matches(files[i].qualityInfo[j], height) && files[i].qualityInfo[j].file == entry.0 {
      var i, j :| 0 <= i < |files| && 0 <= j < |files[i].qualityInfo| && files[i].duration == entry.1
        && Matches(files[i].qualityInfo[j], height) && files[i].qualityInfo[j].file == entry.0;
      SelectedComplete(files, height, i, j);
    }
  }

  /** Every selected pair comes from a matching variant of some group, with that group's duration. */
  lemma {:induction false} SelectedSound(files: seq<FileGroup>, height: string, entry: (string, int))
    requires entry in Selected(files, height)
    ensures exists i, j :: (0 <= i < |files| && 0 <= j < |files[i].qualityInfo| && files[i].duration == entry.1
      && Matches(files[i].qualityInfo[j], height) && files[i].qualityInfo[j].file == entry.0)
    decreases |files|
  {
    var n := |files| - 1;
    var front, last := files[..n], files[n];
    if entry in Selected(front, height) {
      SelectedSound(front, height, entry);
      var i, j :| 0 <= i < |front| && 0 <= j < |front[i].qualityInfo| && front[i].duration == entry.1
        && Matches(front[i].qualityInfo[j], height) && front[i].qualityInfo[j].file == entry.0;
      assert files[i] == front[i];
    } else {
      KeptSound(last.qualityInfo, last.duration, height, entry);
      var j :| 0 <= j < |last.qualityInfo| && Matches(last.qualityInfo[j], height) && last.qualityInfo[j].file == entry.0;
      assert files[n].qualityInfo[j] == last.qualityInfo[j];
    }
  }

  /** Every matching variant of every group is selected, with its group's duration. */
  lemma {:induction false} SelectedComplete(files: seq<FileGroup>, height: string, i: int, j: int)
    requires 0 <= i < |files| && 0 <= j < |files[i].qualityInfo| && Matches(files[i].qualityInfo[j], height)
    ensures (files[i].qualityInfo[j].file, files[i].duration) in Selected(files, height)
    decreases |files|
  {
    var n := |files| - 1;
    var front, last := files[..n], files[n];
    var entry := (files[i].qualityInfo[j].file, files[i].duration);
    assert Selected(files, height) == Selected(front, height) + Kept(last.qualityInfo, last.duration, height);
    if i < n {
      assert front[i] == files[i];
      SelectedComplete(front, height, i, j);
    } else {
      KeptComplete(last.qualityInfo, last.duration, height, j);
    }
  }

  /** `get_manifest` as a whole: the title and the selected (file, duration) pairs, or the error it raises. */
  function ManifestOutcome(raw: string, netloc: string, path: string, quality: Option<string>, api: int -> VodReply)
    : (r: Result<(string, seq<(string, int)>), ManifestError>)
    ensures ParsePlayerUrl(raw, netloc, path).Err? ==> r == Err(BadUrl(ParsePlayerUrl(raw, netloc, path).error))
    ensures r.Ok? ==> |r.value.1| >= 1
  {
    match ParsePlayerUrl(raw, netloc, path)
    case Err(e) => Err(BadUrl(e))
    case Ok(u) => ManifestOf(u.titleNo, quality, api)
  }

  /** `get_manifest` after the URL check, for the title number the URL gave. */
  function ManifestOf(titleNo: int, quality: Option<string>, api: int -> VodReply)
    : (r: Result<(string, seq<(string, int)>), ManifestError>)
    ensures r == Err(RequestFailed) <==> api(titleNo).VodUnreachable? || IsHttpError(api(titleNo).status)
    ensures r.Ok? ==> |r.value.1| >= 1 && api(titleNo).data.Some? && r.value.0 == api(titleNo).data.value.title
  {
    var reply := api(titleNo);
    if reply.VodUnreachable? || IsHttpError(reply.status) then Err(RequestFailed)
    else if reply.data.None? then Err(NoData)
    else
      var data := reply.data.value;
      var desired := TargetQuality(QualityLabels, quality, data.fileResolution);
      var items := Selected(data.files, desired[..|desired| - 1]);
      if items == [] then Err(Empty) else Ok((data.title, items))
  }

  /** A returned manifest is never empty; an empty selection is the `Empty` error. */
  lemma ManifestNonEmpty(raw: string, netloc: string, path: string, quality: Option<string>, api: int -> VodReply)
    ensures var r := ManifestOutcome(raw, netloc, path, quality, api);
      r.Ok? ==> |r.value.1| >= 1
  {
  }

  /**
   * The URL error wins over everything: with a bad URL the API is never
   * consulted, so any two APIs give the same error.
   */
  lemma ManifestUrlFirst(raw: string, netloc: string, path: string, quality: Option<string>, api1: int -> VodReply, api2: int -> VodReply)
    requires ParsePlayerUrl(raw, netloc, path).Err?
    ensures ManifestOutcome(raw, netloc, path, quality, api1) == ManifestOutcome(raw, netloc, path, quality, api2)
    ensures ManifestOutcome(raw, netloc, path, quality, api1) == Err(BadUrl(ParsePlayerUrl(raw, netloc, path).error))
  {
  }

  /** The selection is empty exactly when no variant anywhere has the height. */
  lemma SelectedEmpty(files: seq<FileGroup>, height: string)
    ensures Selected(files, height) == [] <==>
      forall i, j :: 0 <= i < |files| && 0 <= j < |files[i].qualityInfo| ==>
        Height(files[i].qualityInfo[j].resolution) != height
  {
    if Selected(files, height) != [] {
      var entry := Selected(files, height)[0];
      SelectedMembership(files, height, entry);
    } else {
      forall i, j | 0 <= i < |files| && 0 <= j < |files[i].qualityInfo|
        ensures !Matches(files[i].qualityInfo[j], height)
      {
        var entry := (files[i].qualityInfo[j].file, files[i].duration);
        SelectedMembership(files, height, entry);
      }
    }
  }
}
