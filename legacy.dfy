/**
 * The single-file version of the program, `soop_dl.py` at the top of the
 * repository. Most of it is the same code as the package modules and is
 * modelled there: `get_unique_filename` and `_delete_spec_char` by
 * `Util`, `_check_auth`, `_login` and `_sec_login` by `Soop`, and
 * `_get_download_process`, `_get_concat_process` and `download` by
 * `SoopDl`. What differs is stated here: the quality table that knows
 * 360p, the progress reader's second `strip`, and `session_setup`.
 */
module LegacySoopDl {
  import opened Wrappers
  import opened Strings
  import opened Util
  import opened Soop
  import SoopDl

  /** The keys of this file's `QUALITY_MAPPING`, in order: 360p is among them. */
  const Labels: seq<string> := ["1440p", "1080p", "720p", "540p", "360p"]

  /**
   * A 360p request selects the 360-height variants here, where the
   * package's table, which lacks 360p, falls back to the native height.
   */
  lemma Request360Selects(fileResolution: string)
    ensures var t := TargetQuality(Labels, Some("360p"), fileResolution);
      t == "360p" && t[..|t| - 1] == "360"
    ensures TargetQuality(QualityLabels, Some("360p"), fileResolution) == Height(fileResolution) + "p"
  {
    assert Labels[4] == "360p";
    Request360FallsBack(fileResolution);
  }

  /** Every request other than 360p gets the same target from both tables. */
  lemma TargetSameOtherwise(quality: Option<string>, fileResolution: string)
    requires quality != Some("360p")
    ensures TargetQuality(Labels, quality, fileResolution) == TargetQuality(QualityLabels, quality, fileResolution)
  {
    assert Labels == QualityLabels + ["360p"];
    if quality.Some? {
      assert quality.value in Labels <==> quality.value in QualityLabels;
    }
  }

  /**
   * `_read_out_time`: the generator of `util.read_out_time`, except that
   * the line, once stripped and found non-blank, is stripped again.
   */
  function ProgressValuesTwice(lines: seq<string>): ReadOut
    decreases |lines|
  {
    if lines == [] then ReadOut([-1], None)
    else
      var stripped := Strip(lines[0]);
      if stripped == [] then ReadOut([-1], None)
      else
        var line := Strip(stripped);
        if StartsWith(line, "out_time_ms") then
          match OutTime(line)
          case Err(e) => ReadOut([], Some(e))
          case Ok(v) => Cons(v, ProgressValuesTwice(lines[1..]))
        else if StartsWith(line, "progress") && Contains(line, "end") then ReadOut([-1], None)
        else ProgressValuesTwice(lines[1..])
  }

  /** The second `strip` changes nothing: both readers yield the same values and raise the same errors. */
  lemma {:induction false} ReadOutSame(lines: seq<string>)
    ensures ProgressValuesTwice(lines) == ProgressValues(lines)
    decreases |lines|
  {
    if lines != [] {
      StripIdempotent(lines[0]);
      ReadOutSame(lines[1..]);
    }
  }

  /**
   * `session_setup`: a new session carrying the fixed headers, then the
   * login rule of the package's `try_login`: True without any request
   * when login is not asked for, `login`'s own answer otherwise, False
   * on a `LoginError`, and any other exception escapes. `jar` is what the
   * login exchanges leave in the session's cookie jar (the `Set-Cookie`
   * replies are not computed); without login no request is made and the
   * jar stays empty.
   */
  method SessionSetup(defaults: seq<Header>, doLogin: bool, before: AuthProbe, reply: LoginReply, after: AuthProbe, second: LoginReply,
                      jar: seq<Header>)
    returns (session: Session, res: Result<bool, LoginFailure>)
    ensures fresh(session) && session.headers == UpdateAll(defaults, FixedHeaders)
    ensures session.cookies == (if doLogin then jar else [])
    ensures res == SoopDl.TryLogin(doLogin, before, reply, after, second)
  {
    session := new Session(defaults);
    session.Update(FixedHeaders);
    res := Ok(true);
    if doLogin {
      session.cookies := jar;
      match Login(before, reply, after, second)
      case Ok(b) => res := Ok(b);
      case Err(Rejected(_)) => res := Ok(false);
      case Err(f) => res := Err(f);
    }
  }
}
