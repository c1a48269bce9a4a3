/**
 * `Types.url` and `Types.player_url`: a VOD page address checked against
 * the platform's player host and reduced to the VOD's title number.
 *
 * URL parsing itself (`urllib.parse.urlparse`) is not modelled: the
 * netloc and path it reports are inputs.
 */
module Types {
  import opened Wrappers
  import opened Strings

  /** Substring the netloc must contain. */
  const PlayerHost := "vod.sooplive.co.kr"
  /** Path segment that precedes the title number. */
  const PlayerSegment := "player"

  /** A parsed page address: the stripped text and what urlparse reported for it. */
  datatype Url = Url(value: string, netloc: string, path: string, pathParts: seq<string>)

  /** A validated player page address and the title number taken from it. */
  datatype PlayerUrl = PlayerUrl(url: Url, titleNo: int)

  /** The two `ValueError`s `player_url` raises. */
  datatype UrlError = InvalidUrl | TitleNoNotFound

  function UrlErrorMessage(e: UrlError): string {
    match e
    case InvalidUrl => "유효하지 않은 URL입니다."
    case TitleNoNotFound => "VOD 고유번호를 찾을 수 없습니다."
  }

  /**
   * `Types.url(raw)`: the stored text is `raw` without surrounding
   * whitespace, and the path parts are the path's `/`-separated pieces.
   */
  function MakeUrl(raw: string, netloc: string, path: string): (u: Url)
    ensures u.value == Strip(raw) && u.netloc == netloc && u.path == path
    ensures |u.pathParts| >= 1 && Join(u.pathParts, '/') == path
    ensures forall i :: 0 <= i < |u.pathParts| ==> '/' !in u.pathParts[i]
  {
    JoinSplit(path, '/');
    Url(Strip(raw), netloc, path, Split(path, '/'))
  }

  /** Python's `xs.index(x)`: the first position holding `x`. */
  function IndexOf(xs: seq<string>, x: string): (k: nat)
    requires x in xs
    ensures k < |xs| && xs[k] == x
    ensures forall j :: 0 <= j < k ==> xs[j] != x
  {
    if xs[0] == x then 0 else 1 + IndexOf(xs[1..], x)
  }

  /** `__validate__`: a `player` part exists and the netloc contains the player host. */
  predicate IsPlayerAddress(u: Url) {
    PlayerSegment in u.pathParts && Contains(u.netloc, PlayerHost)
  }

  /**
   * `Types.player_url(raw)`: validation first, then the integer in the
   * path part right after the first `player` part.
   */
  function ParsePlayerUrl(raw: string, netloc: string, path: string): (r: Result<PlayerUrl, UrlError>)
    ensures r == Err(InvalidUrl) <==> !IsPlayerAddress(MakeUrl(raw, netloc, path))
    ensures r.Ok? ==> var parts := r.value.url.pathParts;
      && r.value.url == MakeUrl(raw, netloc, path) && IsPlayerAddress(r.value.url)
      && IndexOf(parts, PlayerSegment) + 1 < |parts|
      && ParseInt(parts[IndexOf(parts, PlayerSegment) + 1]) == Some(r.value.titleNo)
  {
    var u := MakeUrl(raw, netloc, path);
    if !IsPlayerAddress(u) then Err(InvalidUrl)
    else
      var k := IndexOf(u.pathParts, PlayerSegment);
      if k + 1 >= |u.pathParts| then Err(TitleNoNotFound)
      else
        match ParseInt(u.pathParts[k + 1])
        case None => Err(TitleNoNotFound)
        case Some(n) => Ok(PlayerUrl(u, n))
  }

  /**
   * The first message is raised exactly when the path has no `player`
   * part or the netloc lacks the host text, whatever follows `player`.
   */
  lemma InvalidUrlExactly(raw: string, netloc: string, path: string)
    ensures ParsePlayerUrl(raw, netloc, path) == Err(InvalidUrl)
        <==> PlayerSegment !in Split(path, '/') || !Contains(netloc, PlayerHost)
  {
  }

  /** The host test is a substring test: any netloc that contains the host passes it. */
  lemma HostIsSubstringTest(prefix: string, suffix: string)
    ensures Contains(prefix + PlayerHost + suffix, PlayerHost)
  {
    var s := prefix + PlayerHost + suffix;
    assert s[|prefix|..|prefix| + |PlayerHost|] == PlayerHost;
    assert OccursAt(s, PlayerHost, |prefix|);
  }

  /**
   * A success carries the stripped text and the integer written right
   * after the first `player` part of the path, on a netloc holding the host.
   */
  lemma ParsedMeaning(raw: string, netloc: string, path: string)
    requires ParsePlayerUrl(raw, netloc, path).Ok?
    ensures var p := ParsePlayerUrl(raw, netloc, path).value;
      var parts := Split(path, '/');
      && p.url.value == Strip(raw)
      && Contains(netloc, PlayerHost)
      && PlayerSegment in parts
      && IndexOf(parts, PlayerSegment) + 1 < |parts|
      && ParseInt(parts[IndexOf(parts, PlayerSegment) + 1]) == Some(p.titleNo)
  {
  }

  /**
   * The title number is found exactly: on the player host, a path whose
   * first `player` part is followed by the decimal text of `n` yields `n`.
   */
  lemma {:induction false} TitleNoExtracted(raw: string, netloc: string, before: seq<string>, n: int, after: seq<string>)
    requires Contains(netloc, PlayerHost)
    requires PlayerSegment !in before
    requires forall i :: 0 <= i < |before| ==> '/' !in before[i]
    requires forall i :: 0 <= i < |after| ==> '/' !in after[i]
    ensures var path := Join(before + [PlayerSegment, IntToString(n)] + after, '/');
      ParsePlayerUrl(raw, netloc, path) == Ok(PlayerUrl(MakeUrl(raw, netloc, path), n))
  {
    var parts := before + [PlayerSegment, IntToString(n)] + after;
    var s := IntToString(n);
    assert '/' !in s by {
      if n < 0 {
        var m := NatToString(-n);
        assert s == "-" + m && AllDigits(m);
        forall i | 0 <= i < |s| ensures s[i] != '/' {
          if i > 0 { assert s[i] == m[i - 1]; }
        }
      } else {
        assert forall i :: 0 <= i < |s| ==> IsDigit(s[i]);
      }
    }
    assert forall i :: 0 <= i < |parts| ==> '/' !in parts[i] by {
      forall i | 0 <= i < |parts| ensures '/' !in parts[i] {
        if i < |before| { assert parts[i] == before[i]; }
        else if i == |before| { assert parts[i] == PlayerSegment; }
        else if i == |before| + 1 { assert parts[i] == s; }
        else { assert parts[i] == after[i - |before| - 2]; }
      }
    }
    var path := Join(parts, '/');
    SplitJoin(parts, '/');
    assert parts[|before|] == PlayerSegment;
    IndexAfter(before, [PlayerSegment, s] + after, PlayerSegment);
    assert parts == before + ([PlayerSegment, s] + after);
    assert IndexOf(parts, PlayerSegment) == |before|;
    assert parts[|before| + 1] == s;
    ParseIntToString(n);
  }

  /** The first occurrence in `a + b` lies in `b` when `a` does not hold the element. */
  lemma {:induction false} IndexAfter(a: seq<string>, b: seq<string>, x: string)
    requires x !in a && b != [] && b[0] == x
    ensures x in a + b && IndexOf(a + b, x) == |a|
  {
    if a == [] {
      assert a + b == b;
    } else {
      assert (a + b)[0] == a[0];
      assert (a + b)[1..] == a[1..] + b;
      IndexAfter(a[1..], b, x);
    }
  }

  /** The documented example: `/player/12345` on the player host gives 12345. */
  lemma ExamplePlayerPath(raw: string)
    ensures var r := ParsePlayerUrl(raw, "vod.sooplive.co.kr", "/player/12345");
      r.Ok? && r.value.titleNo == 12345
  {
    ExampleSplit();
    HostIsSubstringTest("", "");
    assert "" + PlayerHost + "" == "vod.sooplive.co.kr";
    var parts := ["", PlayerSegment, "12345"];
    assert IndexOf(parts, PlayerSegment) == 1;
    Value12345();
  }

  lemma ExampleSplit()
    ensures Split("/player/12345", '/') == ["", PlayerSegment, "12345"]
  {
    var parts := ["", PlayerSegment, "12345"];
    assert Join(["12345"], '/') == "12345";
    assert Join([PlayerSegment, "12345"], '/') == "player/12345";
    assert Join(parts, '/') == "/player/12345";
    assert forall i :: 0 <= i < |parts| ==> '/' !in parts[i];
    SplitJoin(parts, '/');
  }

  lemma Value12345()
    ensures ParseInt("12345") == Some(12345)
  {
    var t := "12345";
    assert AllDigits(t);
    assert t[..4] == "1234" && "1234"[..3] == "123" && "123"[..2] == "12" && "12"[..1] == "1" && "1"[..0] == "";
    assert DigitsValue("1") == 1;
    assert DigitsValue("12") == 12;
    assert DigitsValue("123") == 123;
    assert DigitsValue("1234") == 1234;
    assert DigitsValue(t) == 12345;
  }

  /** A `player` part at the very end leaves no title number to read. */
  lemma PlayerLastIsNotFound(raw: string, netloc: string, before: seq<string>)
    requires Contains(netloc, PlayerHost)
    requires PlayerSegment !in before
    requires forall i :: 0 <= i < |before| ==> '/' !in before[i]
    ensures ParsePlayerUrl(raw, netloc, Join(before + [PlayerSegment], '/')) == Err(TitleNoNotFound)
  {
    var parts := before + [PlayerSegment];
    assert forall i :: 0 <= i < |parts| ==> '/' !in parts[i] by {
      forall i | 0 <= i < |parts| ensures '/' !in parts[i] {
        if i < |before| { assert parts[i] == before[i]; }
      }
    }
    SplitJoin(parts, '/');
    IndexAfter(before, [PlayerSegment], PlayerSegment);
  }
}
