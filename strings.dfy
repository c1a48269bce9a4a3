/**
 * The parts of Python's `str` that the downloader relies on: `strip()`,
 * `split(sep)`, `split()`, `startswith`, the `in` substring test, and
 * `int()` / `str()` on decimal integers.
 */
module Strings {
  import opened Wrappers

  /**
   * The characters Python's `str.strip()` and `str.split()` treat as
   * whitespace (`str.isspace()`): the ASCII controls 9-13 and 28-31, the
   * space, and the Unicode separators NEL, NBSP, U+1680, U+2000-U+200A,
   * U+2028, U+2029, U+202F, U+205F and U+3000.
   */
  predicate IsSpace(c: char) {
    ('\t' <= c <= '\r') || ('\U{001C}' <= c <= ' ') || c == '\U{0085}' || c == '\U{00A0}'
    || c == '\U{1680}' || ('\U{2000}' <= c <= '\U{200A}') || c == '\U{2028}' || c == '\U{2029}'
    || c == '\U{202F}' || c == '\U{205F}' || c == '\U{3000}'
  }

  predicate IsDigit(c: char) {
    '0' <= c <= '9'
  }

  predicate AllDigits(s: string) {
    forall i :: 0 <= i < |s| ==> IsDigit(s[i])
  }

  /** Number of whitespace characters at the front of `s`. */
  function LeadingSpaces(s: string): (k: nat)
    ensures k <= |s|
    ensures forall i :: 0 <= i < k ==> IsSpace(s[i])
    ensures k < |s| ==> !IsSpace(s[k])
  {
    if |s| == 0 || !IsSpace(s[0]) then 0 else 1 + LeadingSpaces(s[1..])
  }

  /** Length of `s` once its trailing whitespace is cut off. */
  function TrailingStart(s: string): (k: nat)
    ensures k <= |s|
    ensures forall i :: k <= i < |s| ==> IsSpace(s[i])
    ensures k > 0 ==> !IsSpace(s[k - 1])
  {
    if |s| == 0 || !IsSpace(s[|s| - 1]) then |s| else TrailingStart(s[..|s| - 1])
  }

  /** Python's `s.strip()`: the slice of `s` between its leading and trailing whitespace. */
  function Strip(s: string): (r: string)
    ensures |r| <= |s|
    ensures r == [] || (!IsSpace(r[0]) && !IsSpace(r[|r| - 1]))
    ensures r == [] <==> forall i :: 0 <= i < |s| ==> IsSpace(s[i])
  {
    var a := LeadingSpaces(s);
    var t := s[a..];
    var b := TrailingStart(t);
    assert a < |s| ==> t[0] == s[a];
    assert b > 0 ==> t[b - 1] == s[a + b - 1];
    t[..b]
  }

  lemma StripNoEdges(s: string)
    requires s == [] || (!IsSpace(s[0]) && !IsSpace(s[|s| - 1]))
    ensures Strip(s) == s
  {
  }

  /** Whitespace in front of a string that starts with a non-space is exactly what `strip()` skips. */
  lemma {:induction false} LeadingSpacesOf(sp: string, s: string)
    requires forall i :: 0 <= i < |sp| ==> IsSpace(sp[i])
    requires s == [] || !IsSpace(s[0])
    ensures LeadingSpaces(sp + s) == |sp|
  {
    if sp == [] {
      assert sp + s == s;
    } else {
      LeadingSpacesOf(sp[1..], s);
      assert (sp + s)[1..] == sp[1..] + s;
    }
  }

  /** Whitespace after a string that ends with a non-space is exactly what `strip()` cuts. */
  lemma {:induction false} TrailingStartOf(s: string, sp: string)
    requires forall i :: 0 <= i < |sp| ==> IsSpace(sp[i])
    requires s == [] || !IsSpace(s[|s| - 1])
    ensures TrailingStart(s + sp) == |s|
  {
    if sp == [] {
      assert s + sp == s;
    } else {
      TrailingStartOf(s, sp[..|sp| - 1]);
      assert (s + sp)[..|s + sp| - 1] == s + sp[..|sp| - 1];
    }
  }

  /** `strip()` removes any whitespace around a string with non-space ends, and only that. */
  lemma StripAround(lead: string, s: string, trail: string)
    requires forall i :: 0 <= i < |lead| ==> IsSpace(lead[i])
    requires forall i :: 0 <= i < |trail| ==> IsSpace(trail[i])
    requires s != [] && !IsSpace(s[0]) && !IsSpace(s[|s| - 1])
    ensures Strip(lead + s + trail) == s
  {
    var x := lead + s + trail;
    assert x == lead + (s + trail);
    LeadingSpacesOf(lead, s + trail);
    assert x[|lead|..] == s + trail;
    TrailingStartOf(s, trail);
    assert (s + trail)[..|s|] == s;
  }

  /** Whitespace in front of the first word does not change the words. */
  lemma WordsAfterSpaces(sp: string, s: string)
    requires forall i :: 0 <= i < |sp| ==> IsSpace(sp[i])
    requires s == [] || !IsSpace(s[0])
    ensures Words(sp + s) == Words(s)
  {
    LeadingSpacesOf(sp, s);
    assert (sp + s)[|sp|..] == s;
    assert s[0..] == s;
  }

  /** Stripping is idempotent: a second `strip()` changes nothing. */
  lemma StripIdempotent(s: string)
    ensures Strip(Strip(s)) == Strip(s)
  {
    StripNoEdges(Strip(s));
  }

  /** Concatenation regroups freely. */
  lemma AppendAssoc<T>(a: seq<T>, b: seq<T>, c: seq<T>)
    ensures (a + b) + c == a + (b + c)
  {
  }

  /** Four pieces regroup to the right. */
  lemma AppendAssoc4<T>(a: seq<T>, b: seq<T>, c: seq<T>, d: seq<T>)
    ensures a + b + c + d == a + (b + (c + d))
  {
  }

  /** Five pieces: the last four group together behind the first. */
  lemma AppendAssoc5<T>(a: seq<T>, b: seq<T>, c: seq<T>, d: seq<T>, e: seq<T>)
    ensures a + b + c + d + e == a + (b + c + d + e)
  {
  }

  /** Python's `sep.join(parts)` for a one-character separator. */
  function Join(parts: seq<string>, sep: char): string
    requires |parts| >= 1
  {
    if |parts| == 1 then parts[0] else parts[0] + [sep] + Join(parts[1..], sep)
  }

  /**
   * Python's `s.split(sep)` for a one-character separator: the maximal
   * separator-free pieces, empty ones included (`"".split("/") == [""]`).
   */
  function Split(s: string, sep: char): (parts: seq<string>)
    ensures |parts| >= 1
    ensures forall i :: 0 <= i < |parts| ==> sep !in parts[i]
  {
    if s == [] then [""]
    else if s[0] == sep then [""] + Split(s[1..], sep)
    else
      var rest := Split(s[1..], sep);
      var parts := [[s[0]] + rest[0]] + rest[1..];
      assert |rest| > 1 ==> parts[1..] == rest[1..];
      parts
  }

  /** Every character of every piece comes from the string. */
  lemma {:induction false} SplitPiecesIn(s: string, sep: char)
    ensures forall i, c :: 0 <= i < |Split(s, sep)| && c in Split(s, sep)[i] ==> c in s
    decreases |s|
  {
    if s != [] {
      var rest := Split(s[1..], sep);
      SplitPiecesIn(s[1..], sep);
      assert forall c :: c in s[1..] ==> c in s;
      if s[0] != sep {
        assert forall c :: c in [s[0]] + rest[0] ==> c == s[0] || c in rest[0];
      }
    }
  }

  /** Joining the pieces with the separator gives the string back. */
  lemma {:induction false} JoinSplit(s: string, sep: char)
    ensures Join(Split(s, sep), sep) == s
    decreases |s|
  {
    if s == [] {
      assert Split(s, sep) == [""];
    } else {
      var rest := Split(s[1..], sep);
      JoinSplit(s[1..], sep);
      if s[0] == sep {
        assert Split(s, sep) == [""] + rest;
        assert ([""] + rest)[1..] == rest;
      } else {
        var parts := [[s[0]] + rest[0]] + rest[1..];
        assert Split(s, sep) == parts;
        if |rest| == 1 {
          assert Join(parts, sep) == [s[0]] + rest[0];
        } else {
          assert parts[1..] == rest[1..];
          assert Join(rest, sep) == rest[0] + [sep] + Join(rest[1..], sep);
          assert Join(parts, sep) == [s[0]] + rest[0] + [sep] + Join(rest[1..], sep);
        }
        assert s == [s[0]] + s[1..];
      }
    }
  }

  /** Splitting a joined list gives the list back when no piece holds the separator. */
  lemma {:induction false} SplitJoin(parts: seq<string>, sep: char)
    requires |parts| >= 1
    requires forall i :: 0 <= i < |parts| ==> sep !in parts[i]
    ensures Split(Join(parts, sep), sep) == parts
  {
    if |parts| == 1 {
      SplitPlain(parts[0], sep);
    } else {
      SplitJoin(parts[1..], sep);
      SplitAfterPiece(parts[0], Join(parts[1..], sep), sep);
      assert [parts[0]] + parts[1..] == parts;
    }
  }

  /** A string without the separator splits into itself alone. */
  lemma {:induction false} SplitPlain(s: string, sep: char)
    requires sep !in s
    ensures Split(s, sep) == [s]
  {
    if s != [] {
      SplitPlain(s[1..], sep);
      assert [s[0]] + s[1..] == s;
    }
  }

  /** A separator-free piece followed by the separator splits off as the first part. */
  lemma {:induction false} SplitAfterPiece(x: string, rest: string, sep: char)
    requires sep !in x
    ensures Split(x + [sep] + rest, sep) == [x] + Split(rest, sep)
  {
    if x == [] {
      assert x + [sep] + rest == [sep] + rest;
      assert ([sep] + rest)[1..] == rest;
    } else {
      SplitAfterPiece(x[1..], rest, sep);
      assert (x + [sep] + rest)[1..] == x[1..] + [sep] + rest;
      assert [x[0]] + x[1..] == x;
    }
  }

  /** `s.startswith(p)`. */
  predicate StartsWith(s: string, p: string) {
    |p| <= |s| && s[..|p|] == p
  }

  /** `sub` occurs in `s` starting at position `i`. */
  predicate OccursAt(s: string, sub: string, i: nat) {
    i + |sub| <= |s| && s[i..i + |sub|] == sub
  }

  /** The Python substring test `sub in s`, by scanning every start position. */
  function Contains(s: string, sub: string): (r: bool)
    ensures r <==> exists i: nat :: OccursAt(s, sub, i)
  {
    if StartsWith(s, sub) then
      assert OccursAt(s, sub, 0);
      true
    else if |s| <= |sub| then
      assert forall i: nat :: OccursAt(s, sub, i) ==> i == 0;
      false
    else
      var r := Contains(s[1..], sub);
      assert forall i: nat :: OccursAt(s[1..], sub, i) <==> OccursAt(s, sub, i + 1) by {
        forall i: nat ensures OccursAt(s[1..], sub, i) <==> OccursAt(s, sub, i + 1) {
          if i + 1 + |sub| <= |s| {
            assert s[1..][i..i + |sub|] == s[i + 1..i + 1 + |sub|];
          }
        }
      }
      assert forall i: nat :: OccursAt(s, sub, i) && i > 0 ==> OccursAt(s[1..], sub, i - 1);
      r
  }

  /** Python's whitespace `s.split()`: the maximal runs of non-whitespace characters, in order. */
  function Words(s: string): (ws: seq<string>)
    ensures forall i :: 0 <= i < |ws| ==> ws[i] != [] && forall j :: 0 <= j < |ws[i]| ==> !IsSpace(ws[i][j])
    decreases |s|
  {
    var a := LeadingSpaces(s);
    if a == |s| then []
    else
      var t := s[a..];
      var w := WordLength(t);
      assert t[0] == s[a];
      var rest := Words(t[w..]);
      assert forall j :: 0 <= j < w ==> !IsSpace(t[..w][j]);
      [t[..w]] + rest
  }

  /** There are no words exactly when every character is whitespace. */
  lemma WordsEmpty(s: string)
    ensures Words(s) == [] <==> forall i :: 0 <= i < |s| ==> IsSpace(s[i])
  {
    var a := LeadingSpaces(s);
    if a < |s| {
      assert !IsSpace(s[a]);
      assert s[a..][0] == s[a];
    }
  }

  /** Length of the run of non-whitespace characters starting `s`. */
  function WordLength(s: string): (k: nat)
    ensures k <= |s|
    ensures forall i :: 0 <= i < k ==> !IsSpace(s[i])
    ensures s != [] && !IsSpace(s[0]) ==> k > 0
  {
    if |s| == 0 || IsSpace(s[0]) then 0 else 1 + WordLength(s[1..])
  }

  /** A string with no whitespace is one word. */
  lemma WordsOfWord(s: string)
    requires s != [] && forall i :: 0 <= i < |s| ==> !IsSpace(s[i])
    ensures Words(s) == [s]
  {
    assert LeadingSpaces(s) == 0;
    assert s[0..] == s;
    WordLengthAll(s);
    assert s[|s|..] == [];
    assert s[..|s|] == s;
    assert Words([]) == [];
  }

  lemma {:induction false} WordLengthAll(s: string)
    requires forall i :: 0 <= i < |s| ==> !IsSpace(s[i])
    ensures WordLength(s) == |s|
  {
    if s != [] {
      WordLengthAll(s[1..]);
    }
  }

  function DigitValue(c: char): (d: nat)
    requires IsDigit(c)
    ensures d < 10
  {
    (c as int - '0' as int) as nat
  }

  function DigitChar(d: nat): (c: char)
    requires d < 10
    ensures IsDigit(c) && DigitValue(c) == d
  {
    ('0' as int + d) as char
  }

  /** The value of a string of decimal digits, most significant first. */
  function DigitsValue(s: string): nat
    requires AllDigits(s)
  {
    if s == [] then 0 else DigitsValue(s[..|s| - 1]) * 10 + DigitValue(s[|s| - 1])
  }

  /** Python's `str(n)` for a natural number: decimal digits, no leading zero. */
  function NatToString(n: nat): (s: string)
    ensures s != [] && AllDigits(s)
    ensures DigitsValue(s) == n
  {
    if n < 10 then [DigitChar(n)]
    else
      var s := NatToString(n / 10) + [DigitChar(n % 10)];
      assert s[..|s| - 1] == NatToString(n / 10);
      s
  }

  /** `NatToString` is injective: different counters give different texts. */
  lemma NatToStringInjective(m: nat, n: nat)
    requires NatToString(m) == NatToString(n)
    ensures m == n
  {
  }

  /**
   * Python's `int(s)` restricted to an optional sign followed by one or
   * more ASCII digits; any other text is a `ValueError`, here `None`.
   */
  function ParseInt(s: string): (r: Option<int>)
    ensures r.Some? <==> (AllDigits(s) && s != []) || (|s| >= 2 && (s[0] == '+' || s[0] == '-') && AllDigits(s[1..]))
  {
    if s != [] && AllDigits(s) then Some(DigitsValue(s))
    else if |s| >= 2 && s[0] == '+' && AllDigits(s[1..]) then Some(DigitsValue(s[1..]))
    else if |s| >= 2 && s[0] == '-' && AllDigits(s[1..]) then Some(-(DigitsValue(s[1..]) as int))
    else None
  }

  /** Python's `str(n)` for any integer. */
  function IntToString(n: int): string {
    if n < 0 then "-" + NatToString(-n) else NatToString(n)
  }

  /** `int(str(n)) == n`: parsing undoes printing. */
  lemma ParseIntToString(n: int)
    ensures ParseInt(IntToString(n)) == Some(n)
  {
    if n < 0 {
      var s := IntToString(n);
      assert s[1..] == NatToString(-n);
      assert !AllDigits(s) by { assert !IsDigit(s[0]); }
    }
  }

  /**
   * Two digit strings followed by texts that start with a non-digit are
   * equal when the concatenations are: the digits end in the same place.
   */
  lemma {:induction false} DigitPrefixUnique(s: string, u: string, t: string, v: string)
    requires AllDigits(s) && AllDigits(t)
    requires u != [] && !IsDigit(u[0]) && v != [] && !IsDigit(v[0])
    requires s + u == t + v
    ensures s == t && u == v
  {
    assert (s + u)[0] == (t + v)[0];
    if s == [] || t == [] {
      assert s == [] ==> s + u == u;
      assert t == [] ==> t + v == v;
    } else {
      assert (s + u)[1..] == s[1..] + u;
      assert (t + v)[1..] == t[1..] + v;
      DigitPrefixUnique(s[1..], u, t[1..], v);
      assert s == [s[0]] + s[1..];
      assert t == [t[0]] + t[1..];
    }
  }

  /** Python's `c.lower()` on ASCII letters; other characters are kept. */
  function LowerChar(c: char): (l: char)
    ensures 'A' <= c <= 'Z' ==> 'a' <= l <= 'z' && l as int == c as int + 32
    ensures !('A' <= c <= 'Z') ==> l == c
  {
    if 'A' <= c <= 'Z' then (c as int + 32) as char else c
  }

  /** Python's `s.lower()` for ASCII text. */
  function ToLower(s: string): (r: string)
    ensures |r| == |s| && forall i :: 0 <= i < |s| ==> r[i] == LowerChar(s[i])
  {
    seq(|s|, i requires 0 <= i < |s| => LowerChar(s[i]))
  }

  /** `s.split(sep)[-1]`: the text after the last separator. */
  function LastPiece(s: string, sep: char): (r: string)
    ensures sep !in r
  {
    var parts := Split(s, sep);
    parts[|parts| - 1]
  }

  /** The text after the last separator, read from the end (all of `s` when it has none). */
  function AfterLast(s: string, sep: char): (r: string)
    decreases |s|
  {
    if s == [] || s[|s| - 1] == sep then [] else AfterLast(s[..|s| - 1], sep) + [s[|s| - 1]]
  }

  /** Appending `c` to the pieces `p`: a new empty piece after a separator, else a longer last piece. */
  function SnocPieces(p: seq<string>, c: char, sep: char): seq<string>
    requires |p| >= 1
  {
    if c == sep then p + [""] else p[..|p| - 1] + [p[|p| - 1] + [c]]
  }

  /** One more character splits into one more piece, or extends the last one. */
  lemma {:induction false} SplitSnoc(s: string, c: char, sep: char)
    ensures Split(s + [c], sep) == SnocPieces(Split(s, sep), c, sep)
    decreases |s|
  {
    if s == [] {
      assert s + [c] == [c] && [c][1..] == [];
      assert Split(s, sep) == [""] && Split([c][1..], sep) == [""];
      assert [c] + "" == [c] && "" + [c] == [c];
    } else {
      var t := s[1..];
      assert (s + [c])[0] == s[0] && (s + [c])[1..] == t + [c];
      SplitSnoc(t, c, sep);
      if s[0] == sep {
        SnocPiecesCons([""], Split(t, sep), c, sep);
      } else {
        SnocPiecesGlue(s[0], Split(t, sep), c, sep);
      }
    }
  }

  /** Pieces in front of the last one are untouched by appending. */
  lemma SnocPiecesCons(a: seq<string>, q: seq<string>, c: char, sep: char)
    requires |q| >= 1
    ensures SnocPieces(a + q, c, sep) == a + SnocPieces(q, c, sep)
  {
    assert (a + q)[..|a + q| - 1] == a + q[..|q| - 1];
  }

  /** Gluing a character onto the first piece commutes with appending. */
  lemma SnocPiecesGlue(x: char, q: seq<string>, c: char, sep: char)
    requires |q| >= 1
    ensures var q' := SnocPieces(q, c, sep);
      SnocPieces([[x] + q[0]] + q[1..], c, sep) == [[x] + q'[0]] + q'[1..]
  {
    var q' := SnocPieces(q, c, sep);
    if c != sep && |q| == 1 {
      var w := [x] + q[0];
      assert [w] + q[1..] == [w];
      assert q' == [q[0] + [c]] && q'[1..] == [];
      assert w + [c] == [x] + (q[0] + [c]);
    } else if c != sep {
      assert q'[0] == q[0] && q'[1..] == q[1..|q| - 1] + [q[|q| - 1] + [c]];
    } else {
      assert q'[0] == q[0] && q'[1..] == q[1..] + [""];
    }
  }

  /** `s.split(sep)[-1]` is the text after the last separator. */
  lemma {:induction false} LastPieceAfterLast(s: string, sep: char)
    ensures LastPiece(s, sep) == AfterLast(s, sep)
    decreases |s|
  {
    if s != [] {
      var front := s[..|s| - 1];
      assert s == front + [s[|s| - 1]];
      SplitSnoc(front, s[|s| - 1], sep);
      LastPieceAfterLast(front, sep);
      var p := Split(front, sep);
      assert SnocPieces(p, s[|s| - 1], sep)[|p| - 1 + (if s[|s| - 1] == sep then 1 else 0)] == AfterLast(s, sep);
    }
  }

  /** The last piece of a joined list is its last element. */
  lemma {:induction false} LastPieceOfJoin(parts: seq<string>, sep: char)
    requires |parts| >= 1
    requires forall i :: 0 <= i < |parts| ==> sep !in parts[i]
    ensures LastPiece(Join(parts, sep), sep) == parts[|parts| - 1]
  {
    SplitJoin(parts, sep);
  }
}
