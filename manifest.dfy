/**
 * `Manifest`: a title and two parallel lists, segment URLs and their
 * expected durations in milliseconds, that grow only by `add_vod`.
 */
module Manifests {

  /** Python's `sum` over a list of integers. */
  function Sum(s: seq<int>): int {
    if s == [] then 0 else Sum(s[..|s| - 1]) + s[|s| - 1]
  }

  /** A sum of non-negative durations is non-negative. */
  lemma {:induction false} SumNonNegative(s: seq<int>)
    ensures (forall i :: 0 <= i < |s| ==> s[i] >= 0) ==> Sum(s) >= 0
  {
    if s != [] {
      SumNonNegative(s[..|s| - 1]);
    }
  }

  /** Adding an element at the end adds it to the sum. */
  lemma SumAppend(s: seq<int>, d: int)
    ensures Sum(s + [d]) == Sum(s) + d
  {
    assert (s + [d])[..|s|] == s;
  }

  /** The sum of a concatenation is the sum of the parts. */
  lemma {:induction false} SumConcat(a: seq<int>, b: seq<int>)
    ensures Sum(a + b) == Sum(a) + Sum(b)
  {
    if b == [] {
      assert a + b == a;
    } else {
      SumConcat(a, b[..|b| - 1]);
      assert a + b == (a + b[..|b| - 1]) + [b[|b| - 1]];
      SumAppend(a + b[..|b| - 1], b[|b| - 1]);
      assert b == b[..|b| - 1] + [b[|b| - 1]];
      SumAppend(b[..|b| - 1], b[|b| - 1]);
    }
  }

  /** Python's `list(zip(a, b))`: pairs in order, as many as the shorter list has. */
  function Zip<A, B>(a: seq<A>, b: seq<B>): (z: seq<(A, B)>)
    ensures |z| == if |a| <= |b| then |a| else |b|
    ensures forall i :: 0 <= i < |z| ==> z[i] == (a[i], b[i])
  {
    if a == [] || b == [] then [] else [(a[0], b[0])] + Zip(a[1..], b[1..])
  }

  class Manifest {
    var title: string
    var urlList: seq<string>
    var durationList: seq<int>

    /** The two lists have the same length, as `add_vod` keeps them. */
    ghost predicate Valid()
      reads this
    {
      |urlList| == |durationList|
    }

    /** `Manifest()`: empty title, no entries. */
    constructor ()
      ensures title == "" && urlList == [] && durationList == []
      ensures Valid() && Count() == 0 && IsEmpty() && Duration() == 0
    {
      title := "";
      urlList := [];
      durationList := [];
    }

    /** `set_title`: only the title changes. */
    method SetTitle(value: string)
      modifies this
      ensures title == value
      ensures urlList == old(urlList) && durationList == old(durationList)
    {
      title := value;
    }

    /**
     * `add_vod`: one entry is appended to each list; earlier entries and
     * the title are untouched, and the count and total duration grow.
     */
    method AddVod(url: string, duration: int)
      modifies this
      ensures urlList == old(urlList) + [url] && durationList == old(durationList) + [duration]
      ensures title == old(title)
      ensures old(Valid()) ==> Valid() && Count() == old(Count()) + 1
      ensures Duration() == old(Duration()) + duration
      ensures old(Valid()) ==> Items() == old(Items()) + [(url, duration)]
    {
      SumAppend(durationList, duration);
      urlList := urlList + [url];
      durationList := durationList + [duration];
    }

    /** `count()`: the length of the shorter list. */
    function Count(): (n: nat)
      reads this
      ensures n <= |urlList| && n <= |durationList|
      ensures n == |urlList| || n == |durationList|
    {
      if |durationList| <= |urlList| then |durationList| else |urlList|
    }

    /** `is_empty()`: true exactly when one of the lists is empty. */
    predicate IsEmpty()
      reads this
      ensures IsEmpty() <==> urlList == [] || durationList == []
    {
      Count() == 0
    }

    /** `duration()`: the sum of the expected durations. */
    function Duration(): (d: int)
      reads this
      ensures (forall i :: 0 <= i < |durationList| ==> durationList[i] >= 0) ==> d >= 0
    {
      SumNonNegative(durationList);
      Sum(durationList)
    }

    /** `items`: the (url, duration) pairs in insertion order, `Count()` of them. */
    function Items(): (items: seq<(string, int)>)
      reads this
      ensures |items| == Count()
      ensures forall i :: 0 <= i < |items| ==> items[i] == (urlList[i], durationList[i])
    {
      Zip(urlList, durationList)
    }
  }
}
