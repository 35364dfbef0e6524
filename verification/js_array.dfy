/**
  The JavaScript array operations the queries are built from (`filter`, `find`,
  `slice(-n)`), with the facts about them the query contracts rest on.
 */
module JsArray {
  import opened Options

  function Min(a: int, b: int): int {
    if a <= b then a else b
  }

  /** The last `n` elements of `s` (all of `s` when it is shorter), in order. */
  function Last<T>(s: seq<T>, n: nat): (r: seq<T>)
    ensures |r| == Min(n, |s|)
    ensures r == s[|s| - |r|..]
  {
    if |s| <= n then s else s[|s| - n..]
  }

  /**
    `s.slice(start)`: a non-negative start skips that many elements, a negative start
    keeps that many from the end; in both cases the result is a suffix of `s`.
   */
  function SliceFrom<T>(s: seq<T>, start: int): (r: seq<T>)
    ensures |r| <= |s| && r == s[|s| - |r|..]
    ensures start >= 0 ==> |r| == |s| - Min(start, |s|)
    ensures start < 0 ==> |r| == Min(-start, |s|)
  {
    if start >= 0 then s[Min(start, |s|)..]
    else if |s| + start <= 0 then s
    else s[|s| + start..]
  }

  /**
    The optional `last` limit shared by the log queries: an absent or zero limit keeps
    everything, a positive one keeps the newest `last` elements, and a negative one drops
    the oldest `-last`.
   */
  function LimitLast<T>(s: seq<T>, last: Option<int>): (r: seq<T>)
    ensures last.None? || last.value == 0 ==> r == s
    ensures last.Some? && last.value >= 1 ==> r == Last(s, last.value)
    ensures last.Some? && last.value < 0 ==> r == s[Min(-last.value, |s|)..]
  {
    if last.Some? && last.value != 0 then SliceFrom(s, -last.value) else s
  }

  /** `a` is obtained from `b` by deleting elements, keeping the order of the rest. */
  predicate IsSubseq<T(==)>(a: seq<T>, b: seq<T>)
    decreases |b|
  {
    if |a| == 0 then true
    else if |b| == 0 then false
    else (a[0] == b[0] && IsSubseq(a[1..], b[1..])) || IsSubseq(a, b[1..])
  }

  /**
    `s.filter(p)`: exactly the elements satisfying `p`, in the order they have in `s`
    (`FilterCounts` adds that each is kept as often as it occurs).
   */
  function Filter<T(==)>(s: seq<T>, p: T -> bool): (r: seq<T>)
    ensures |r| <= |s|
    ensures forall x :: x in r ==> x in s && p(x)
    ensures forall i :: 0 <= i < |s| && p(s[i]) ==> s[i] in r
    ensures IsSubseq(r, s)
  {
    if |s| == 0 then []
    else
      var rest := Filter(s[1..], p);
      assert s == [s[0]] + s[1..];
      if p(s[0]) then [s[0]] + rest else rest
  }

  /** Whether some element of `s` satisfies `p`. */
  ghost predicate AnyIndex<T>(s: seq<T>, p: T -> bool) {
    exists i :: 0 <= i < |s| && p(s[i])
  }

  /** `s.findIndex(p)`, with "not found" as `None`: the first position whose element satisfies `p`. */
  function FindIndex<T>(s: seq<T>, p: T -> bool): (r: Option<nat>)
    ensures r.Some? ==> r.value < |s| && p(s[r.value])
    ensures r.Some? ==> forall j :: 0 <= j < r.value ==> !p(s[j])
    ensures r.None? <==> forall j :: 0 <= j < |s| ==> !p(s[j])
  {
    if |s| == 0 then None
    else if p(s[0]) then Some(0)
    else
      match FindIndex(s[1..], p)
      case None => None
      case Some(k) => Some(k + 1)
  }

  /** `s.find(p)`: the first element satisfying `p`, if any. */
  function Find<T>(s: seq<T>, p: T -> bool): (r: Option<T>)
    ensures r.Some? ==> exists i :: 0 <= i < |s| && s[i] == r.value && p(s[i]) && forall j :: 0 <= j < i ==> !p(s[j])
    ensures r.None? <==> forall j :: 0 <= j < |s| ==> !p(s[j])
  {
    match FindIndex(s, p)
    case None => None
    case Some(i) => Some(s[i])
  }

  lemma {:induction false} SubseqRefl<T>(s: seq<T>)
    ensures IsSubseq(s, s)
    decreases |s|
  {
    if |s| > 0 {
      SubseqRefl(s[1..]);
    }
  }

  lemma {:induction false} SubseqTrans<T>(a: seq<T>, b: seq<T>, c: seq<T>)
    requires IsSubseq(a, b) && IsSubseq(b, c)
    ensures IsSubseq(a, c)
    decreases |c|
  {
    if |a| > 0 {
      if IsSubseq(b, c[1..]) {
        SubseqTrans(a, b, c[1..]);
      } else {
        assert b[0] == c[0] && IsSubseq(b[1..], c[1..]);
        if a[0] == b[0] && IsSubseq(a[1..], b[1..]) {
          SubseqTrans(a[1..], b[1..], c[1..]);
        } else {
          SubseqTrans(a, b[1..], c[1..]);
        }
      }
    }
  }

  /** Every suffix of `s` is a subsequence of `s`. */
  lemma {:induction false} SuffixIsSubseq<T>(s: seq<T>, k: nat)
    requires k <= |s|
    ensures IsSubseq(s[k..], s)
    decreases k
  {
    if k == 0 {
      assert s[k..] == s;
      SubseqRefl(s);
    } else {
      SuffixIsSubseq(s[1..], k - 1);
      assert s[1..][k - 1..] == s[k..];
      if |s[k..]| > 0 {
        assert IsSubseq(s[k..], s[1..]);
      }
    }
  }

  /** Limiting a list never adds or reorders elements. */
  lemma LimitLastIsSubseq<T>(s: seq<T>, last: Option<int>)
    ensures IsSubseq(LimitLast(s, last), s)
    ensures forall x :: x in LimitLast(s, last) ==> x in s
  {
    var r := LimitLast(s, last);
    var k := |s| - |r|;
    SuffixIsSubseq(s, k);
    assert r == s[k..];
    forall x | x in r
      ensures x in s
    {
      var i :| 0 <= i < |r| && r[i] == x;
      assert s[k + i] == x;
    }
  }

  /** Filtering by a predicate that holds everywhere changes nothing. */
  lemma {:induction false} FilterAll<T>(s: seq<T>, p: T -> bool)
    requires forall i :: 0 <= i < |s| ==> p(s[i])
    ensures Filter(s, p) == s
    decreases |s|
  {
    if |s| > 0 {
      FilterAll(s[1..], p);
    }
  }

  /** Filtering depends only on the predicate's values on the elements of `s`. */
  lemma {:induction false} FilterExt<T>(s: seq<T>, p: T -> bool, q: T -> bool)
    requires forall i :: 0 <= i < |s| ==> p(s[i]) == q(s[i])
    ensures Filter(s, p) == Filter(s, q)
    decreases |s|
  {
    if |s| > 0 {
      FilterExt(s[1..], p, q);
    }
  }

  /** Two successive filters are one filter by the conjunction. */
  lemma {:induction false} FilterCompose<T>(s: seq<T>, p: T -> bool, q: T -> bool, pq: T -> bool)
    requires forall i :: 0 <= i < |s| ==> pq(s[i]) == (p(s[i]) && q(s[i]))
    ensures Filter(Filter(s, p), q) == Filter(s, pq)
    decreases |s|
  {
    if |s| > 0 {
      FilterCompose(s[1..], p, q, pq);
    }
  }

  /** Two filters by predicates that never hold together select at most `|s|` elements between them. */
  lemma {:induction false} FilterDisjointCount<T>(s: seq<T>, p: T -> bool, q: T -> bool)
    requires forall i :: 0 <= i < |s| ==> !(p(s[i]) && q(s[i]))
    ensures |Filter(s, p)| + |Filter(s, q)| <= |s|
    decreases |s|
  {
    if |s| > 0 {
      FilterDisjointCount(s[1..], p, q);
    }
  }

  /** Filtering distributes over concatenation. */
  lemma {:induction false} FilterAppend<T>(a: seq<T>, b: seq<T>, p: T -> bool)
    ensures Filter(a + b, p) == Filter(a, p) + Filter(b, p)
    decreases |a|
  {
    if |a| > 0 {
      assert (a + b)[1..] == a[1..] + b;
      FilterAppend(a[1..], b, p);
    } else {
      assert a + b == b;
    }
  }

  /** Position `i` holds the most recent element of `s` satisfying `p`. */
  ghost predicate IsLastMatch<T>(s: seq<T>, p: T -> bool, i: int) {
    0 <= i < |s| && p(s[i]) && forall j :: i < j < |s| ==> !p(s[j])
  }

  /**
    The last element of `s.filter(p)` is the most recent element of `s` satisfying `p`:
    it satisfies `p` and nothing after it does.
   */
  lemma {:induction false} FilterLast<T>(s: seq<T>, p: T -> bool)
    requires |Filter(s, p)| > 0
    ensures exists i :: IsLastMatch(s, p, i) && s[i] == Filter(s, p)[|Filter(s, p)| - 1]
    decreases |s|
  {
    var t := s[1..];
    var mt := Filter(t, p);
    assert Filter(s, p) == if p(s[0]) then [s[0]] + mt else mt;
    if |mt| > 0 {
      FilterLast(t, p);
      var i :| IsLastMatch(t, p, i) && t[i] == mt[|mt| - 1];
      forall j | i + 1 < j < |s|
        ensures !p(s[j])
      {
        assert s[j] == t[j - 1];
      }
      assert s[i + 1] == t[i];
      assert IsLastMatch(s, p, i + 1);
    } else {
      FilterEmpty(t, p);
      forall j | 0 < j < |s|
        ensures !p(s[j])
      {
        assert s[j] == t[j - 1];
      }
      assert IsLastMatch(s, p, 0);
    }
  }

  /** `s.filter(p)` keeps every element satisfying `p` as often as it occurs in `s`, and no other. */
  lemma {:induction false} FilterCounts<T>(s: seq<T>, p: T -> bool)
    ensures forall x :: multiset(Filter(s, p))[x] == if p(x) then multiset(s)[x] else 0
    decreases |s|
  {
    if |s| > 0 {
      FilterCounts(s[1..], p);
      assert s == [s[0]] + s[1..];
      assert multiset(s) == multiset([s[0]]) + multiset(s[1..]);
    }
  }

  /** `s.filter(p)` is empty exactly when no element satisfies `p`. */
  lemma FilterEmpty<T>(s: seq<T>, p: T -> bool)
    ensures |Filter(s, p)| == 0 <==> forall i :: 0 <= i < |s| ==> !p(s[i])
  {
    var r := Filter(s, p);
    if |r| > 0 {
      assert r[0] in r;
    }
  }

  /** The first element of `s.filter(p)` is what `s.find(p)` returns. */
  lemma {:induction false} FilterHeadIsFind<T>(s: seq<T>, p: T -> bool)
    requires |Filter(s, p)| > 0
    ensures Find(s, p) == Some(Filter(s, p)[0])
    decreases |s|
  {
    if p(s[0]) {
      FilterHeadMatches(s, p);
    } else {
      FilterSkipsHead(s, p);
      FilterHeadIsFind(s[1..], p);
      var k := FindIndex(s[1..], p).value;
      assert FindIndex(s, p) == Some(k + 1);
      assert s[k + 1] == s[1..][k];
    }
  }

  lemma FilterHeadMatches<T>(s: seq<T>, p: T -> bool)
    requires |s| > 0 && p(s[0])
    ensures Filter(s, p) == [s[0]] + Filter(s[1..], p)
    ensures Find(s, p) == Some(s[0])
  {
  }

  lemma FilterSkipsHead<T>(s: seq<T>, p: T -> bool)
    requires |s| > 0 && !p(s[0])
    ensures Filter(s, p) == Filter(s[1..], p)
  {
  }

  /** Extending the longer sequence keeps a subsequence a subsequence. */
  lemma {:induction false} SubseqAppendRight<T>(a: seq<T>, b: seq<T>, c: seq<T>)
    requires IsSubseq(a, b)
    ensures IsSubseq(a, b + c)
    decreases |b|
  {
    if |a| > 0 {
      assert (b + c)[0] == b[0] && (b + c)[1..] == b[1..] + c;
      if a[0] == b[0] && IsSubseq(a[1..], b[1..]) {
        SubseqAppendRight(a[1..], b[1..], c);
      } else {
        SubseqAppendRight(a, b[1..], c);
      }
    }
  }

  /** Appending the same element to both sides keeps a subsequence a subsequence. */
  lemma {:induction false} SubseqSnoc<T>(a: seq<T>, b: seq<T>, x: T)
    requires IsSubseq(a, b)
    ensures IsSubseq(a + [x], b + [x])
    decreases |b|
  {
    if |b| == 0 {
      assert a + [x] == [x] && b + [x] == [x];
      assert IsSubseq([x][1..], [x][1..]);
    } else {
      assert (b + [x])[0] == b[0] && (b + [x])[1..] == b[1..] + [x];
      if |a| == 0 {
        SubseqSnoc(a, b[1..], x);
        assert IsSubseq(a + [x], (b + [x])[1..]);
      } else {
        assert (a + [x])[0] == a[0] && (a + [x])[1..] == a[1..] + [x];
        if a[0] == b[0] && IsSubseq(a[1..], b[1..]) {
          SubseqSnoc(a[1..], b[1..], x);
        } else {
          SubseqSnoc(a, b[1..], x);
        }
      }
    }
  }

  /** No element occurs twice. */
  predicate Distinct<T(==)>(s: seq<T>) {
    forall i, j :: 0 <= i < j < |s| ==> s[i] != s[j]
  }

  /** Appending an element not yet present keeps the elements distinct. */
  lemma DistinctSnoc<T>(s: seq<T>, x: T)
    requires Distinct(s) && x !in s
    ensures Distinct(s + [x])
  {
    forall i, j | 0 <= i < j < |s| + 1
      ensures (s + [x])[i] != (s + [x])[j]
    {
      if j == |s| {
        assert (s + [x])[i] == s[i];
      }
    }
  }
}
