/** `Array.prototype.filter`, `find` and counting, with the facts the commands rely on. */
module Seqs {
  import opened Wrappers

  /** `s.filter(p)`: the elements satisfying `p`, in their original order. */
  function Filter<T>(s: seq<T>, p: T -> bool): (r: seq<T>)
    ensures |r| <= |s|
    ensures forall i :: 0 <= i < |r| ==> r[i] in s && p(r[i])
    ensures forall i :: 0 <= i < |s| && p(s[i]) ==> s[i] in r
    decreases |s|
  {
    if |s| == 0 then []
    else if p(s[0]) then [s[0]] + Filter(s[1..], p)
    else Filter(s[1..], p)
  }

  /** `t` is obtained from `s` by deleting elements. */
  ghost predicate IsSubsequence<T>(t: seq<T>, s: seq<T>)
    decreases |s|
  {
    if |t| == 0 then true
    else if |s| == 0 then false
    else if t[0] == s[0] then IsSubsequence(t[1..], s[1..])
    else IsSubsequence(t, s[1..])
  }

  /** The filtered sequence keeps the original order. */
  lemma {:induction false} FilterIsSubsequence<T>(s: seq<T>, p: T -> bool)
    ensures IsSubsequence(Filter(s, p), s)
    decreases |s|
  {
    if |s| > 0 {
      FilterIsSubsequence(s[1..], p);
      if p(s[0]) {
        assert ([s[0]] + Filter(s[1..], p))[1..] == Filter(s[1..], p);
      } else {
        SubsequenceOfTail(Filter(s[1..], p), s);
      }
    }
  }

  lemma {:induction false} SubsequenceOfTail<T>(t: seq<T>, s: seq<T>)
    requires |s| > 0 && IsSubsequence(t, s[1..])
    ensures IsSubsequence(t, s)
    decreases |s|, 0
  {
    if |t| > 0 && t[0] == s[0] {
      SubsequenceDropHead(t, s[1..]);
    }
  }

  lemma {:induction false} SubsequenceDropHead<T>(t: seq<T>, s: seq<T>)
    requires |t| > 0 && IsSubsequence(t, s)
    ensures IsSubsequence(t[1..], s)
    decreases |s|, 1
  {
    if |s| > 0 {
      if t[0] == s[0] {
        SubsequenceOfTail(t[1..], s);
      } else {
        SubsequenceDropHead(t, s[1..]);
        SubsequenceOfTail(t[1..], s);
      }
    }
  }

  /** Filtering twice is filtering once by the conjunction `both`. */
  lemma {:induction false} FilterFilter<T>(s: seq<T>, p: T -> bool, q: T -> bool, both: T -> bool)
    requires forall i :: 0 <= i < |s| ==> both(s[i]) == (p(s[i]) && q(s[i]))
    ensures Filter(Filter(s, p), q) == Filter(s, both)
    decreases |s|
  {
    if |s| > 0 {
      FilterFilter(s[1..], p, q, both);
      if p(s[0]) {
        assert ([s[0]] + Filter(s[1..], p))[1..] == Filter(s[1..], p);
      }
    }
  }

  /** Elements kept by a disjunction `either` split into those kept by each
      side, when no element satisfies both. */
  lemma {:induction false} FilterDisjointCount<T>(s: seq<T>, p: T -> bool, q: T -> bool, either: T -> bool)
    requires forall i :: 0 <= i < |s| ==> either(s[i]) == (p(s[i]) || q(s[i]))
    requires forall i :: 0 <= i < |s| ==> !(p(s[i]) && q(s[i]))
    ensures |Filter(s, either)| == |Filter(s, p)| + |Filter(s, q)|
    decreases |s|
  {
    if |s| > 0 {
      FilterDisjointCount(s[1..], p, q, either);
    }
  }

  /** A predicate that holds everywhere keeps everything. */
  lemma {:induction false} FilterAll<T>(s: seq<T>, p: T -> bool)
    requires forall i :: 0 <= i < |s| ==> p(s[i])
    ensures Filter(s, p) == s
    decreases |s|
  {
    if |s| > 0 {
      FilterAll(s[1..], p);
    }
  }

  /** Every element is kept by exactly one of `p` and its complement `q`. */
  lemma {:induction false} FilterComplement<T>(s: seq<T>, p: T -> bool, q: T -> bool)
    requires forall i :: 0 <= i < |s| ==> q(s[i]) == !p(s[i])
    ensures |Filter(s, p)| + |Filter(s, q)| == |s|
    decreases |s|
  {
    if |s| > 0 {
      FilterComplement(s[1..], p, q);
    }
  }

  /** A weaker predicate keeps at least as many elements. */
  lemma {:induction false} FilterMonotone<T>(s: seq<T>, p: T -> bool, q: T -> bool)
    requires forall i :: 0 <= i < |s| ==> p(s[i]) ==> q(s[i])
    ensures |Filter(s, p)| <= |Filter(s, q)|
    decreases |s|
  {
    if |s| > 0 {
      FilterMonotone(s[1..], p, q);
    }
  }

  /** Replacing one element changes the count by what the old and the new
      element contribute. */
  lemma {:induction false} FilterCountUpdate<T>(s: seq<T>, k: nat, x: T, p: T -> bool)
    requires k < |s|
    ensures |Filter(s[k := x], p)| + (if p(s[k]) then 1 else 0)
            == |Filter(s, p)| + (if p(x) then 1 else 0)
    decreases |s|
  {
    var t := s[k := x];
    if k == 0 {
      assert t[1..] == s[1..];
    } else {
      FilterCountUpdate(s[1..], k - 1, x, p);
      assert t[1..] == s[1..][k - 1 := x];
      assert t[0] == s[0];
    }
  }

  /** Filtering one element keeps it exactly when it satisfies `p`. */
  lemma FilterSingle<T>(x: T, p: T -> bool)
    ensures Filter([x], p) == if p(x) then [x] else []
  {
    assert [x][1..] == [];
  }

  /** Filtering a sequence with a first element filters the two parts apart. */
  lemma FilterCons<T>(x: T, s: seq<T>, p: T -> bool)
    ensures Filter([x] + s, p) == Filter([x], p) + Filter(s, p)
  {
    assert ([x] + s)[1..] == s;
    FilterSingle(x, p);
  }

  /** Filtering depends only on what the predicate says about the elements. */
  lemma {:induction false} FilterExt<T>(s: seq<T>, p: T -> bool, q: T -> bool)
    requires forall i :: 0 <= i < |s| ==> p(s[i]) == q(s[i])
    ensures Filter(s, p) == Filter(s, q)
    decreases |s|
  {
    if |s| > 0 {
      FilterExt(s[1..], p, q);
    }
  }

  /** Index of the first element satisfying `p`, or |s| when there is none. */
  function FindIndex<T>(s: seq<T>, p: T -> bool): (k: nat)
    ensures k <= |s|
    ensures forall j :: 0 <= j < k ==> !p(s[j])
    ensures k < |s| ==> p(s[k])
    decreases |s|
  {
    if |s| == 0 then 0
    else if p(s[0]) then 0
    else 1 + FindIndex(s[1..], p)
  }

  /** The first index satisfying `p` is the one `FindIndex` returns. */
  lemma FindIndexIs<T>(s: seq<T>, p: T -> bool, k: nat)
    requires k < |s| && p(s[k])
    requires forall j :: 0 <= j < k ==> !p(s[j])
    ensures FindIndex(s, p) == k
  {
  }

  /** `s.find(p)`: the first element satisfying `p`, if any. */
  function Find<T>(s: seq<T>, p: T -> bool): (r: Option<T>)
    ensures r.None? <==> forall i :: 0 <= i < |s| ==> !p(s[i])
    ensures r.Some? ==> p(r.value)
    ensures r.Some? ==> FindIndex(s, p) < |s| && r.value == s[FindIndex(s, p)]
  {
    var k := FindIndex(s, p);
    if k < |s| then Some(s[k]) else None
  }

  /** `s.map(f)` */
  function Map<T, U>(s: seq<T>, f: T -> U): (r: seq<U>)
    ensures |r| == |s|
    ensures forall i :: 0 <= i < |s| ==> r[i] == f(s[i])
  {
    seq(|s|, i requires 0 <= i < |s| => f(s[i]))
  }

  /** `s.filter(p).map(f)` holds the image of every element satisfying `p`,
      and nothing else. */
  lemma FilterMapCovers<T, U>(s: seq<T>, p: T -> bool, f: T -> U)
    ensures forall x :: x in s && p(x) ==> f(x) in Map(Filter(s, p), f)
    ensures forall i :: 0 <= i < |Filter(s, p)| ==>
              Filter(s, p)[i] in s && p(Filter(s, p)[i]) && Map(Filter(s, p), f)[i] == f(Filter(s, p)[i])
  {
    var shown := Filter(s, p);
    var rows := Map(shown, f);
    forall x | x in s && p(x) ensures f(x) in rows {
      var i :| 0 <= i < |s| && s[i] == x;
      var j :| 0 <= j < |shown| && shown[j] == x;
      assert rows[j] == f(x);
    }
  }

  /** Mapping over a sequence with a first element. */
  lemma MapCons<T, U>(x: T, s: seq<T>, f: T -> U)
    ensures Map([x] + s, f) == [f(x)] + Map(s, f)
  {
  }
}
