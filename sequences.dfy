/**
 * The Swift collection operations the recognition pipeline and the text
 * field are built from: `filter`, `joined(separator:)` and
 * `split(separator:)`, over sequences of any element type.
 */
module Sequences {
  import opened Wrappers

  /** `a` is obtained from `b` by deleting elements; what remains keeps its order. */
  ghost predicate IsSubsequence<T>(a: seq<T>, b: seq<T>)
    decreases |b|
  {
    a == [] || (b != [] && (IsSubsequence(a, b[1..]) || (a[0] == b[0] && IsSubsequence(a[1..], b[1..]))))
  }

  /** Swift's `filter`: the elements of `xs` that satisfy `p`, in their original order. */
  function Filter<T>(xs: seq<T>, p: T -> bool): (r: seq<T>)
    ensures |r| <= |xs|
    ensures forall i :: 0 <= i < |r| ==> p(r[i])
    decreases |xs|
  {
    if xs == [] then []
    else if p(xs[0]) then [xs[0]] + Filter(xs[1..], p)
    else Filter(xs[1..], p)
  }

  /** What `filter` keeps is a subsequence of its input: nothing is added and the order is kept. */
  lemma {:induction false} FilterSubsequence<T>(xs: seq<T>, p: T -> bool)
    ensures IsSubsequence(Filter(xs, p), xs)
    decreases |xs|
  {
    if xs != [] {
      FilterSubsequence(xs[1..], p);
      var r := Filter(xs, p);
      if p(xs[0]) {
        assert r[1..] == Filter(xs[1..], p);
      }
    }
  }

  /** Everything `filter` keeps comes from its input. */
  lemma {:induction false} FilterFrom<T>(xs: seq<T>, p: T -> bool)
    ensures forall i :: 0 <= i < |Filter(xs, p)| ==> Filter(xs, p)[i] in xs
    decreases |xs|
  {
    if xs != [] {
      FilterFrom(xs[1..], p);
    }
  }

  /** `filter` drops no element that satisfies the predicate. */
  lemma {:induction false} FilterKeepsEvery<T>(xs: seq<T>, p: T -> bool)
    ensures forall i :: 0 <= i < |xs| && p(xs[i]) ==> xs[i] in Filter(xs, p)
    decreases |xs|
  {
    if xs != [] {
      FilterKeepsEvery(xs[1..], p);
      forall i | 0 < i < |xs| && p(xs[i])
        ensures xs[i] in Filter(xs, p)
      {
        assert xs[i] == xs[1..][i - 1];
      }
    }
  }

  /** `filter` keeps every copy of an element that satisfies the predicate and no copy of one that does not. */
  lemma {:induction false} FilterCount<T>(xs: seq<T>, p: T -> bool)
    ensures forall x :: multiset(Filter(xs, p))[x] == if p(x) then multiset(xs)[x] else 0
    decreases |xs|
  {
    if xs != [] {
      FilterCount(xs[1..], p);
      assert xs == [xs[0]] + xs[1..];
      assert multiset(xs) == multiset([xs[0]]) + multiset(xs[1..]);
      if p(xs[0]) {
        assert multiset(Filter(xs, p)) == multiset([xs[0]]) + multiset(Filter(xs[1..], p));
      }
    }
  }

  /** Filtering distributes over concatenation; with the singleton case this determines `Filter` completely. */
  lemma {:induction false} FilterAppend<T>(a: seq<T>, b: seq<T>, p: T -> bool)
    ensures Filter(a + b, p) == Filter(a, p) + Filter(b, p)
    decreases |a|
  {
    if a == [] {
      assert a + b == b;
    } else {
      assert (a + b)[1..] == a[1..] + b;
      FilterAppend(a[1..], b, p);
    }
  }

  /** Filtering a sequence decides its first element, then filters the rest. */
  lemma FilterCons<T>(x: T, xs: seq<T>, p: T -> bool)
    ensures Filter([x] + xs, p) == (if p(x) then [x] else []) + Filter(xs, p)
  {
    assert ([x] + xs)[1..] == xs;
  }

  /** A filter that every element passes keeps the sequence as it is. */
  lemma {:induction false} FilterKeepsAll<T>(xs: seq<T>, p: T -> bool)
    requires forall i :: 0 <= i < |xs| ==> p(xs[i])
    ensures Filter(xs, p) == xs
    decreases |xs|
  {
    if xs != [] {
      FilterKeepsAll(xs[1..], p);
    }
  }

  /** Swift's `joined(separator:)`: the elements with `sep` between neighbours. */
  function JoinWith<T>(xs: seq<seq<T>>, sep: seq<T>): seq<T>
    decreases |xs|
  {
    if xs == [] then []
    else if |xs| == 1 then xs[0]
    else xs[0] + sep + JoinWith(xs[1..], sep)
  }

  /** `sep` occurs in `s` starting at position `i`. */
  predicate OccursAt<T(==)>(s: seq<T>, sep: seq<T>, i: int) {
    0 <= i && i + |sep| <= |s| && s[i..i + |sep|] == sep
  }

  /** `sep` occurs nowhere in `s`. */
  predicate Free<T(==)>(s: seq<T>, sep: seq<T>) {
    forall i :: 0 <= i <= |s| ==> !OccursAt(s, sep, i)
  }

  /** The leftmost occurrence of `sep` in `s` at or after position `i` (FindFromLeftmost). */
  function FindFrom<T(==)>(s: seq<T>, sep: seq<T>, i: nat): Option<nat>
    requires i <= |s|
    decreases |s| - i
  {
    if OccursAt(s, sep, i) then Some(i)
    else if i == |s| then None
    else FindFrom(s, sep, i + 1)
  }

  /**
   * What `FindFrom` reports is an occurrence with none between `i` and it,
   * and it reports nothing only when there is no occurrence from `i` on.
   */
  lemma {:induction false} FindFromLeftmost<T>(s: seq<T>, sep: seq<T>, i: nat)
    requires i <= |s|
    ensures FindFrom(s, sep, i).Some? ==>
      i <= FindFrom(s, sep, i).value && OccursAt(s, sep, FindFrom(s, sep, i).value)
    ensures FindFrom(s, sep, i).Some? ==>
      forall j :: i <= j < FindFrom(s, sep, i).value ==> !OccursAt(s, sep, j)
    ensures FindFrom(s, sep, i).None? ==> forall j :: i <= j <= |s| ==> !OccursAt(s, sep, j)
    decreases |s| - i
  {
    if !OccursAt(s, sep, i) && i < |s| {
      FindFromLeftmost(s, sep, i + 1);
    }
  }

  /** An occurrence with none between `i` and it is the one `FindFrom` reports. */
  lemma {:induction false} FindFromIs<T>(s: seq<T>, sep: seq<T>, i: nat, k: nat)
    requires i <= k
    requires OccursAt(s, sep, k)
    requires forall j :: i <= j < k ==> !OccursAt(s, sep, j)
    ensures FindFrom(s, sep, i) == Some(k)
    decreases k - i
  {
    if i < k {
      FindFromIs(s, sep, i + 1, k);
    }
  }

  /** Where there is no occurrence from `i` on, `FindFrom` reports none. */
  lemma {:induction false} FindFromNone<T>(s: seq<T>, sep: seq<T>, i: nat)
    requires i <= |s|
    requires forall j :: i <= j <= |s| ==> !OccursAt(s, sep, j)
    ensures FindFrom(s, sep, i) == None
    decreases |s| - i
  {
    if i < |s| {
      FindFromNone(s, sep, i + 1);
    }
  }

  /** The part of `s` before the leftmost occurrence of `sep` holds no occurrence. */
  lemma PrefixBeforeFirstIsFree<T>(s: seq<T>, sep: seq<T>, k: nat)
    requires k <= |s|
    requires forall j :: 0 <= j < k ==> !OccursAt(s, sep, j)
    requires |sep| > 0
    ensures Free(s[..k], sep)
  {
    forall j | 0 <= j <= k
      ensures !OccursAt(s[..k], sep, j)
    {
      if OccursAt(s[..k], sep, j) {
        assert s[..k][j..j + |sep|] == s[j..j + |sep|];
        assert OccursAt(s, sep, j);
      }
    }
  }

  /**
   * The pieces of `s` between occurrences of `sep`, cut at the leftmost
   * occurrence each time and empty pieces kept: joining them back with
   * `sep` gives `s` (JoinPieces).
   */
  function Pieces<T(==)>(s: seq<T>, sep: seq<T>): (r: seq<seq<T>>)
    requires |sep| > 0
    ensures |r| > 0
    decreases |s|
  {
    FindFromLeftmost(s, sep, 0);
    match FindFrom(s, sep, 0)
    case None => [s]
    case Some(k) => [s[..k]] + Pieces(s[k + |sep|..], sep)
  }

  /** Where the first cut falls, `Pieces` puts its first piece and goes on after the separator. */
  lemma PiecesAtCut<T>(s: seq<T>, sep: seq<T>, k: nat)
    requires |sep| > 0
    requires FindFrom(s, sep, 0) == Some(k)
    ensures (FindFromLeftmost(s, sep, 0); Pieces(s, sep) == [s[..k]] + Pieces(s[k + |sep|..], sep))
  {
  }

  /** No piece contains the separator. */
  lemma {:induction false} PiecesAreFree<T>(s: seq<T>, sep: seq<T>)
    requires |sep| > 0
    ensures forall k :: 0 <= k < |Pieces(s, sep)| ==> Free(Pieces(s, sep)[k], sep)
    decreases |s|
  {
    FindFromLeftmost(s, sep, 0);
    match FindFrom(s, sep, 0)
    case None =>
    case Some(k) =>
      PrefixBeforeFirstIsFree(s, sep, k);
      PiecesAreFree(s[k + |sep|..], sep);
  }

  /** Nonempty sequences. */
  predicate NonEmpty<T>(s: seq<T>) { |s| > 0 }

  /**
   * Swift's `split(separator:)` with its defaults: the pieces of `s`
   * between occurrences of `sep`, empty pieces omitted.
   */
  function Split<T(==)>(s: seq<T>, sep: seq<T>): (r: seq<seq<T>>)
    requires |sep| > 0
    ensures forall k :: 0 <= k < |r| ==> |r[k]| > 0
  {
    Filter(Pieces(s, sep), NonEmpty)
  }

  /** No piece that `split(separator:)` returns contains the separator. */
  lemma SplitPiecesAreFree<T>(s: seq<T>, sep: seq<T>)
    requires |sep| > 0
    ensures forall k :: 0 <= k < |Split(s, sep)| ==> Free(Split(s, sep)[k], sep)
  {
    PiecesAreFree(s, sep);
    FilterFrom(Pieces(s, sep), NonEmpty);
  }

  /** Joining a first element onto a nonempty rest puts one separator between them. */
  lemma JoinCons<T>(x: seq<T>, ys: seq<seq<T>>, sep: seq<T>)
    requires |ys| > 0
    ensures JoinWith([x] + ys, sep) == x + sep + JoinWith(ys, sep)
  {
    assert ([x] + ys)[1..] == ys;
  }

  /** Joining the pieces with the separator rebuilds the sequence they were cut from. */
  lemma {:induction false} JoinPieces<T>(s: seq<T>, sep: seq<T>)
    requires |sep| > 0
    ensures JoinWith(Pieces(s, sep), sep) == s
    decreases |s|
  {
    FindFromLeftmost(s, sep, 0);
    match FindFrom(s, sep, 0)
    case None =>
    case Some(k) =>
      var rest := s[k + |sep|..];
      JoinPieces(rest, sep);
      JoinCons(s[..k], Pieces(rest, sep), sep);
      assert s == s[..k] + sep + rest by {
        assert s[k..k + |sep|] == sep;
        assert s == s[..k] + s[k..k + |sep|] + s[k + |sep|..];
      }
  }

  /** A piece that holds no separator and is not empty splits into itself alone. */
  lemma SplitFree<T>(s: seq<T>, sep: seq<T>)
    requires |sep| > 0
    requires Free(s, sep)
    ensures Pieces(s, sep) == [s]
    ensures Split(s, sep) == if s == [] then [] else [s]
  {
    FindFromNone(s, sep, 0);
  }
}
