/** Facts about sequences shared by the stack matcher and the deletion coordinator. */
module Seqs {

  /** The position of the first element of `s` that satisfies `p`, or `|s|`
      when none does: a left-to-right scan that stops at the first hit. */
  function FirstIndex<T>(s: seq<T>, p: T -> bool): (k: nat)
    ensures k <= |s|
    ensures forall j :: 0 <= j < k ==> !p(s[j])
    ensures k < |s| ==> p(s[k])
  {
    if s == [] then 0
    else if p(s[0]) then 0
    else 1 + FirstIndex(s[1..], p)
  }

  /** `idx` is a strictly increasing list of positions into a sequence of length `n`:
      the positions at which an order-preserving subsequence was taken. */
  predicate IsIncreasing(idx: seq<int>, n: int) {
    && (forall k :: 0 <= k < |idx| ==> 0 <= idx[k] < n)
    && (forall a, b :: 0 <= a < b < |idx| ==> idx[a] < idx[b])
  }

  /** What each element of `s` contributes under `f`, concatenated in order:
      the shape of a loop that appends something, or nothing, per element. */
  function FlatMap<T, U>(s: seq<T>, f: T -> seq<U>): seq<U>
    decreases |s|
  {
    if s == [] then [] else FlatMap(s[..|s| - 1], f) + f(s[|s| - 1])
  }

  /** `f` contributes at most one element for each element of `s`. */
  ghost predicate AtMostOneEach<T, U>(s: seq<T>, f: T -> seq<U>) {
    forall i :: 0 <= i < |s| ==> |f(s[i])| <= 1
  }

  /** Extending an order-preserving selection of positions by position `n`, or not. */
  lemma IncreasingExtend(idx: seq<int>, n: nat, hit: bool)
    requires IsIncreasing(idx, n)
    ensures IsIncreasing(if hit then idx + [n] else idx, n + 1)
    ensures forall i :: 0 <= i < n ==> (i in (if hit then idx + [n] else idx) <==> i in idx)
    ensures n in (if hit then idx + [n] else idx) <==> hit
  {
    if hit {
      var e := idx + [n];
      forall a, b | 0 <= a < b < |e|
        ensures e[a] < e[b]
      {
        assert e[a] == idx[a];
        if b < |idx| {
          assert e[b] == idx[b];
        }
      }
      forall k | 0 <= k < |e|
        ensures 0 <= e[k] < n + 1
      {
        if k < |idx| {
          assert e[k] == idx[k];
        } else {
          assert e[k] == n;
        }
      }
    }
  }

  /** A loop over `s` that has selected `prev`, at increasing positions `idx`
      before `i`, and now keeps `s[i]` or not, has selected `kept` at increasing
      positions before `i + 1`. */
  lemma SelectExtend<T>(s: seq<T>, i: int, prev: seq<T>, kept: seq<T>, idx: seq<int>) returns (idx': seq<int>)
    requires 0 <= i < |s|
    requires |idx| == |prev| && IsIncreasing(idx, i)
    requires forall k :: 0 <= k < |prev| ==> prev[k] == s[idx[k]]
    requires kept == prev || kept == prev + [s[i]]
    ensures |idx'| == |kept| && IsIncreasing(idx', i + 1)
    ensures forall k :: 0 <= k < |kept| ==> kept[k] == s[idx'[k]]
  {
    var hit := |kept| > |prev|;
    IncreasingExtend(idx, i, hit);
    idx' := if hit then idx + [i] else idx;
    forall k | 0 <= k < |kept|
      ensures kept[k] == s[idx'[k]]
    {
      if k < |prev| {
        assert kept[k] == prev[k] && idx'[k] == idx[k];
      }
    }
  }

  /** The positions of the elements of `s` that contribute something under `f`, in order. */
  ghost function Positions<T, U>(s: seq<T>, f: T -> seq<U>): seq<int>
    decreases |s|
  {
    if s == [] then []
    else Positions(s[..|s| - 1], f) + if f(s[|s| - 1]) != [] then [|s| - 1] else []
  }

  lemma {:induction false} PositionsIncreasing<T, U>(s: seq<T>, f: T -> seq<U>)
    ensures IsIncreasing(Positions(s, f), |s|)
    decreases |s|
  {
    if s != [] {
      var n := |s| - 1;
      PositionsIncreasing(s[..n], f);
      IncreasingExtend(Positions(s[..n], f), n, f(s[n]) != []);
    }
  }

  lemma {:induction false} PositionsIn<T, U>(s: seq<T>, f: T -> seq<U>)
    ensures forall i :: 0 <= i < |s| ==> (i in Positions(s, f) <==> f(s[i]) != [])
    decreases |s|
  {
    if s != [] {
      var n := |s| - 1;
      var front := s[..n];
      PositionsIn(front, f);
      PositionsIncreasing(front, f);
      IncreasingExtend(Positions(front, f), n, f(s[n]) != []);
      forall i | 0 <= i < n
        ensures i in Positions(s, f) <==> f(s[i]) != []
      {
        assert s[i] == front[i];
      }
    }
  }

  lemma {:induction false} PositionsSelect<T, U>(s: seq<T>, f: T -> seq<U>)
    requires AtMostOneEach(s, f)
    ensures |Positions(s, f)| == |FlatMap(s, f)|
    ensures forall k :: 0 <= k < |Positions(s, f)| ==>
      0 <= Positions(s, f)[k] < |s| && f(s[Positions(s, f)[k]]) == [FlatMap(s, f)[k]]
    decreases |s|
  {
    if s != [] {
      var n := |s| - 1;
      var front := s[..n];
      assert AtMostOneEach(front, f) by {
        forall i | 0 <= i < n
          ensures |f(front[i])| <= 1
        {
          assert front[i] == s[i];
        }
      }
      PositionsSelect(front, f);
      var prev := Positions(front, f);
      var idx := Positions(s, f);
      var r := FlatMap(s, f);
      var rf := FlatMap(front, f);
      var last := f(s[n]);
      assert r == rf + last;
      assert |last| <= 1;
      forall k | 0 <= k < |idx|
        ensures 0 <= idx[k] < |s| && f(s[idx[k]]) == [r[k]]
      {
        if k < |prev| {
          assert idx[k] == prev[k] && r[k] == rf[k] && s[prev[k]] == front[prev[k]];
        } else {
          assert idx[k] == n && r[k] == last[0] && last == [last[0]];
        }
      }
    }
  }

  /** When each element contributes at most one, the result is an order-preserving
      selection: `idx` gives the position of the element behind each result
      entry, positions increase, and a position is selected exactly when its
      element contributes. */
  lemma FlatMapPositions<T, U>(s: seq<T>, f: T -> seq<U>) returns (idx: seq<int>)
    requires AtMostOneEach(s, f)
    ensures |idx| == |FlatMap(s, f)|
    ensures IsIncreasing(idx, |s|)
    ensures forall k :: 0 <= k < |idx| ==> f(s[idx[k]]) == [FlatMap(s, f)[k]]
    ensures forall i :: 0 <= i < |s| ==> (i in idx <==> f(s[i]) != [])
  {
    idx := Positions(s, f);
    PositionsIncreasing(s, f);
    PositionsIn(s, f);
    PositionsSelect(s, f);
  }

  /** When no element contributes, the result is empty. */
  lemma {:induction false} FlatMapNone<T, U>(s: seq<T>, f: T -> seq<U>)
    requires forall i :: 0 <= i < |s| ==> f(s[i]) == []
    ensures FlatMap(s, f) == []
    decreases |s|
  {
    if s != [] {
      var n := |s| - 1;
      assert forall i :: 0 <= i < n ==> s[..n][i] == s[i];
      FlatMapNone(s[..n], f);
    }
  }

  /** The first element contributes first. */
  lemma {:induction false} FlatMapCons<T, U>(x: T, s: seq<T>, f: T -> seq<U>)
    ensures FlatMap([x] + s, f) == f(x) + FlatMap(s, f)
    decreases |s|
  {
    if s != [] {
      var n := |s| - 1;
      assert ([x] + s)[..n + 1] == [x] + s[..n];
      FlatMapCons(x, s[..n], f);
    }
  }

  /** Taking one more element appends its contribution. */
  lemma FlatMapSnoc<T, U>(s: seq<T>, i: int, f: T -> seq<U>)
    requires 0 <= i < |s|
    ensures FlatMap(s[..i + 1], f) == FlatMap(s[..i], f) + f(s[i])
  {
    assert s[..i + 1][..i] == s[..i];
  }

  /** The result for a concatenation is the concatenation of the results. */
  lemma {:induction false} FlatMapAppend<T, U>(s: seq<T>, t: seq<T>, f: T -> seq<U>)
    ensures FlatMap(s + t, f) == FlatMap(s, f) + FlatMap(t, f)
    decreases |t|
  {
    if t == [] {
      assert s + t == s;
    } else {
      var n := |t| - 1;
      assert (s + t)[..|s + t| - 1] == s + t[..n];
      assert (s + t)[|s + t| - 1] == t[n];
      FlatMapAppend(s, t[..n], f);
      assert FlatMap(s + t, f) == FlatMap(s + t[..n], f) + f(t[n]);
      assert FlatMap(t, f) == FlatMap(t[..n], f) + f(t[n]);
    }
  }
}
