/** `Array.prototype.filter` over an immutable list: the elements for which a
    callback holds, in their original order. The callback is any total
    function, so the facts here hold for every filter callback. */
module ArrayFilter {

  /** The kept elements, in input order. Defined on the last element so that
      it mirrors a front-to-back pass that appends each kept element. */
  function Filter<T>(s: seq<T>, keep: T -> bool): (r: seq<T>)
    ensures |r| <= |s|
    ensures forall k :: 0 <= k < |r| ==> r[k] in s && keep(r[k])
    ensures forall i :: 0 <= i < |s| && keep(s[i]) ==> s[i] in r
  {
    if |s| == 0 then
      []
    else
      var init := s[..|s| - 1];
      var last := s[|s| - 1];
      assert s == init + [last];
      var rest := Filter(init, keep);
      if keep(last) then rest + [last] else rest
  }

  /** Filtering a list with one more element at the end. */
  lemma FilterAppend<T>(s: seq<T>, last: T, keep: T -> bool)
    ensures Filter(s + [last], keep) == Filter(s, keep) + (if keep(last) then [last] else [])
  {
    assert (s + [last])[..|s|] == s;
  }

  /** The positions of the kept elements, in increasing order: an
      independent description of which input elements survive. */
  function KeptIndices<T>(s: seq<T>, keep: T -> bool): (idx: seq<nat>)
    ensures forall k :: 0 <= k < |idx| ==> idx[k] < |s| && keep(s[idx[k]])
    ensures forall k, l :: 0 <= k < l < |idx| ==> idx[k] < idx[l]
    ensures forall i :: 0 <= i < |s| && keep(s[i]) ==> i in idx
  {
    if |s| == 0 then
      []
    else
      var n := |s| - 1;
      var rest := KeptIndices(s[..n], keep);
      assert forall k :: 0 <= k < |rest| ==> s[rest[k]] == s[..n][rest[k]];
      assert forall i :: 0 <= i < n ==> s[i] == s[..n][i];
      if keep(s[n]) then rest + [n] else rest
  }

  /** The filter result is exactly the elements at the kept positions, one
      per position, in input order: nothing is invented, duplicated or
      reordered. */
  lemma {:induction false} FilterSelectsKeptIndices<T>(s: seq<T>, keep: T -> bool)
    ensures |Filter(s, keep)| == |KeptIndices(s, keep)|
    ensures forall k :: 0 <= k < |KeptIndices(s, keep)| ==>
      Filter(s, keep)[k] == s[KeptIndices(s, keep)[k]]
  {
    if |s| > 0 {
      var n := |s| - 1;
      var rest, idx := Filter(s[..n], keep), KeptIndices(s[..n], keep);
      FilterSelectsKeptIndices(s[..n], keep);
      var tail := if keep(s[n]) then [s[n]] else [];
      var tailIdx := if keep(s[n]) then [n] else [];
      assert Filter(s, keep) == rest + tail;
      assert KeptIndices(s, keep) == idx + tailIdx;
      forall k | 0 <= k < |idx + tailIdx|
        ensures (rest + tail)[k] == s[(idx + tailIdx)[k]]
      {
        if k < |idx| {
          assert s[..n][idx[k]] == s[idx[k]];
        }
      }
    }
  }

  /** Strictly increasing index lists with the same elements are equal. */
  lemma {:induction false} IncreasingUnique(a: seq<nat>, b: seq<nat>)
    requires forall k, l :: 0 <= k < l < |a| ==> a[k] < a[l]
    requires forall k, l :: 0 <= k < l < |b| ==> b[k] < b[l]
    requires forall x :: x in a <==> x in b
    ensures a == b
  {
    assert |a| > 0 ==> a[0] in b;
    assert |b| > 0 ==> b[0] in a;
    if |a| > 0 && |b| > 0 {
      assert a[0] == b[0];
      forall x
        ensures x in a[1..] <==> x in b[1..]
      {
        if x in a[1..] {
          assert x in b && x != b[0];
        }
        if x in b[1..] {
          assert x in a && x != a[0];
        }
      }
      IncreasingUnique(a[1..], b[1..]);
      assert a == [a[0]] + a[1..];
      assert b == [b[0]] + b[1..];
    }
  }

  /** The order-preserving selection of the kept positions determines the
      filter result: any list built that way equals `Filter`. */
  lemma SelectionDeterminesFilter<T>(s: seq<T>, keep: T -> bool, r: seq<T>, idx: seq<nat>)
    requires forall k, l :: 0 <= k < l < |idx| ==> idx[k] < idx[l]
    requires forall k :: 0 <= k < |idx| ==> idx[k] < |s|
    requires forall i :: 0 <= i < |s| ==> (i in idx <==> keep(s[i]))
    requires |r| == |idx|
    requires forall k :: 0 <= k < |idx| ==> r[k] == s[idx[k]]
    ensures r == Filter(s, keep)
  {
    var kept := KeptIndices(s, keep);
    forall x
      ensures x in idx <==> x in kept
    {
      if x in idx {
        var k :| 0 <= k < |idx| && idx[k] == x;
        assert keep(s[x]);
      }
      if x in kept {
        var k :| 0 <= k < |kept| && kept[k] == x;
        assert keep(s[x]);
      }
    }
    IncreasingUnique(idx, kept);
    FilterSelectsKeptIndices(s, keep);
    var f := Filter(s, keep);
    assert |r| == |f|;
    forall k | 0 <= k < |r|
      ensures r[k] == f[k]
    {
      assert r[k] == s[kept[k]];
    }
  }

  /** A list whose every element already passes is returned unchanged. */
  lemma {:induction false} FilterKeepsPassingList<T>(s: seq<T>, keep: T -> bool)
    requires forall i :: 0 <= i < |s| ==> keep(s[i])
    ensures Filter(s, keep) == s
  {
    if |s| > 0 {
      var n := |s| - 1;
      FilterKeepsPassingList(s[..n], keep);
      assert s == s[..n] + [s[n]];
    }
  }

  /** The result is never longer than the input, and is exactly as long
      when every element passes. */
  lemma {:induction false} FilterLengthBounds<T>(s: seq<T>, keep: T -> bool)
    ensures |Filter(s, keep)| <= |s|
    ensures |Filter(s, keep)| == |s| <==> forall i :: 0 <= i < |s| ==> keep(s[i])
  {
    if |s| > 0 {
      var n := |s| - 1;
      FilterLengthBounds(s[..n], keep);
      if forall i :: 0 <= i < |s| ==> keep(s[i]) {
        FilterKeepsPassingList(s, keep);
      } else if keep(s[n]) {
        var i :| 0 <= i < |s| && !keep(s[i]);
        assert s[..n][i] == s[i];
      }
    }
  }

  /** The result is empty exactly when no input element passes. */
  lemma FilterEmptyIffNoneKept<T>(s: seq<T>, keep: T -> bool)
    ensures |Filter(s, keep)| == 0 <==> forall i :: 0 <= i < |s| ==> !keep(s[i])
  {
    if |Filter(s, keep)| == 0 {
      forall i | 0 <= i < |s|
        ensures !keep(s[i])
      {
        assert s[i] in s;
      }
    } else {
      assert Filter(s, keep)[0] in Filter(s, keep);
    }
  }

  /** Filtering a filtered list again with the same callback changes nothing. */
  lemma FilterIdempotent<T>(s: seq<T>, keep: T -> bool)
    ensures Filter(Filter(s, keep), keep) == Filter(s, keep)
  {
    var r := Filter(s, keep);
    assert forall i :: 0 <= i < |r| ==> r[i] in r;
    FilterKeepsPassingList(r, keep);
  }

  /** Two filters applied one after the other commute. */
  lemma {:induction false} FilterCommutes<T>(s: seq<T>, p: T -> bool, q: T -> bool)
    ensures Filter(Filter(s, p), q) == Filter(Filter(s, q), p)
  {
    if |s| > 0 {
      var n := |s| - 1;
      var last := s[n];
      FilterCommutes(s[..n], p, q);
      FilterAppend(Filter(s[..n], p), last, q);
      FilterAppend(Filter(s[..n], q), last, p);
    }
  }

  /** Callbacks that agree on every element of the list filter it alike. */
  lemma {:induction false} FilterExtensional<T>(s: seq<T>, p: T -> bool, q: T -> bool)
    requires forall i :: 0 <= i < |s| ==> p(s[i]) == q(s[i])
    ensures Filter(s, p) == Filter(s, q)
  {
    if |s| > 0 {
      var n := |s| - 1;
      assert forall i :: 0 <= i < n ==> s[..n][i] == s[i];
      FilterExtensional(s[..n], p, q);
    }
  }
}
