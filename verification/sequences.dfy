/** `Array.prototype.filter` over sequences, and what it preserves. */
module Sequences {

  /** The elements of `s` that `keep` accepts, in their original order. */
  function Filter<T>(s: seq<T>, keep: T -> bool): (r: seq<T>)
    ensures |r| <= |s|
    ensures forall x :: x in r ==> x in s && keep(x)
    ensures forall x :: x in s && keep(x) ==> x in r
  {
    if s == [] then []
    else
      assert s == [s[0]] + s[1..];
      (if keep(s[0]) then [s[0]] else []) + Filter(s[1..], keep)
  }

  /** `idx` maps each position of `r` to a position of `s` holding the same
      element, strictly increasing: `r` is `s` with some elements dropped. */
  ghost predicate IsEmbedding<T>(idx: seq<nat>, r: seq<T>, s: seq<T>) {
    && |idx| == |r|
    && (forall i :: 0 <= i < |idx| ==> idx[i] < |s| && r[i] == s[idx[i]])
    && (forall i, j :: 0 <= i < j < |idx| ==> idx[i] < idx[j])
  }

  /** `r` is an order-preserving sub-list of `s`. */
  ghost predicate IsSubsequence<T>(r: seq<T>, s: seq<T>) {
    exists idx :: IsEmbedding(idx, r, s)
  }

  /** An embedding of `r` into the tail of `s` shifts to one into `s`, with or
      without the head of `s` in front of `r`. */
  lemma ShiftEmbedding<T>(idx: seq<nat>, r: seq<T>, s: seq<T>) returns (shifted: seq<nat>)
    requires s != [] && IsEmbedding(idx, r, s[1..])
    ensures IsEmbedding(shifted, r, s)
    ensures IsEmbedding([0] + shifted, [s[0]] + r, s)
  {
    shifted := seq(|idx|, i requires 0 <= i < |idx| => idx[i] + 1);
    forall i | 0 <= i < |shifted| ensures shifted[i] < |s| && r[i] == s[shifted[i]] {
      assert s[1..][idx[i]] == s[idx[i] + 1];
    }
    var cons := [0] + shifted;
    forall i, j | 0 <= i < j < |cons| ensures cons[i] < cons[j] {
      if i > 0 {
        assert cons[i] == shifted[i - 1] && cons[j] == shifted[j - 1];
      }
    }
  }

  lemma {:induction false} FilterIsSubsequence<T>(s: seq<T>, keep: T -> bool)
    ensures IsSubsequence(Filter(s, keep), s)
  {
    if s == [] {
      assert IsEmbedding([], Filter(s, keep), s);
    } else {
      FilterIsSubsequence(s[1..], keep);
      var tail := Filter(s[1..], keep);
      var idx :| IsEmbedding(idx, tail, s[1..]);
      var shifted := ShiftEmbedding(idx, tail, s);
      assert Filter(s, keep) == (if keep(s[0]) then [s[0]] else []) + tail;
      if keep(s[0]) {
        assert Filter(s, keep) == [s[0]] + tail;
        assert IsEmbedding([0] + shifted, Filter(s, keep), s);
      } else {
        assert Filter(s, keep) == tail;
        assert IsEmbedding(shifted, Filter(s, keep), s);
      }
    }
  }

  /** Each accepted element keeps every one of its occurrences; every rejected
      element loses all of them. */
  lemma {:induction false} FilterMultiplicity<T>(s: seq<T>, keep: T -> bool, x: T)
    ensures multiset(Filter(s, keep))[x] == if keep(x) then multiset(s)[x] else 0
  {
    if s != [] {
      FilterMultiplicity(s[1..], keep, x);
      assert s == [s[0]] + s[1..];
      assert multiset(s) == multiset([s[0]]) + multiset(s[1..]);
    }
  }

  lemma {:induction false} FilterAppend<T>(a: seq<T>, b: seq<T>, keep: T -> bool)
    ensures Filter(a + b, keep) == Filter(a, keep) + Filter(b, keep)
  {
    if a == [] {
      assert a + b == b;
    } else {
      assert (a + b)[0] == a[0];
      assert (a + b)[1..] == a[1..] + b;
      FilterAppend(a[1..], b, keep);
    }
  }

  /** Filtering depends only on what `keep` says about the elements of `s`. */
  lemma {:induction false} FilterExtensional<T>(s: seq<T>, keep: T -> bool, keep': T -> bool)
    requires forall x :: x in s ==> keep(x) == keep'(x)
    ensures Filter(s, keep) == Filter(s, keep')
  {
    if s != [] {
      assert s[0] in s;
      forall x | x in s[1..] ensures keep(x) == keep'(x) {
        assert x in s;
      }
      FilterExtensional(s[1..], keep, keep');
    }
  }

  /** Two successive filters select what one filter by the conjunction selects. */
  lemma {:induction false} FilterFusion<T>(s: seq<T>, p: T -> bool, q: T -> bool, both: T -> bool)
    requires forall x :: x in s ==> both(x) == (p(x) && q(x))
    ensures Filter(Filter(s, p), q) == Filter(s, both)
  {
    if s != [] {
      assert s[0] in s;
      forall x | x in s[1..] ensures both(x) == (p(x) && q(x)) {
        assert x in s;
      }
      FilterFusion(s[1..], p, q, both);
      var head := if p(s[0]) then [s[0]] else [];
      FilterAppend(head, Filter(s[1..], p), q);
    }
  }
}
