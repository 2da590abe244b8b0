/** Sequence helpers shared by the selection and recipient logic: a stable
    filter with the index sequence that witnesses it, and substring search. */
module Seqs {

  /** Stable filter: the elements of `xs` satisfying `p`, in their input order. */
  function Filter<T>(p: T -> bool, xs: seq<T>): (ys: seq<T>)
    ensures |ys| <= |xs|
    ensures forall k :: 0 <= k < |ys| ==> ys[k] in xs && p(ys[k])
    ensures forall i :: 0 <= i < |xs| && p(xs[i]) ==> xs[i] in ys
    decreases |xs|
  {
    if |xs| == 0 then []
    else
      var n := |xs| - 1;
      assert xs == xs[..n] + [xs[n]];
      Filter(p, xs[..n]) + (if p(xs[n]) then [xs[n]] else [])
  }

  lemma FilterSnoc<T>(p: T -> bool, xs: seq<T>, x: T)
    ensures Filter(p, xs + [x]) == Filter(p, xs) + (if p(x) then [x] else [])
  {
    assert (xs + [x])[..|xs|] == xs;
  }

  /** The positions of `xs` whose element satisfies `p`, ascending. */
  ghost function Kept<T>(p: T -> bool, xs: seq<T>): (idx: seq<int>)
    ensures |idx| <= |xs|
    ensures forall k :: 0 <= k < |idx| ==> 0 <= idx[k] < |xs| && p(xs[idx[k]])
    ensures forall k, l :: 0 <= k < l < |idx| ==> idx[k] < idx[l]
    ensures forall i :: 0 <= i < |xs| && p(xs[i]) ==> i in idx
    decreases |xs|
  {
    if |xs| == 0 then []
    else
      var n := |xs| - 1;
      var prev := Kept(p, xs[..n]);
      assert forall k :: 0 <= k < |prev| ==> xs[..n][prev[k]] == xs[prev[k]];
      assert forall i :: 0 <= i < n ==> xs[..n][i] == xs[i];
      prev + (if p(xs[n]) then [n] else [])
  }

  /** One step of `FilterAtKept`, over plain sequences: appending an element
      (kept or not) preserves the element-at-position correspondence. */
  lemma AtSnoc<T>(xs: seq<T>, x: T, keep: bool, ys0: seq<T>, idx0: seq<int>)
    requires |ys0| == |idx0|
    requires forall k :: 0 <= k < |idx0| ==> 0 <= idx0[k] < |xs| && ys0[k] == xs[idx0[k]]
    ensures var ys := ys0 + (if keep then [x] else []);
      var idx := idx0 + (if keep then [|xs|] else []);
      |ys| == |idx| && forall k :: 0 <= k < |idx| ==> 0 <= idx[k] <= |xs| && ys[k] == (xs + [x])[idx[k]]
  {
  }

  /** Filter keeps exactly the elements at the kept positions, in order. */
  lemma {:induction false} FilterAtKept<T>(p: T -> bool, xs: seq<T>)
    ensures |Filter(p, xs)| == |Kept(p, xs)|
    ensures forall k :: 0 <= k < |Kept(p, xs)| ==> Filter(p, xs)[k] == xs[Kept(p, xs)[k]]
    decreases |xs|
  {
    if |xs| > 0 {
      var n := |xs| - 1;
      var init := xs[..n];
      assert xs == init + [xs[n]];
      FilterAtKept(p, init);
      AtSnoc(init, xs[n], p(xs[n]), Filter(p, init), Kept(p, init));
    }
  }

  /** Two predicates that agree on every element keep the same elements at
      the same positions. */
  lemma {:induction false} FilterKeptExt<T>(p: T -> bool, q: T -> bool, xs: seq<T>)
    requires forall i :: 0 <= i < |xs| ==> p(xs[i]) == q(xs[i])
    ensures Filter(p, xs) == Filter(q, xs)
    ensures Kept(p, xs) == Kept(q, xs)
    decreases |xs|
  {
    if |xs| > 0 {
      var n := |xs| - 1;
      assert forall i :: 0 <= i < n ==> xs[..n][i] == xs[i];
      FilterKeptExt(p, q, xs[..n]);
    }
  }

  /** `t` occurs in `s` starting at position `i`. */
  ghost predicate OccursAt(s: string, t: string, i: int) {
    0 <= i && i + |t| <= |s| && s[i..i + |t|] == t
  }

  /** Substring test, the meaning of Python's `t in s` on strings. */
  function Contains(s: string, t: string): (b: bool)
    ensures b <==> exists i :: OccursAt(s, t, i)
    decreases |s|
  {
    if |s| < |t| then false
    else if s[..|t|] == t then
      assert OccursAt(s, t, 0);
      true
    else
      var rest := Contains(s[1..], t);
      assert forall i :: OccursAt(s[1..], t, i) ==> OccursAt(s, t, i + 1) by {
        forall i | OccursAt(s[1..], t, i) ensures OccursAt(s, t, i + 1) {
          assert s[1..][i..i + |t|] == s[i + 1..i + 1 + |t|];
        }
      }
      assert forall i :: OccursAt(s, t, i) ==> i == 0 || OccursAt(s[1..], t, i - 1) by {
        forall i | OccursAt(s, t, i) && i != 0 ensures OccursAt(s[1..], t, i - 1) {
          assert s[1..][i - 1..i - 1 + |t|] == s[i..i + |t|];
        }
      }
      rest
  }
}
