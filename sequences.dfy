/** Searches, counts and trims over sequences. The program's double-ended
    queues are sequences here: the front is index 0, the back the last index. */
module Sequences {
  import opened Wrappers

  /** The index of the first element that satisfies `p`, as a forward scan
      that stops at the first match finds it. */
  function FirstIndex<T>(s: seq<T>, p: T -> bool): (r: Option<nat>)
    ensures r.Some? ==> r.value < |s| && p(s[r.value]) && forall k :: 0 <= k < r.value ==> !p(s[k])
    ensures r.None? ==> forall k :: 0 <= k < |s| ==> !p(s[k])
    decreases |s|
  {
    if |s| == 0 then None
    else if p(s[0]) then Some(0)
    else match FirstIndex(s[1..], p)
      case None => None
      case Some(k) => Some(k + 1)
  }

  /** The first match is where the scan stops: a match with none before it. */
  lemma FirstIndexAt<T>(s: seq<T>, p: T -> bool, i: nat)
    requires i < |s| && p(s[i])
    requires forall k :: 0 <= k < i ==> !p(s[k])
    ensures FirstIndex(s, p) == Some(i)
  {
  }

  /** The number of elements that satisfy `p`. */
  function Count<T>(s: seq<T>, p: T -> bool): (n: nat)
    ensures n <= |s|
    decreases |s|
  {
    if |s| == 0 then 0 else Count(s[..|s| - 1], p) + (if p(s[|s| - 1]) then 1 else 0)
  }

  /** Replacing one element changes the count only by that element's part. */
  lemma {:induction false} CountUpdate<T>(s: seq<T>, p: T -> bool, i: nat, x: T)
    requires i < |s|
    ensures Count(s[i := x], p) == Count(s, p) - (if p(s[i]) then 1 else 0) + (if p(x) then 1 else 0)
    decreases |s|
  {
    var t := s[i := x];
    var n := |s| - 1;
    if i < n {
      assert t[..n] == s[..n][i := x];
      CountUpdate(s[..n], p, i, x);
    } else {
      assert t[..n] == s[..n];
    }
  }

  /** Two sequences that agree on `p` element by element have the same count. */
  lemma {:induction false} CountPointwise<T>(s: seq<T>, t: seq<T>, p: T -> bool)
    requires |s| == |t|
    requires forall k :: 0 <= k < |s| ==> p(s[k]) == p(t[k])
    ensures Count(s, p) == Count(t, p)
    decreases |s|
  {
    if |s| > 0 {
      var n := |s| - 1;
      CountPointwise(s[..n], t[..n], p);
    }
  }

  /** What remains after popping elements from the back until the back
      element is one to keep (or nothing is left). */
  function TrimBack<T>(s: seq<T>, keep: T -> bool): (r: seq<T>)
    ensures |r| <= |s| && r == s[..|r|]
    ensures |r| > 0 ==> keep(r[|r| - 1])
    ensures forall k :: |r| <= k < |s| ==> !keep(s[k])
    decreases |s|
  {
    if |s| == 0 || keep(s[|s| - 1]) then s else TrimBack(s[..|s| - 1], keep)
  }

  /** Trimming a prefix of what a trim keeps gives the same result: the trim
      is idempotent, and may be resumed after any number of pops. */
  lemma {:induction false} TrimBackOfPopped<T>(s: seq<T>, keep: T -> bool)
    requires |s| > 0 && !keep(s[|s| - 1])
    ensures TrimBack(s[..|s| - 1], keep) == TrimBack(s, keep)
  {
  }

  lemma TrimBackIdempotent<T>(s: seq<T>, keep: T -> bool)
    ensures TrimBack(TrimBack(s, keep), keep) == TrimBack(s, keep)
  {
  }
}
