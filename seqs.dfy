/** `Array.prototype.filter`, order-preserving subsequences and counting. */
module Seqs {
  import opened Wrappers

  /** `s.filter(p)`: the elements satisfying `p`, in their order. */
  function Select<T>(s: seq<T>, p: T -> bool): (r: seq<T>)
    ensures |r| <= |s|
    ensures forall i :: 0 <= i < |r| ==> r[i] in s && p(r[i])
    ensures forall i :: 0 <= i < |s| && p(s[i]) ==> s[i] in r
  {
    if s == [] then []
    else if p(s[0]) then [s[0]] + Select(s[1..], p)
    else Select(s[1..], p)
  }

  /** `a` is `b` with some elements deleted, the rest kept in their order. */
  ghost predicate IsSubsequence<T>(a: seq<T>, b: seq<T>) {
    if a == [] then true
    else if b == [] then false
    else if a[0] == b[0] then IsSubsequence(a[1..], b[1..])
    else IsSubsequence(a, b[1..])
  }

  lemma {:induction false} SubsequenceLength<T>(a: seq<T>, b: seq<T>)
    requires IsSubsequence(a, b)
    ensures |a| <= |b|
  {
    if a != [] {
      if a[0] == b[0] {
        SubsequenceLength(a[1..], b[1..]);
      } else {
        SubsequenceLength(a, b[1..]);
      }
    }
  }

  lemma {:induction false} SubsequenceOfSelf<T>(s: seq<T>)
    ensures IsSubsequence(s, s)
  {
    if s != [] {
      SubsequenceOfSelf(s[1..]);
    }
  }

  /** Dropping one more leading element of the longer sequence keeps a subsequence. */
  lemma {:induction false} SubsequenceOfTail<T>(a: seq<T>, x: T, b: seq<T>)
    requires IsSubsequence(a, b)
    ensures IsSubsequence(a, [x] + b)
    decreases |b|, 1
  {
    var xb := [x] + b;
    assert xb[1..] == b;
    if a != [] && a[0] == x {
      // the greedy match takes x; the rest of a is still inside b
      SubsequenceDropHead(a, b);
    }
  }

  lemma {:induction false} SubsequenceDropHead<T>(a: seq<T>, b: seq<T>)
    requires a != [] && IsSubsequence(a, b)
    ensures IsSubsequence(a[1..], b)
    decreases |b|, 0
  {
    if a[0] == b[0] {
      SubsequenceOfTail(a[1..], b[0], b[1..]);
      assert [b[0]] + b[1..] == b;
    } else {
      SubsequenceDropHead(a, b[1..]);
      SubsequenceOfTail(a[1..], b[0], b[1..]);
      assert [b[0]] + b[1..] == b;
    }
  }

  /** Filtering deletes elements and never reorders them. */
  lemma {:induction false} SelectIsSubsequence<T>(s: seq<T>, p: T -> bool)
    ensures IsSubsequence(Select(s, p), s)
  {
    if s != [] {
      SelectIsSubsequence(s[1..], p);
      if p(s[0]) {
        assert Select(s, p)[1..] == Select(s[1..], p);
      } else {
        SubsequenceOfTail(Select(s[1..], p), s[0], s[1..]);
        assert [s[0]] + s[1..] == s;
      }
    }
  }

  /** A filter every element passes keeps the whole sequence. */
  lemma {:induction false} SelectAll<T>(s: seq<T>, p: T -> bool)
    requires forall i :: 0 <= i < |s| ==> p(s[i])
    ensures Select(s, p) == s
  {
    if s != [] {
      SelectAll(s[1..], p);
    }
  }

  /** A stronger filter keeps a subsequence of what a weaker one keeps. */
  lemma {:induction false} SelectStronger<T>(s: seq<T>, p: T -> bool, q: T -> bool)
    requires forall i :: 0 <= i < |s| && p(s[i]) ==> q(s[i])
    ensures IsSubsequence(Select(s, p), Select(s, q))
    ensures |Select(s, p)| <= |Select(s, q)|
  {
    if s != [] {
      SelectStronger(s[1..], p, q);
      var rest := Select(s[1..], q);
      if p(s[0]) {
        assert Select(s, p)[1..] == Select(s[1..], p);
        assert Select(s, q) == [s[0]] + rest;
        assert Select(s, q)[1..] == rest;
      } else if q(s[0]) {
        SubsequenceOfTail(Select(s[1..], p), s[0], rest);
      }
    }
    if IsSubsequence(Select(s, p), Select(s, q)) {
      SubsequenceLength(Select(s, p), Select(s, q));
    }
  }

  /** Filtering twice with the same test is filtering once. */
  lemma {:induction false} SelectIdempotent<T>(s: seq<T>, p: T -> bool)
    ensures Select(Select(s, p), p) == Select(s, p)
  {
    SelectAll(Select(s, p), p);
  }

  /** Filtering a concatenation filters each part. */
  lemma {:induction false} SelectAppend<T>(a: seq<T>, b: seq<T>, p: T -> bool)
    ensures Select(a + b, p) == Select(a, p) + Select(b, p)
  {
    if a != [] {
      var ab := a + b;
      assert ab[0] == a[0] && ab[1..] == a[1..] + b;
      SelectAppend(a[1..], b, p);
      var ta, tb := Select(a[1..], p), Select(b, p);
      if p(a[0]) {
        assert Select(ab, p) == [a[0]] + (ta + tb);
        assert [a[0]] + (ta + tb) == ([a[0]] + ta) + tb;
      } else {
        assert Select(ab, p) == ta + tb;
      }
    } else {
      assert a + b == b;
    }
  }

  /** Filtering by a conjunction is filtering by one test and then by the other. */
  lemma {:induction false} SelectConjunction<T>(s: seq<T>, p: T -> bool, q: T -> bool, pq: T -> bool)
    requires forall i :: 0 <= i < |s| ==> (pq(s[i]) <==> p(s[i]) && q(s[i]))
    ensures Select(s, pq) == Select(Select(s, p), q)
  {
    if s != [] {
      SelectConjunction(s[1..], p, q, pq);
      if p(s[0]) {
        assert Select(s, p) == [s[0]] + Select(s[1..], p);
        assert Select(s, p)[1..] == Select(s[1..], p);
      }
    }
  }

  /** A filter no element passes keeps nothing. */
  lemma {:induction false} SelectNone<T>(s: seq<T>, p: T -> bool)
    requires forall i :: 0 <= i < |s| ==> !p(s[i])
    ensures Select(s, p) == []
  {
    if s != [] {
      SelectNone(s[1..], p);
    }
  }

  /** Each element either passes a test or fails it: the two counts add up. */
  lemma {:induction false} SelectSplitsCount<T>(s: seq<T>, p: T -> bool, q: T -> bool)
    requires forall i :: 0 <= i < |s| ==> (q(s[i]) <==> !p(s[i]))
    ensures |Select(s, p)| + |Select(s, q)| == |s|
  {
    if s != [] {
      SelectSplitsCount(s[1..], p, q);
    }
  }

  /**
   * `s.map(f)` where `f` throws on the elements `bad` holds of: the index of
   * the first such element, or the image of every element in order.
   */
  function MapUnless<A, B>(s: seq<A>, bad: A -> bool, f: A --> B): (out: Result<seq<B>, nat>)
    requires forall i :: 0 <= i < |s| && !bad(s[i]) ==> f.requires(s[i])
    ensures out.Ok? <==> forall i :: 0 <= i < |s| ==> !bad(s[i])
    ensures out.Ok? ==> |out.value| == |s| && forall i :: 0 <= i < |s| ==> out.value[i] == f(s[i])
    ensures out.Err? ==> out.error < |s| && bad(s[out.error])
    ensures out.Err? ==> forall i :: 0 <= i < out.error ==> !bad(s[i])
  {
    if s == [] then Ok([])
    else if bad(s[0]) then Err(0)
    else
      match MapUnless(s[1..], bad, f)
      case Ok(rest) => Ok([f(s[0])] + rest)
      case Err(k) => Err(k + 1)
  }
}
