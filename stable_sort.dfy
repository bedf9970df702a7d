/**
 * `Array.prototype.sort(compare)`: a stable sort driven by the sign of a
 * comparator. For a comparator that orders consistently the result is
 * unique, the sorted permutation that keeps equal elements in their input
 * order; it is computed here by insertion.
 */
module StableSort {
  import opened Seqs

  /**
   * A comparator whose sign is a total preorder: swapping the operands
   * flips the sign, and "not after" is transitive.
   */
  ghost predicate Consistent<T(!new)>(cmp: (T, T) -> int) {
    && (forall a, b :: cmp(a, b) < 0 <==> cmp(b, a) > 0)
    && (forall a, b, c :: cmp(a, b) <= 0 && cmp(b, c) <= 0 ==> cmp(a, c) <= 0)
  }

  /** No element is placed after one that should follow it. */
  ghost predicate Sorted<T>(s: seq<T>, cmp: (T, T) -> int) {
    forall i, j :: 0 <= i < j < |s| ==> cmp(s[i], s[j]) <= 0
  }

  /** The elements the comparator ties with `z`. */
  function TiedWith<T>(cmp: (T, T) -> int, z: T): T -> bool {
    y => cmp(y, z) == 0
  }

  /** `x` inserted into `s` after every element that does not follow it. */
  function InsertBy<T>(x: T, s: seq<T>, cmp: (T, T) -> int): (r: seq<T>)
    ensures multiset(r) == multiset(s) + multiset{x}
    ensures |r| == |s| + 1
    ensures forall k :: 0 <= k < |r| ==> r[k] == x || r[k] in s
  {
    if s == [] then [x]
    else if cmp(s[0], x) > 0 then [x] + s
    else
      assert s == [s[0]] + s[1..];
      [s[0]] + InsertBy(x, s[1..], cmp)
  }

  /** The sorted order of `s`: each element in turn inserted into the sorted prefix. */
  function SortBy<T>(s: seq<T>, cmp: (T, T) -> int): (r: seq<T>)
    ensures multiset(r) == multiset(s)
    ensures |r| == |s|
  {
    if s == [] then []
    else
      assert s == s[..|s| - 1] + [s[|s| - 1]];
      InsertBy(s[|s| - 1], SortBy(s[..|s| - 1], cmp), cmp)
  }

  /** An element that precedes every element of a sorted sequence can go in front of it. */
  lemma SortedCons<T>(x: T, s: seq<T>, cmp: (T, T) -> int)
    requires Sorted(s, cmp)
    requires forall k :: 0 <= k < |s| ==> cmp(x, s[k]) <= 0
    ensures Sorted([x] + s, cmp)
  {
    var r := [x] + s;
    forall i, j | 0 <= i < j < |r| ensures cmp(r[i], r[j]) <= 0 {
      assert r[j] == s[j - 1];
      if i > 0 {
        assert r[i] == s[i - 1];
      }
    }
  }

  lemma {:induction false} InsertBySorted<T(!new)>(x: T, s: seq<T>, cmp: (T, T) -> int)
    requires Consistent(cmp) && Sorted(s, cmp)
    ensures Sorted(InsertBy(x, s, cmp), cmp)
  {
    if s != [] {
      if cmp(s[0], x) > 0 {
        forall k | 0 <= k < |s| ensures cmp(x, s[k]) <= 0 {
          assert cmp(x, s[0]) < 0;
          if k > 0 {
            assert cmp(s[0], s[k]) <= 0;
          }
        }
        SortedCons(x, s, cmp);
      } else {
        var rest := InsertBy(x, s[1..], cmp);
        assert Sorted(s[1..], cmp) by {
          forall i, j | 0 <= i < j < |s[1..]| ensures cmp(s[1..][i], s[1..][j]) <= 0 {
            assert s[1..][i] == s[i + 1] && s[1..][j] == s[j + 1];
          }
        }
        InsertBySorted(x, s[1..], cmp);
        forall k | 0 <= k < |rest| ensures cmp(s[0], rest[k]) <= 0 {
          if rest[k] != x {
            var j :| 0 <= j < |s[1..]| && s[1..][j] == rest[k];
            assert s[j + 1] == rest[k];
          }
        }
        SortedCons(s[0], rest, cmp);
      }
    }
  }

  /** The result of the sort is ordered by the comparator. */
  lemma {:induction false} SortBySorted<T(!new)>(s: seq<T>, cmp: (T, T) -> int)
    requires Consistent(cmp)
    ensures Sorted(SortBy(s, cmp), cmp)
  {
    if s != [] {
      SortBySorted(s[..|s| - 1], cmp);
      InsertBySorted(s[|s| - 1], SortBy(s[..|s| - 1], cmp), cmp);
    }
  }

  /** Ties are an equivalence: two elements tied with a third are tied with each other. */
  lemma TiesTransitive<T(!new)>(cmp: (T, T) -> int, x: T, y: T, z: T)
    requires Consistent(cmp)
    requires cmp(x, z) == 0 && cmp(y, z) == 0
    ensures cmp(x, y) == 0
  {
    assert cmp(z, y) == 0 && cmp(z, x) == 0;
  }

  /** An element that precedes the whole of a sorted sequence ties with none of it. */
  lemma NoTiesAfter<T(!new)>(x: T, s: seq<T>, cmp: (T, T) -> int, z: T)
    requires Consistent(cmp) && Sorted(s, cmp)
    requires s != [] && cmp(s[0], x) > 0 && cmp(x, z) == 0
    ensures Select(s, TiedWith(cmp, z)) == []
  {
    var p := TiedWith(cmp, z);
    forall j | 0 <= j < |s| ensures cmp(s[j], x) > 0 {
      assert cmp(s[0], s[j]) <= 0;
    }
    forall j | 0 <= j < |s| ensures !p(s[j]) {
      assert cmp(z, x) == 0;
    }
    SelectNone(s, p);
  }

  lemma SortedTail<T>(s: seq<T>, cmp: (T, T) -> int)
    requires Sorted(s, cmp) && s != []
    ensures Sorted(s[1..], cmp)
  {
    forall i, j | 0 <= i < j < |s| - 1 ensures cmp(s[1..][i], s[1..][j]) <= 0 {
      assert cmp(s[i + 1], s[j + 1]) <= 0;
    }
  }

  lemma SelectBehindHead<T>(head: T, a: seq<T>, b: seq<T>, p: T -> bool)
    requires Select(a, p) == Select(b, p)
    ensures Select([head] + a, p) == Select([head] + b, p)
  {
    SelectAppend([head], a, p);
    SelectAppend([head], b, p);
  }

  lemma InsertAtFrontStable<T(!new)>(x: T, s: seq<T>, cmp: (T, T) -> int, z: T)
    requires Consistent(cmp) && Sorted(s, cmp)
    requires s != [] && cmp(s[0], x) > 0
    ensures Select([x] + s, TiedWith(cmp, z)) == Select(s + [x], TiedWith(cmp, z))
  {
    var p := TiedWith(cmp, z);
    SelectAppend([x], s, p);
    SelectAppend(s, [x], p);
    if p(x) {
      NoTiesAfter(x, s, cmp, z);
    }
  }

  /** Inserting places `x` after every element already tied with it. */
  lemma {:induction false} InsertByStable<T(!new)>(x: T, s: seq<T>, cmp: (T, T) -> int, z: T)
    requires Consistent(cmp) && Sorted(s, cmp)
    ensures Select(InsertBy(x, s, cmp), TiedWith(cmp, z)) == Select(s + [x], TiedWith(cmp, z))
  {
    var p := TiedWith(cmp, z);
    SelectAppend(s, [x], p);
    if s == [] {
      assert s + [x] == [x];
    } else if cmp(s[0], x) > 0 {
      InsertAtFrontStable(x, s, cmp, z);
    } else {
      SortedTail(s, cmp);
      InsertByStable(x, s[1..], cmp, z);
      SelectBehindHead(s[0], InsertBy(x, s[1..], cmp), s[1..] + [x], p);
      assert s + [x] == [s[0]] + (s[1..] + [x]);
    }
  }

  /** Stability: the elements tied with any `z` keep their input order. */
  lemma {:induction false} SortByStable<T(!new)>(s: seq<T>, cmp: (T, T) -> int, z: T)
    requires Consistent(cmp)
    ensures Select(SortBy(s, cmp), TiedWith(cmp, z)) == Select(s, TiedWith(cmp, z))
  {
    if s != [] {
      var init, last := s[..|s| - 1], s[|s| - 1];
      var p := TiedWith(cmp, z);
      assert s == init + [last];
      assert SortBy(s, cmp) == InsertBy(last, SortBy(init, cmp), cmp);
      SortByStable(init, cmp, z);
      SortBySorted(init, cmp);
      InsertByStable(last, SortBy(init, cmp), cmp, z);
      SelectAppend(SortBy(init, cmp), [last], p);
      SelectAppend(init, [last], p);
    }
  }

  /** The negated comparator, as `compare(a, b) * -1`, is consistent too. */
  lemma ReversedConsistent<T(!new)>(cmp: (T, T) -> int, rev: (T, T) -> int)
    requires Consistent(cmp)
    requires forall a, b :: rev(a, b) == -cmp(a, b)
    ensures Consistent(rev)
  {
    forall a, b, c | rev(a, b) <= 0 && rev(b, c) <= 0 ensures rev(a, c) <= 0 {
      assert cmp(b, a) <= 0 && cmp(c, b) <= 0;
      assert cmp(c, a) <= 0;
    }
  }
}
