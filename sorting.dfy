/** `image_files.sort(key=lambda x: x[6])` (Photo_import.py:77): the records
    are put in ascending order of their original shot number, compared as
    strings. */
module Sorting {
  import opened Text
  import opened Photos

  /** `x` may come before `y`: the token of `y` is not smaller. */
  predicate InOrder(x: PhotoRecord, y: PhotoRecord)
  {
    !Less(y.token, x.token)
  }

  predicate SortedByToken(s: seq<PhotoRecord>)
  {
    forall p, q | 0 <= p < q < |s| :: InOrder(s[p], s[q])
  }

  // ---------------------------------------------------------------------------
  // The order `list.sort` produces

  /** Puts `x` into `s` just after the last record whose token is not larger
      than its own: it moves left past the records with a larger token only,
      so records with equal tokens keep their order. */
  function Insert(s: seq<PhotoRecord>, x: PhotoRecord): (r: seq<PhotoRecord>)
    ensures |r| == |s| + 1
  {
    if |s| == 0 || !Less(x.token, s[|s| - 1].token) then s + [x]
    else Insert(s[..|s| - 1], x) + [s[|s| - 1]]
  }

  /** The records in ascending order of token, equal tokens in their original
      order: the result of Python's stable `list.sort` with that key. */
  function InsertionSort(s: seq<PhotoRecord>): (r: seq<PhotoRecord>)
    ensures |r| == |s|
  {
    if |s| == 0 then [] else Insert(InsertionSort(s[..|s| - 1]), s[|s| - 1])
  }

  /** The records of `s` whose token is `k`, in order. */
  function WithToken(s: seq<PhotoRecord>, k: string): (r: seq<PhotoRecord>)
    ensures forall p | 0 <= p < |r| :: r[p].token == k
  {
    if |s| == 0 then []
    else WithToken(s[..|s| - 1], k) + (if s[|s| - 1].token == k then [s[|s| - 1]] else [])
  }

  lemma {:induction false} WithTokenConcat(a: seq<PhotoRecord>, b: seq<PhotoRecord>, k: string)
    ensures WithToken(a + b, k) == WithToken(a, k) + WithToken(b, k)
  {
    if |b| > 0 {
      var n := |b| - 1;
      assert (a + b)[..|a + b| - 1] == a + b[..n];
      WithTokenConcat(a, b[..n], k);
    } else {
      assert a + b == a;
    }
  }

  lemma {:induction false} InsertMultiset(s: seq<PhotoRecord>, x: PhotoRecord)
    ensures multiset(Insert(s, x)) == multiset(s) + multiset{x}
  {
    if |s| > 0 && Less(x.token, s[|s| - 1].token) {
      var n := |s| - 1;
      InsertMultiset(s[..n], x);
      assert s == s[..n] + [s[n]];
    }
  }

  /** Records with one token are in the same order after inserting `x`. */
  lemma {:induction false} InsertWithToken(s: seq<PhotoRecord>, x: PhotoRecord, k: string)
    ensures WithToken(Insert(s, x), k) == WithToken(s, k) + WithToken([x], k)
  {
    if |s| == 0 || !Less(x.token, s[|s| - 1].token) {
      WithTokenConcat(s, [x], k);
    } else {
      var n := |s| - 1;
      var p := s[..n];
      var last := s[n];
      var t := Insert(p, x);
      assert Insert(s, x) == t + [last];
      assert s == p + [last];
      InsertWithToken(p, x, k);
      WithTokenConcat(t, [last], k);
      WithTokenConcat(p, [last], k);
      assert WithToken([x], k) == [] || WithToken([last], k) == [] by {
        WithTokenSingle(x, k);
        WithTokenSingle(last, k);
        if x.token == k {
          assert last.token != k by { LessIrreflexive(k); }
        }
      }
      SwapPieces(WithToken(p, k), WithToken([x], k), WithToken([last], k));
    }
  }

  lemma SwapPieces<T>(w: seq<T>, a: seq<T>, b: seq<T>)
    requires a == [] || b == []
    ensures w + a + b == w + b + a
  {
  }

  lemma WithTokenSingle(y: PhotoRecord, k: string)
    ensures WithToken([y], k) == if y.token == k then [y] else []
  {
    assert [y][..0] == [];
  }

  /** Appending a record that may come after every record of a sorted
      sequence keeps it sorted. */
  lemma SortedAppend(t: seq<PhotoRecord>, y: PhotoRecord)
    requires SortedByToken(t)
    requires forall p | 0 <= p < |t| :: InOrder(t[p], y)
    ensures SortedByToken(t + [y])
  {
  }

  lemma {:induction false} InsertSorted(s: seq<PhotoRecord>, x: PhotoRecord)
    requires SortedByToken(s)
    ensures SortedByToken(Insert(s, x))
  {
    if |s| == 0 {
    } else if !Less(x.token, s[|s| - 1].token) {
      var last := s[|s| - 1];
      forall p | 0 <= p < |s|
        ensures InOrder(s[p], x)
      {
        if p < |s| - 1 {
          NotLessTransitive(s[p].token, last.token, x.token);
        }
      }
      SortedAppend(s, x);
    } else {
      var n := |s| - 1;
      var last := s[n];
      var t := Insert(s[..n], x);
      InsertSorted(s[..n], x);
      InsertMultiset(s[..n], x);
      forall p | 0 <= p < |t|
        ensures InOrder(t[p], last)
      {
        assert t[p] in multiset(s[..n]) + multiset{x};
        if t[p] == x {
          LessAsymmetric(x.token, last.token);
        } else {
          assert t[p] in s[..n];
        }
      }
      SortedAppend(t, last);
    }
  }

  /** The sort puts the records in ascending order of token. */
  lemma {:induction false} InsertionSortSorted(s: seq<PhotoRecord>)
    ensures SortedByToken(InsertionSort(s))
  {
    if |s| > 0 {
      InsertionSortSorted(s[..|s| - 1]);
      InsertSorted(InsertionSort(s[..|s| - 1]), s[|s| - 1]);
    }
  }

  /** The sort loses and adds no record. */
  lemma {:induction false} InsertionSortMultiset(s: seq<PhotoRecord>)
    ensures multiset(InsertionSort(s)) == multiset(s)
  {
    if |s| > 0 {
      var n := |s| - 1;
      InsertionSortMultiset(s[..n]);
      InsertMultiset(InsertionSort(s[..n]), s[n]);
      assert s == s[..n] + [s[n]];
    }
  }

  /** The sort is stable: the records with any one token come out in the
      order they went in. */
  lemma {:induction false} InsertionSortStable(s: seq<PhotoRecord>, k: string)
    ensures WithToken(InsertionSort(s), k) == WithToken(s, k)
  {
    if |s| > 0 {
      var n := |s| - 1;
      InsertionSortStable(s[..n], k);
      InsertWithToken(InsertionSort(s[..n]), s[n], k);
      WithTokenSingle(s[n], k);
    }
  }

  /** A record that may come after the records from `j` on sits right
      before them. */
  lemma {:induction false} InsertAt(s: seq<PhotoRecord>, x: PhotoRecord, j: nat)
    requires j <= |s|
    requires j == 0 || !Less(x.token, s[j - 1].token)
    requires forall q | j <= q < |s| :: Less(x.token, s[q].token)
    ensures Insert(s, x) == s[..j] + [x] + s[j..]
    decreases |s|
  {
    if j < |s| {
      var n := |s| - 1;
      var p := s[..n];
      assert Insert(s, x) == Insert(p, x) + [s[n]];
      assert forall q | j <= q < n :: p[q] == s[q];
      assert j == 0 || p[j - 1] == s[j - 1];
      InsertAt(p, x, j);
      assert p[..j] == s[..j];
      assert s[j..] == p[j..] + [s[n]];
    } else {
      assert s[..j] == s;
    }
  }

  // ---------------------------------------------------------------------------
  // The sort on an array

  /** An insertion sort: each record is moved left past every record whose
      token is larger than its own. */
  method SortByToken(a: array<PhotoRecord>)
    modifies a
    ensures a[..] == InsertionSort(old(a[..]))
    ensures SortedByToken(a[..])
    ensures multiset(a[..]) == old(multiset(a[..]))
  {
    ghost var s := a[..];
    var i := 0;
    while i < a.Length
      invariant 0 <= i <= a.Length
      invariant a[..] == InsertionSort(s[..i]) + s[i..]
    {
      SortStep(s, i, a[..]);
      InsertLast(a, i);
      i := i + 1;
    }
    assert s[..a.Length] == s && s[a.Length..] == [];
    InsertionSortSorted(s);
    InsertionSortMultiset(s);
  }

  /** One turn of the outer loop: the front is sorted, and inserting the
      next record sorts one more. */
  lemma SortStep(s: seq<PhotoRecord>, i: nat, t: seq<PhotoRecord>)
    requires i < |s| && t == InsertionSort(s[..i]) + s[i..]
    ensures |t| == |s| && SortedByToken(t[..i])
    ensures Insert(t[..i], t[i]) + t[i + 1..] == InsertionSort(s[..i + 1]) + s[i + 1..]
  {
    assert t[..i] == InsertionSort(s[..i]) && t[i] == s[i] && t[i + 1..] == s[i + 1..];
    assert s[..i + 1][..i] == s[..i];
    InsertionSortSorted(s[..i]);
  }

  /** Moves `a[i]` left into the sorted prefix `a[..i]`. */
  method InsertLast(a: array<PhotoRecord>, i: nat)
    requires i < a.Length && SortedByToken(a[..i])
    modifies a
    ensures a[..] == Insert(old(a[..i]), old(a[i])) + old(a[i + 1..])
    ensures SortedByToken(a[..i + 1])
  {
    ghost var s := a[..i];
    ghost var x := a[i];
    ghost var rest := a[i + 1..];
    assert a[..] == Shifted(s, x, i, rest);
    var j := i;
    while j > 0 && Less(a[j].token, a[j - 1].token)
      invariant 0 <= j <= i
      invariant a[..] == Shifted(s, x, j, rest)
      invariant forall q | j <= q < i :: Less(x.token, s[q].token)
    {
      ghost var t := a[..];
      ShiftStep(s, x, j, rest);
      a[j - 1], a[j] := a[j], a[j - 1];
      assert a[..] == t[j - 1 := t[j]][j := t[j - 1]];
      j := j - 1;
    }
    ShiftAt(s, x, j, rest);
    InsertAt(s, x, j);
    InsertSorted(s, x);
  }

  /** The array while `x` moves left: the sorted front with `x` at `j`. */
  ghost function Shifted(s: seq<PhotoRecord>, x: PhotoRecord, j: nat, rest: seq<PhotoRecord>): seq<PhotoRecord>
    requires j <= |s|
  {
    s[..j] + [x] + s[j..] + rest
  }

  lemma ShiftStep(s: seq<PhotoRecord>, x: PhotoRecord, j: nat, rest: seq<PhotoRecord>)
    requires 0 < j <= |s|
    ensures var t := Shifted(s, x, j, rest);
            && |t| == |s| + 1 + |rest| && t[j] == x && t[j - 1] == s[j - 1]
            && t[j - 1 := t[j]][j := t[j - 1]] == Shifted(s, x, j - 1, rest)
  {
    var t := Shifted(s, x, j, rest);
    var u := Shifted(s, x, j - 1, rest);
    assert |u| == |t|;
    forall p | 0 <= p < |t|
      ensures t[j - 1 := t[j]][j := t[j - 1]][p] == u[p]
    {
      if p < j - 1 {} else if p == j - 1 {} else if p == j {} else if p <= |s| {} else {}
    }
  }

  lemma ShiftAt(s: seq<PhotoRecord>, x: PhotoRecord, j: nat, rest: seq<PhotoRecord>)
    requires j <= |s|
    ensures var t := Shifted(s, x, j, rest);
            && |t| == |s| + 1 + |rest| && t[j] == x && (j == 0 || t[j - 1] == s[j - 1])
            && t[..|s| + 1] == s[..j] + [x] + s[j..] && t[|s| + 1..] == rest
  {
  }
}
