/** `Array.prototype.filter`, duplicate removal through a `Set`, and the
    order-keeping facts about them the rest of the model uses. */
module Seqs {

  /** The elements of `s` that `keep` accepts, in their original order. */
  function Filter<T>(s: seq<T>, keep: T -> bool): (r: seq<T>)
    ensures |r| <= |s|
    ensures forall i | 0 <= i < |r| :: keep(r[i])
  {
    if |s| == 0 then []
    else Filter(s[..|s| - 1], keep) + (if keep(s[|s| - 1]) then [s[|s| - 1]] else [])
  }

  /** An element survives exactly when it was there and is accepted. */
  lemma {:induction false} FilterMembership<T>(s: seq<T>, keep: T -> bool, x: T)
    ensures x in Filter(s, keep) <==> x in s && keep(x)
  {
    if |s| > 0 {
      FilterMembership(s[..|s| - 1], keep, x);
      assert s == s[..|s| - 1] + [s[|s| - 1]];
    }
  }

  /** Filtering a concatenation filters each part. */
  lemma {:induction false} FilterAppend<T>(a: seq<T>, b: seq<T>, keep: T -> bool)
    ensures Filter(a + b, keep) == Filter(a, keep) + Filter(b, keep)
  {
    if |b| == 0 {
      assert a + b == a;
    } else {
      var b' := b[..|b| - 1];
      assert (a + b)[..|a + b| - 1] == a + b';
      assert (a + b)[|a + b| - 1] == b[|b| - 1];
      FilterAppend(a, b', keep);
    }
  }

  lemma FilterOne<T>(x: T, keep: T -> bool)
    ensures Filter([x], keep) == if keep(x) then [x] else []
  {
    assert [x][..0] == [];
  }

  /** Nothing is dropped when everything is accepted. */
  lemma {:induction false} FilterKeepsAll<T>(s: seq<T>, keep: T -> bool)
    requires forall i | 0 <= i < |s| :: keep(s[i])
    ensures Filter(s, keep) == s
  {
    if |s| > 0 {
      FilterKeepsAll(s[..|s| - 1], keep);
    }
  }

  /** Everything is dropped when nothing is accepted. */
  lemma {:induction false} FilterDropsAll<T>(s: seq<T>, keep: T -> bool)
    requires forall i | 0 <= i < |s| :: !keep(s[i])
    ensures Filter(s, keep) == []
  {
    if |s| > 0 {
      FilterDropsAll(s[..|s| - 1], keep);
    }
  }

  // ---------------------------------------------------------------------
  // Duplicates
  // ---------------------------------------------------------------------

  predicate NoDuplicates<T(==)>(s: seq<T>) {
    forall i, j | 0 <= i < j < |s| :: s[i] != s[j]
  }

  /** `Array.from(new Set(s))`: the first occurrence of each element, in
      order. */
  function Dedupe<T(==,!new)>(s: seq<T>): (r: seq<T>)
    ensures NoDuplicates(r)
    ensures forall x :: x in r <==> x in s
  {
    if |s| == 0 then []
    else
      var d := Dedupe(s[..|s| - 1]);
      var x := s[|s| - 1];
      assert forall y :: y in s <==> y in s[..|s| - 1] || y == x by {
        assert s == s[..|s| - 1] + [x];
      }
      if x in d then d else d + [x]
  }

  /** The position of the first occurrence of `x` in `s`. */
  function FirstIndex<T(==)>(s: seq<T>, x: T): (k: nat)
    requires x in s
    ensures k < |s| && s[k] == x
    ensures forall j | 0 <= j < k :: s[j] != x
  {
    if s[0] == x then 0 else 1 + FirstIndex(s[1..], x)
  }

  /** Appending leaves the first occurrence of an element already present
      where it was. */
  lemma FirstIndexSnoc<T>(s: seq<T>, y: T, x: T)
    requires x in s
    ensures x in s + [y] && FirstIndex(s + [y], x) == FirstIndex(s, x)
  {
    var a := FirstIndex(s + [y], x);
    var b := FirstIndex(s, x);
    assert (s + [y])[b] == x;
  }

  /** `new Set` keeps first occurrences: the elements of the result appear
      in the order of their first occurrences in the input. */
  lemma {:induction false} DedupeFirstOrder<T(!new)>(s: seq<T>)
    ensures forall i, j | 0 <= i < j < |Dedupe(s)| ::
              FirstIndex(s, Dedupe(s)[i]) < FirstIndex(s, Dedupe(s)[j])
  {
    if |s| > 0 {
      var front := s[..|s| - 1];
      var x := s[|s| - 1];
      var d := Dedupe(front);
      DedupeFirstOrder(front);
      assert s == front + [x];
      forall y | y in d
        ensures y in s && FirstIndex(s, y) == FirstIndex(front, y)
      {
        FirstIndexSnoc(front, x, y);
      }
      if x !in d {
        assert x !in front;
        assert FirstIndex(s, x) == |front|;
        var r := d + [x];
        forall i, j | 0 <= i < j < |r|
          ensures FirstIndex(s, r[i]) < FirstIndex(s, r[j])
        {
          assert r[i] == d[i] && r[i] in d;
          if j < |d| {
            assert r[j] == d[j] && r[j] in d;
          }
        }
      }
    }
  }

  /** A sequence without repeats is its own duplicate removal. */
  lemma {:induction false} DedupeNoDuplicates<T(!new)>(s: seq<T>)
    requires NoDuplicates(s)
    ensures Dedupe(s) == s
  {
    if |s| > 0 {
      var front := s[..|s| - 1];
      DedupeNoDuplicates(front);
      assert s[|s| - 1] !in front;
    }
  }

  /** Filtering keeps a sequence free of duplicates. */
  lemma {:induction false} FilterNoDuplicates<T>(s: seq<T>, keep: T -> bool)
    requires NoDuplicates(s)
    ensures NoDuplicates(Filter(s, keep))
  {
    if |s| > 0 {
      var front := s[..|s| - 1];
      FilterNoDuplicates(front, keep);
      FilterMembership(front, keep, s[|s| - 1]);
    }
  }

  // ---------------------------------------------------------------------
  // Subsequences
  // ---------------------------------------------------------------------

  /** `a` is `b` with some elements left out, the rest in the same order. */
  predicate Subseq<T(==)>(a: seq<T>, b: seq<T>)
  {
    if |a| == 0 then true
    else if |b| == 0 then false
    else if a[|a| - 1] == b[|b| - 1] then Subseq(a[..|a| - 1], b[..|b| - 1])
    else Subseq(a, b[..|b| - 1])
  }

  /** Leaving out the last element keeps a subsequence one. */
  lemma {:induction false} SubseqDropLast<T>(a: seq<T>, b: seq<T>)
    requires |a| > 0 && Subseq(a, b)
    ensures Subseq(a[..|a| - 1], b)
    decreases |b|, 0
  {
    var b' := b[..|b| - 1];
    assert b == b' + [b[|b| - 1]];
    if a[|a| - 1] != b[|b| - 1] {
      SubseqDropLast(a, b');
    }
    SubseqSnoc(a[..|a| - 1], b', b[|b| - 1]);
  }

  /** A subsequence of `b` is one of `b` with anything appended. */
  lemma {:induction false} SubseqSnoc<T>(a: seq<T>, b: seq<T>, x: T)
    requires Subseq(a, b)
    ensures Subseq(a, b + [x])
    decreases |b|, 1
  {
    assert (b + [x])[..|b + [x]| - 1] == b;
    if |a| > 0 && a[|a| - 1] == x {
      SubseqDropLast(a, b);
    }
  }

  /** Being a subsequence is transitive. */
  lemma {:induction false} SubseqTrans<T>(a: seq<T>, b: seq<T>, c: seq<T>)
    requires Subseq(a, b) && Subseq(b, c)
    ensures Subseq(a, c)
    decreases |c|
  {
    if |a| > 0 {
      var c' := c[..|c| - 1];
      if b[|b| - 1] == c[|c| - 1] {
        if a[|a| - 1] == b[|b| - 1] {
          SubseqTrans(a[..|a| - 1], b[..|b| - 1], c');
        } else {
          SubseqTrans(a, b[..|b| - 1], c');
        }
      } else {
        SubseqTrans(a, b, c');
        assert c == c' + [c[|c| - 1]];
        SubseqSnoc(a, c', c[|c| - 1]);
      }
    }
  }

  /** Filtering keeps the survivors in their original order. */
  lemma {:induction false} FilterSubseq<T>(s: seq<T>, keep: T -> bool)
    ensures Subseq(Filter(s, keep), s)
  {
    if |s| > 0 {
      var front := s[..|s| - 1];
      var x := s[|s| - 1];
      FilterSubseq(front, keep);
      assert s == front + [x];
      if keep(x) {
        var f := Filter(front, keep);
        assert Filter(s, keep) == f + [x];
        assert (f + [x])[..|f + [x]| - 1] == f;
        assert Subseq(f + [x], s);
      } else {
        assert Filter(s, keep) == Filter(front, keep) + [];
        assert Filter(s, keep) == Filter(front, keep);
        SubseqSnoc(Filter(front, keep), front, x);
      }
    }
  }

  /** Duplicate removal keeps first occurrences in their original order. */
  lemma {:induction false} DedupeSubseq<T(!new)>(s: seq<T>)
    ensures Subseq(Dedupe(s), s)
  {
    if |s| > 0 {
      var front := s[..|s| - 1];
      var x := s[|s| - 1];
      var d := Dedupe(front);
      DedupeSubseq(front);
      assert s == front + [x];
      if x in d {
        SubseqSnoc(d, front, x);
      } else {
        assert (d + [x])[..|d|] == d;
      }
    }
  }
}
