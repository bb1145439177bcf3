/** Generic sequence operations the resume code builds on: JavaScript's
    Array.prototype.filter, the de-duplication done by `[...new Set(xs)]`,
    and the "in-order sublist" relation used to state what both keep. */
module Seqs {

  /** `a` is an in-order sublist of `b`: `b` with some elements deleted. */
  predicate IsSubseq<T(==)>(a: seq<T>, b: seq<T>)
    decreases |b|
  {
    if a == [] then true
    else if b == [] then false
    else if a[0] == b[0] then IsSubseq(a[1..], b[1..])
    else IsSubseq(a, b[1..])
  }

  /** No element occurs twice. */
  predicate NoDuplicates<T(==)>(s: seq<T>) {
    forall i, j :: 0 <= i < j < |s| ==> s[i] != s[j]
  }

  lemma {:induction false} SubseqMembers<T>(a: seq<T>, b: seq<T>)
    requires IsSubseq(a, b)
    ensures forall x :: x in a ==> x in b
    decreases |b|
  {
    if a != [] && b != [] {
      assert a == [a[0]] + a[1..] && b == [b[0]] + b[1..];
      if a[0] == b[0] {
        SubseqMembers(a[1..], b[1..]);
      } else {
        SubseqMembers(a, b[1..]);
      }
    }
  }

  lemma {:induction false} SubseqLength<T>(a: seq<T>, b: seq<T>)
    requires IsSubseq(a, b)
    ensures |a| <= |b|
    decreases |b|
  {
    if a != [] && b != [] {
      if a[0] == b[0] {
        SubseqLength(a[1..], b[1..]);
      } else {
        SubseqLength(a, b[1..]);
      }
    }
  }

  lemma {:induction false} SubseqReflexive<T>(s: seq<T>)
    ensures IsSubseq(s, s)
    decreases |s|
  {
    if s != [] {
      SubseqReflexive(s[1..]);
    }
  }

  /** A sublist of a sublist is a sublist. */
  lemma {:induction false} SubseqTransitive<T>(a: seq<T>, b: seq<T>, c: seq<T>)
    requires IsSubseq(a, b) && IsSubseq(b, c)
    ensures IsSubseq(a, c)
    decreases |c|
  {
    if a != [] {
      assert b != [] && c != [];
      if b[0] == c[0] {
        if a[0] == b[0] {
          SubseqTransitive(a[1..], b[1..], c[1..]);
        } else {
          SubseqTransitive(a, b[1..], c[1..]);
          SubseqSkip(a, c);
        }
      } else {
        SubseqTransitive(a, b, c[1..]);
        SubseqSkip(a, c);
      }
    }
  }

  /** A sublist of a duplicate-free list is duplicate-free. */
  lemma {:induction false} SubseqKeepsNoDuplicates<T>(a: seq<T>, b: seq<T>)
    requires IsSubseq(a, b) && NoDuplicates(b)
    ensures NoDuplicates(a)
    decreases |b|
  {
    if a != [] && b != [] {
      assert NoDuplicates(b[1..]) by {
        forall i, j | 0 <= i < j < |b[1..]| ensures b[1..][i] != b[1..][j] {
          assert b[1..][i] == b[i + 1] && b[1..][j] == b[j + 1];
        }
      }
      if a[0] == b[0] {
        SubseqKeepsNoDuplicates(a[1..], b[1..]);
        SubseqMembers(a[1..], b[1..]);
        forall j | 0 < j < |a| ensures a[0] != a[j] {
          assert a[j] == a[1..][j - 1];
          assert a[j] in b[1..];
          var k :| 0 <= k < |b[1..]| && b[1..][k] == a[j];
          assert b[k + 1] == a[j];
        }
        forall i, j | 0 <= i < j < |a| ensures a[i] != a[j] {
          if i > 0 {
            assert a[i] == a[1..][i - 1] && a[j] == a[1..][j - 1];
          }
        }
      } else {
        SubseqKeepsNoDuplicates(a, b[1..]);
      }
    }
  }

  /** Array.prototype.filter: the elements satisfying `keep`, in their order. */
  function Filter<T>(s: seq<T>, keep: T -> bool): (r: seq<T>)
    ensures |r| <= |s|
    decreases |s|
  {
    if s == [] then []
    else (if keep(s[0]) then [s[0]] else []) + Filter(s[1..], keep)
  }

  lemma {:induction false} FilterIsSubseq<T>(s: seq<T>, keep: T -> bool)
    ensures IsSubseq(Filter(s, keep), s)
    decreases |s|
  {
    if s != [] {
      FilterIsSubseq(s[1..], keep);
      var rest := Filter(s[1..], keep);
      if keep(s[0]) {
        assert Filter(s, keep) == [s[0]] + rest;
        assert ([s[0]] + rest)[1..] == rest;
      } else {
        assert Filter(s, keep) == rest;
        if rest != [] {
          assert IsSubseq(rest, s) by { SubseqSkip(rest, s); }
        }
      }
    }
  }

  /** Dropping the head of the longer list keeps a sublist of the tail a sublist. */
  lemma {:induction false} SubseqSkip<T>(a: seq<T>, b: seq<T>)
    requires b != [] && IsSubseq(a, b[1..])
    ensures IsSubseq(a, b)
    decreases |b|, |a|
  {
    if a != [] && a[0] == b[0] {
      // a[1..] is a sublist of a, hence of b[1..]
      SubseqTail(a, b[1..]);
    }
  }

  /** Removing the first element of a sublist keeps it a sublist. */
  lemma {:induction false} SubseqTail<T>(a: seq<T>, b: seq<T>)
    requires a != [] && IsSubseq(a, b)
    ensures IsSubseq(a[1..], b)
    decreases |b|, |a|
  {
    assert b != [];
    if a[0] == b[0] {
      if a[1..] != [] {
        SubseqSkip(a[1..], b);
      }
    } else {
      SubseqTail(a, b[1..]);
      if a[1..] != [] {
        SubseqSkip(a[1..], b);
      }
    }
  }

  /** Filtering with a predicate that every element satisfies changes nothing. */
  lemma {:induction false} FilterKeepsAll<T>(s: seq<T>, keep: T -> bool)
    requires forall i :: 0 <= i < |s| ==> keep(s[i])
    ensures Filter(s, keep) == s
    decreases |s|
  {
    if s != [] {
      FilterKeepsAll(s[1..], keep);
    }
  }

  /** Filtering a concatenation filters each part. */
  lemma {:induction false} FilterAppend<T>(a: seq<T>, b: seq<T>, keep: T -> bool)
    ensures Filter(a + b, keep) == Filter(a, keep) + Filter(b, keep)
    decreases |a|
  {
    if a == [] {
      assert a + b == b;
    } else {
      var head := if keep(a[0]) then [a[0]] else [];
      assert (a + b)[0] == a[0];
      assert (a + b)[1..] == a[1..] + b;
      assert Filter(a + b, keep) == head + Filter(a[1..] + b, keep);
      FilterAppend(a[1..], b, keep);
      assert Filter(a, keep) == head + Filter(a[1..], keep);
      assert head + (Filter(a[1..], keep) + Filter(b, keep)) == (head + Filter(a[1..], keep)) + Filter(b, keep);
    }
  }

  /** Filtering one more element of `s` appends it when it is kept: the
      invariant of a loop that filters `s` from left to right. */
  lemma FilterStep<T>(s: seq<T>, i: nat, keep: T -> bool)
    requires i < |s|
    ensures Filter(s[..i + 1], keep) == Filter(s[..i], keep) + (if keep(s[i]) then [s[i]] else [])
  {
    assert s[..i + 1] == s[..i] + [s[i]];
    FilterAppend(s[..i], [s[i]], keep);
    assert Filter([s[i]], keep) == (if keep(s[i]) then [s[i]] else []) + Filter([s[i]][1..], keep);
    assert [s[i]][1..] == [];
  }

  /** The first element a filter keeps is the first element satisfying `keep`. */
  lemma {:induction false} FilterHead<T>(s: seq<T>, keep: T -> bool, k: nat)
    requires k < |s| && keep(s[k])
    requires forall j :: 0 <= j < k ==> !keep(s[j])
    ensures Filter(s, keep) != [] && Filter(s, keep)[0] == s[k]
    decreases k
  {
    if k > 0 {
      assert !keep(s[0]);
      assert Filter(s, keep) == Filter(s[1..], keep);
      FilterHead(s[1..], keep, k - 1);
    }
  }

  /** A filter that keeps no element gives the empty list. */
  lemma {:induction false} FilterNone<T>(s: seq<T>, keep: T -> bool)
    requires forall i :: 0 <= i < |s| ==> !keep(s[i])
    ensures Filter(s, keep) == []
    decreases |s|
  {
    if s != [] {
      FilterNone(s[1..], keep);
    }
  }

  /** A filter keeps, in order, exactly the elements satisfying `keep`. */
  lemma {:induction false} FilterMembers<T>(s: seq<T>, keep: T -> bool)
    ensures IsSubseq(Filter(s, keep), s)
    ensures forall i :: 0 <= i < |Filter(s, keep)| ==> Filter(s, keep)[i] in s && keep(Filter(s, keep)[i])
    ensures forall k :: 0 <= k < |s| ==> (s[k] in Filter(s, keep) <==> keep(s[k]))
    decreases |s|
  {
    FilterIsSubseq(s, keep);
    if s != [] {
      FilterMembers(s[1..], keep);
      var rest := Filter(s[1..], keep);
      var r := Filter(s, keep);
      assert r == (if keep(s[0]) then [s[0]] else []) + rest;
      forall k | 0 <= k < |s| ensures s[k] in r <==> keep(s[k]) {
        if k > 0 {
          assert s[k] == s[1..][k - 1];
        }
      }
    }
  }

  /** Filtering a duplicate-free list gives a duplicate-free list. */
  lemma FilterKeepsNoDuplicates<T>(s: seq<T>, keep: T -> bool)
    requires NoDuplicates(s)
    ensures NoDuplicates(Filter(s, keep))
  {
    FilterIsSubseq(s, keep);
    SubseqKeepsNoDuplicates(Filter(s, keep), s);
  }

  /** `[...new Set(s)]` after the elements of `seen` were already inserted:
      the first occurrence of each new element, in order. */
  function DedupFrom<T(==)>(s: seq<T>, seen: set<T>): (r: seq<T>)
    ensures forall i :: 0 <= i < |r| ==> r[i] in s && r[i] !in seen
    ensures forall i :: 0 <= i < |s| && s[i] !in seen ==> s[i] in r
    decreases |s|
  {
    if s == [] then []
    else if s[0] in seen then DedupFrom(s[1..], seen)
    else [s[0]] + DedupFrom(s[1..], seen + {s[0]})
  }

  /** `[...new Set(s)]`. */
  function Dedup<T(==)>(s: seq<T>): (r: seq<T>)
    ensures forall i :: 0 <= i < |r| ==> r[i] in s
    ensures forall i :: 0 <= i < |s| ==> s[i] in r
  {
    DedupFrom(s, {})
  }

  lemma {:induction false} DedupFromProperties<T>(s: seq<T>, seen: set<T>)
    ensures NoDuplicates(DedupFrom(s, seen))
    ensures IsSubseq(DedupFrom(s, seen), s)
    decreases |s|
  {
    if s != [] {
      if s[0] in seen {
        DedupFromProperties(s[1..], seen);
        var r := DedupFrom(s[1..], seen);
        if r != [] {
          SubseqSkip(r, s);
        }
      } else {
        var rest := DedupFrom(s[1..], seen + {s[0]});
        DedupFromProperties(s[1..], seen + {s[0]});
        var r := [s[0]] + rest;
        assert r[1..] == rest;
        assert s[0] !in rest;
        forall i, j | 0 <= i < j < |r| ensures r[i] != r[j] {
          assert r[j] == rest[j - 1];
          if i > 0 {
            assert r[i] == rest[i - 1];
          }
        }
      }
    }
  }

  /** `[...new Set(s)]` is a duplicate-free sublist of `s` holding every element of `s`. */
  lemma DedupProperties<T>(s: seq<T>)
    ensures NoDuplicates(Dedup(s)) && IsSubseq(Dedup(s), s)
  {
    DedupFromProperties(s, {});
  }

  /** `[...new Set(s.filter(keep))]` holds, once each and in the order of `s`,
      exactly the elements of `s` that satisfy `keep`. */
  lemma DedupFilterMembers<T>(s: seq<T>, keep: T -> bool)
    ensures NoDuplicates(Dedup(Filter(s, keep))) && IsSubseq(Dedup(Filter(s, keep)), s)
    ensures forall k :: 0 <= k < |s| ==> (s[k] in Dedup(Filter(s, keep)) <==> keep(s[k]))
    ensures forall m, n :: 0 <= m < n < |Dedup(Filter(s, keep))| ==>
              FirstIndex(Filter(s, keep), Dedup(Filter(s, keep))[m]) < FirstIndex(Filter(s, keep), Dedup(Filter(s, keep))[n])
  {
    var found := Filter(s, keep);
    var r := Dedup(found);
    DedupProperties(found);
    DedupOrder(found);
    FilterMembers(s, keep);
    SubseqTransitive(r, found, s);
    forall k | 0 <= k < |s| ensures s[k] in r <==> keep(s[k]) {
      if s[k] in r {
        var i :| 0 <= i < |r| && r[i] == s[k];
        var j :| 0 <= j < |found| && found[j] == s[k];
      }
      if keep(s[k]) {
        var j :| 0 <= j < |found| && found[j] == s[k];
      }
    }
  }

  /** The index of the first occurrence of `x` in `s`: `s.indexOf(x)`. */
  function FirstIndex<T(==)>(s: seq<T>, x: T): (i: nat)
    requires x in s
    ensures i < |s| && s[i] == x && x !in s[..i]
    decreases |s|
  {
    if s[0] == x then 0
    else
      assert x in s[1..] by {
        var k :| 0 <= k < |s| && s[k] == x;
        assert s[1..][k - 1] == x;
      }
      var j := FirstIndex(s[1..], x);
      assert s[..j + 1] == [s[0]] + s[1..][..j];
      j + 1
  }

  /** Past a different head, the first occurrence is one further on in the tail. */
  lemma FirstIndexTail<T>(s: seq<T>, x: T)
    requires x in s && x != s[0]
    ensures x in s[1..] && FirstIndex(s, x) == 1 + FirstIndex(s[1..], x)
  {
  }

  /** `DedupFrom` lists its elements in the order of their first occurrences in `s`. */
  lemma {:induction false} DedupFromOrder<T>(s: seq<T>, seen: set<T>)
    ensures forall m, n :: 0 <= m < n < |DedupFrom(s, seen)| ==>
              FirstIndex(s, DedupFrom(s, seen)[m]) < FirstIndex(s, DedupFrom(s, seen)[n])
    decreases |s|
  {
    if s != [] {
      if s[0] in seen {
        DedupFromOrder(s[1..], seen);
        OrderSkipHead(s, DedupFrom(s[1..], seen));
      } else {
        DedupFromOrder(s[1..], seen + {s[0]});
        OrderConsHead(s, DedupFrom(s[1..], seen + {s[0]}));
      }
    }
  }

  /** Elements listed in order of first occurrence in the tail of `s`, none of
      them the head, are in that order in `s` too. */
  lemma OrderSkipHead<T>(s: seq<T>, r: seq<T>)
    requires s != [] && forall i :: 0 <= i < |r| ==> r[i] in s[1..] && r[i] != s[0]
    requires forall m, n :: 0 <= m < n < |r| ==> FirstIndex(s[1..], r[m]) < FirstIndex(s[1..], r[n])
    ensures forall m, n :: 0 <= m < n < |r| ==> FirstIndex(s, r[m]) < FirstIndex(s, r[n])
  {
    forall m, n | 0 <= m < n < |r| ensures FirstIndex(s, r[m]) < FirstIndex(s, r[n]) {
      FirstIndexTail(s, r[m]);
      FirstIndexTail(s, r[n]);
    }
  }

  /** Putting the head of `s` in front of such a list keeps the order. */
  lemma OrderConsHead<T>(s: seq<T>, r: seq<T>)
    requires s != [] && forall i :: 0 <= i < |r| ==> r[i] in s[1..] && r[i] != s[0]
    requires forall m, n :: 0 <= m < n < |r| ==> FirstIndex(s[1..], r[m]) < FirstIndex(s[1..], r[n])
    ensures forall m, n :: 0 <= m < n < |[s[0]] + r| ==>
              FirstIndex(s, ([s[0]] + r)[m]) < FirstIndex(s, ([s[0]] + r)[n])
  {
    var l := [s[0]] + r;
    forall m, n | 0 <= m < n < |l| ensures FirstIndex(s, l[m]) < FirstIndex(s, l[n]) {
      assert l[n] == r[n - 1];
      FirstIndexTail(s, r[n - 1]);
      if m > 0 {
        assert l[m] == r[m - 1];
        FirstIndexTail(s, r[m - 1]);
      }
    }
  }

  /** `[...new Set(s)]` keeps each element at its first occurrence: the
      elements come in the order in which they first occur in `s`. */
  lemma DedupOrder<T>(s: seq<T>)
    ensures forall m, n :: 0 <= m < n < |Dedup(s)| ==> FirstIndex(s, Dedup(s)[m]) < FirstIndex(s, Dedup(s)[n])
  {
    DedupFromOrder(s, {});
  }

  /** On a list without duplicates, `[...new Set(s)]` is the list itself. */
  lemma {:induction false} DedupFromOfDistinct<T>(s: seq<T>, seen: set<T>)
    requires NoDuplicates(s)
    requires forall x :: x in s ==> x !in seen
    ensures DedupFrom(s, seen) == s
    decreases |s|
  {
    if s != [] {
      forall x | x in s[1..] ensures x !in seen + {s[0]} {
        var k :| 0 <= k < |s[1..]| && s[1..][k] == x;
        assert s[k + 1] == x;
      }
      assert NoDuplicates(s[1..]) by {
        forall i, j | 0 <= i < j < |s[1..]| ensures s[1..][i] != s[1..][j] {
          assert s[1..][i] == s[i + 1] && s[1..][j] == s[j + 1];
        }
      }
      DedupFromOfDistinct(s[1..], seen + {s[0]});
    }
  }

  lemma DedupOfDistinct<T>(s: seq<T>)
    requires NoDuplicates(s)
    ensures Dedup(s) == s
  {
    DedupFromOfDistinct(s, {});
  }

  /** The number of elements satisfying `p`. */
  function CountIf<T>(s: seq<T>, p: T -> bool): (n: nat)
    ensures n <= |s|
    decreases |s|
  {
    if s == [] then 0 else (if p(s[0]) then 1 else 0) + CountIf(s[1..], p)
  }

  lemma {:induction false} CountIfAppend<T>(a: seq<T>, b: seq<T>, p: T -> bool)
    ensures CountIf(a + b, p) == CountIf(a, p) + CountIf(b, p)
    decreases |a|
  {
    if a != [] {
      assert (a + b)[1..] == a[1..] + b;
      CountIfAppend(a[1..], b, p);
    } else {
      assert a + b == b;
    }
  }

  /** When every element satisfies exactly one of `p` and `q`, the two counts add up to the length. */
  lemma {:induction false} CountIfPartition<T>(s: seq<T>, p: T -> bool, q: T -> bool)
    requires forall i :: 0 <= i < |s| ==> p(s[i]) != q(s[i])
    ensures CountIf(s, p) + CountIf(s, q) == |s|
    decreases |s|
  {
    if s != [] {
      CountIfPartition(s[1..], p, q);
    }
  }

  /** Array.prototype.some. */
  function Any<T>(s: seq<T>, p: T -> bool): (b: bool)
    ensures b <==> exists i :: 0 <= i < |s| && p(s[i])
    decreases |s|
  {
    if s == [] then false
    else if p(s[0]) then true
    else
      var b := Any(s[1..], p);
      assert forall i :: 1 <= i < |s| ==> s[i] == s[1..][i - 1];
      b
  }

  /** Filtering keeps exactly the elements counted. */
  lemma {:induction false} FilterLength<T>(s: seq<T>, p: T -> bool)
    ensures |Filter(s, p)| == CountIf(s, p)
    decreases |s|
  {
    if s != [] {
      FilterLength(s[1..], p);
    }
  }
}
