/** Sequence facts used across the project: subsequences, filters, duplicate-free lists. */
module Sequences {

  ghost predicate Distinct<T(!new)>(s: seq<T>) {
    forall i, j :: 0 <= i < j < |s| ==> s[i] != s[j]
  }

  /** Positions in order. */
  ghost predicate Rising(at: seq<nat>) {
    forall i, j :: 0 <= i < j < |at| ==> at[i] < at[j]
  }

  /** `a` can be obtained from `b` by dropping elements: the order of `a` is kept inside `b`. */
  ghost predicate Subseq<T(!new)>(a: seq<T>, b: seq<T>) {
    a == [] || (b != [] && ((a[0] == b[0] && Subseq(a[1..], b[1..])) || Subseq(a, b[1..])))
  }

  function Filter<T(!new)>(s: seq<T>, p: T -> bool): (r: seq<T>)
    ensures forall x :: x in r <==> x in s && p(x)
    ensures |r| <= |s|
  {
    if s == [] then []
    else if p(s[0]) then [s[0]] + Filter(s[1..], p) else Filter(s[1..], p)
  }

  /** The elements of `s` outside `drop`, in order. */
  function Without<T(!new)>(s: seq<T>, drop: set<T>): (r: seq<T>)
    ensures forall x :: x in r <==> x in s && x !in drop
  {
    if s == [] then []
    else if s[0] in drop then Without(s[1..], drop) else [s[0]] + Without(s[1..], drop)
  }

  lemma {:induction false} RisingCons(n: nat, at: seq<nat>)
    requires Rising(at) && forall i :: i in at ==> n < i
    ensures Rising([n] + at)
  {
    assert forall k :: 0 < k < |[n] + at| ==> ([n] + at)[k] == at[k - 1] && at[k - 1] in at;
  }

  lemma {:induction false} RisingSnoc(at: seq<nat>, n: nat)
    requires Rising(at) && forall i :: i in at ==> i < n
    ensures Rising(at + [n])
  {
    assert forall k :: 0 <= k < |at| ==> (at + [n])[k] == at[k] && at[k] in at;
  }

  lemma {:induction false} RestOfConcat<T>(a: seq<T>, b: seq<T>)
    requires a != []
    ensures (a + b)[0] == a[0] && (a + b)[1..] == a[1..] + b
  {
  }

  lemma {:induction false} ConcatAssociates<T>(a: seq<T>, b: seq<T>, c: seq<T>)
    ensures a + b + c == a + (b + c)
  {
  }

  lemma {:induction false} WithoutConcat<T(!new)>(a: seq<T>, b: seq<T>, drop: set<T>)
    ensures Without(a + b, drop) == Without(a, drop) + Without(b, drop)
  {
    if a == [] {
      assert a + b == b;
    } else {
      WithoutConcat(a[1..], b, drop);
      RestOfConcat(a, b);
      ConcatAssociates([a[0]], Without(a[1..], drop), Without(b, drop));
    }
  }

  lemma {:induction false} WithoutNone<T(!new)>(s: seq<T>, drop: set<T>)
    requires forall x :: x in s ==> x !in drop
    ensures Without(s, drop) == s
  {
    if s != [] {
      WithoutNone(s[1..], drop);
    }
  }

  lemma {:induction false} WithoutAll<T(!new)>(s: seq<T>, drop: set<T>)
    requires forall x :: x in s ==> x in drop
    ensures Without(s, drop) == []
  {
    if s != [] {
      WithoutAll(s[1..], drop);
    }
  }

  lemma {:induction false} WithoutDistinct<T(!new)>(s: seq<T>, drop: set<T>)
    requires Distinct(s)
    ensures Distinct(Without(s, drop))
  {
    if s != [] {
      DistinctTail(s);
      WithoutDistinct(s[1..], drop);
    }
  }

  /** Taking one more element into a filtered prefix. */
  lemma {:induction false} WithoutSnoc<T(!new)>(s: seq<T>, i: nat, drop: set<T>)
    requires i < |s|
    ensures Without(s[..i + 1], drop) == Without(s[..i], drop) + (if s[i] in drop then [] else [s[i]])
  {
    assert s[..i + 1] == s[..i] + [s[i]];
    WithoutConcat(s[..i], [s[i]], drop);
  }

  lemma {:induction false} WithoutTwice<T(!new)>(s: seq<T>, a: set<T>, b: set<T>)
    ensures Without(Without(s, a), b) == Without(s, a + b)
  {
    if s != [] {
      WithoutTwice(s[1..], a, b);
    }
  }

  lemma {:induction false} WithoutAgree<T(!new)>(s: seq<T>, a: set<T>, b: set<T>)
    requires forall x :: x in s ==> (x in a <==> x in b)
    ensures Without(s, a) == Without(s, b)
  {
    if s != [] {
      WithoutAgree(s[1..], a, b);
    }
  }

  lemma {:induction false} DistinctAt<T(!new)>(s: seq<T>, i: nat)
    requires Distinct(s) && i < |s|
    ensures s[i] !in s[..i] && s[i] !in s[i + 1..]
  {
  }

  lemma {:induction false} FilterConcat<T(!new)>(a: seq<T>, b: seq<T>, p: T -> bool)
    ensures Filter(a + b, p) == Filter(a, p) + Filter(b, p)
  {
    hide Distinct;
    if a == [] {
      assert a + b == b;
    } else {
      FilterConcat(a[1..], b, p);
      RestOfConcat(a, b);
      ConcatAssociates([a[0]], Filter(a[1..], p), Filter(b, p));
    }
  }

  lemma {:induction false} FilterAll<T(!new)>(s: seq<T>, p: T -> bool)
    requires forall x :: x in s ==> p(x)
    ensures Filter(s, p) == s
  {
    if s != [] {
      FilterAll(s[1..], p);
    }
  }

  lemma {:induction false} FilterNone<T(!new)>(s: seq<T>, p: T -> bool)
    requires forall x :: x in s ==> !p(x)
    ensures Filter(s, p) == []
  {
    if s != [] {
      FilterNone(s[1..], p);
    }
  }

  lemma {:induction false} DistinctTail<T(!new)>(s: seq<T>)
    requires Distinct(s) && s != []
    ensures Distinct(s[1..]) && s[0] !in s[1..]
  {
    forall i, j | 0 <= i < j < |s[1..]| ensures s[1..][i] != s[1..][j] {
      assert s[1..][i] == s[i + 1] && s[1..][j] == s[j + 1];
    }
  }

  lemma {:induction false} DistinctCons<T(!new)>(x: T, s: seq<T>)
    requires Distinct(s) && x !in s
    ensures Distinct([x] + s)
  {
  }

  /** Duplicate-free is the same as multiplicity at most one. */
  lemma {:induction false} DistinctMultiset<T(!new)>(s: seq<T>)
    ensures Distinct(s) <==> forall x :: multiset(s)[x] <= 1
  {
    if s != [] {
      DistinctMultiset(s[1..]);
      assert s == [s[0]] + s[1..];
      assert multiset(s) == multiset{s[0]} + multiset(s[1..]);
      if Distinct(s) {
        DistinctTail(s);
        assert multiset(s[1..])[s[0]] == 0;
      }
      if forall x :: multiset(s)[x] <= 1 {
        assert multiset(s)[s[0]] <= 1;
        assert multiset(s[1..])[s[0]] == 0;
        assert s[0] !in s[1..];
        forall x ensures multiset(s[1..])[x] <= 1 {
          assert multiset(s)[x] <= 1;
        }
        DistinctCons(s[0], s[1..]);
      }
    }
  }

  lemma {:induction false} DistinctConcat<T(!new)>(a: seq<T>, b: seq<T>)
    requires Distinct(a) && Distinct(b)
    requires forall x :: x in a ==> x !in b
    ensures Distinct(a + b)
  {
    forall i, j | 0 <= i < j < |a + b| ensures (a + b)[i] != (a + b)[j] {
      if i < |a| && |a| <= j {
        assert (a + b)[i] in a && (a + b)[j] in b;
      }
    }
  }

  lemma {:induction false} DistinctParts<T(!new)>(a: seq<T>, b: seq<T>)
    requires Distinct(a + b)
    ensures Distinct(a) && Distinct(b)
    ensures forall x :: x in a ==> x !in b
  {
    var s := a + b;
    forall i, j | 0 <= i < j < |a| ensures a[i] != a[j] {
      assert s[i] == a[i] && s[j] == a[j];
    }
    forall i, j | 0 <= i < j < |b| ensures b[i] != b[j] {
      assert s[|a| + i] == b[i] && s[|a| + j] == b[j];
    }
    forall i, j | 0 <= i < |a| && 0 <= j < |b| ensures a[i] != b[j] {
      assert s[i] == a[i] && s[|a| + j] == b[j];
    }
  }

  lemma {:induction false} NoMembers<T(!new)>(s: seq<T>)
    requires forall x :: x !in s
    ensures s == []
  {
    forall x ensures x !in multiset(s) {
      assert x !in s;
    }
    assert multiset(s) == multiset{};
    assert |multiset(s)| == |s|;
  }

  // ----- subsequences

  lemma {:induction false} SubseqRefl<T(!new)>(a: seq<T>)
    ensures Subseq(a, a)
  {
    if a != [] {
      SubseqRefl(a[1..]);
    }
  }

  lemma {:induction false} SubseqTail<T(!new)>(a: seq<T>, b: seq<T>)
    requires a != [] && Subseq(a, b)
    ensures Subseq(a[1..], b)
    decreases |b|
  {
    if a[0] == b[0] && Subseq(a[1..], b[1..]) {
    } else {
      SubseqTail(a, b[1..]);
    }
  }

  lemma {:induction false} SubseqTrans<T(!new)>(a: seq<T>, b: seq<T>, c: seq<T>)
    requires Subseq(a, b) && Subseq(b, c)
    ensures Subseq(a, c)
    decreases |b| + |c|
  {
    if a != [] {
      if b[0] == c[0] && Subseq(b[1..], c[1..]) {
        if a[0] == b[0] && Subseq(a[1..], b[1..]) {
          SubseqTrans(a[1..], b[1..], c[1..]);
        } else {
          SubseqTrans(a, b[1..], c[1..]);
        }
      } else {
        SubseqTrans(a, b, c[1..]);
      }
    }
  }

  lemma {:induction false} SubseqConcat<T(!new)>(a: seq<T>, b: seq<T>, c: seq<T>, d: seq<T>)
    requires Subseq(a, b) && Subseq(c, d)
    ensures Subseq(a + c, b + d)
    decreases |b|
  {
    if b == [] {
      assert a == [] && a + c == c && b + d == d;
    } else if a == [] {
      SubseqConcat(a, b[1..], c, d);
      assert a + c == c && (b + d)[1..] == b[1..] + d;
    } else {
      assert (b + d)[1..] == b[1..] + d && (a + c)[1..] == a[1..] + c;
      if a[0] == b[0] && Subseq(a[1..], b[1..]) {
        SubseqConcat(a[1..], b[1..], c, d);
      } else {
        SubseqConcat(a, b[1..], c, d);
      }
    }
  }

  lemma {:induction false} SubseqMembers<T(!new)>(a: seq<T>, b: seq<T>)
    requires Subseq(a, b)
    ensures |a| <= |b|
    ensures forall x :: x in a ==> x in b
    decreases |b|
  {
    if a != [] {
      if a[0] == b[0] && Subseq(a[1..], b[1..]) {
        SubseqMembers(a[1..], b[1..]);
        assert a == [a[0]] + a[1..];
      } else {
        SubseqMembers(a, b[1..]);
      }
    }
  }

  lemma {:induction false} SubseqFilter<T(!new)>(a: seq<T>, b: seq<T>, p: T -> bool)
    requires Subseq(a, b)
    ensures Subseq(Filter(a, p), Filter(b, p))
    decreases |b|
  {
    if a != [] {
      if a[0] == b[0] && Subseq(a[1..], b[1..]) {
        SubseqFilter(a[1..], b[1..], p);
        if p(a[0]) {
          assert Filter(a, p)[1..] == Filter(a[1..], p);
          assert Filter(b, p)[1..] == Filter(b[1..], p);
        }
      } else {
        SubseqFilter(a, b[1..], p);
        if p(b[0]) {
          assert Filter(b, p)[1..] == Filter(b[1..], p);
        }
      }
    }
  }

  /** A subsequence that starts elsewhere skips the head. */
  lemma {:induction false} SubseqSkip<T(!new)>(a: seq<T>, y: T, b: seq<T>)
    requires Subseq(a, [y] + b)
    requires a == [] || a[0] != y
    ensures Subseq(a, b)
  {
    assert ([y] + b)[1..] == b;
  }

  lemma {:induction false} SubseqSame<T(!new)>(a: seq<T>, y: T, b: seq<T>)
    requires a != [] && a[0] == y && Subseq(a, [y] + b)
    ensures Subseq(a[1..], b)
  {
    assert ([y] + b)[1..] == b;
    if !Subseq(a[1..], b) {
      SubseqTail(a, b);
    }
  }

  /** Keeping order, said with positions: a subsequence never swaps two elements of a duplicate-free list. */
  lemma {:induction false} SubseqKeepsOrder<T(!new)>(a: seq<T>, b: seq<T>, i: nat, j: nat) returns (k: nat, l: nat)
    requires Subseq(a, b) && i < j < |a|
    ensures k < l < |b| && b[k] == a[i] && b[l] == a[j]
    decreases |b|
  {
    if a[0] == b[0] && Subseq(a[1..], b[1..]) {
      if i == 0 {
        SubseqMembers(a[1..], b[1..]);
        assert a[j] == a[1..][j - 1] && a[j] in b[1..];
        var m :| 0 <= m < |b[1..]| && b[1..][m] == a[j];
        k, l := 0, m + 1;
      } else {
        k, l := SubseqKeepsOrder(a[1..], b[1..], i - 1, j - 1);
        k, l := k + 1, l + 1;
      }
    } else {
      k, l := SubseqKeepsOrder(a, b[1..], i, j);
      k, l := k + 1, l + 1;
    }
  }

  // ----- first copies

  /** Each element at its first occurrence only. */
  function FirstCopies<T(==, !new)>(s: seq<T>): seq<T> {
    if s == [] then [] else [s[0]] + Without(FirstCopies(s[1..]), {s[0]})
  }

  lemma {:induction false} FirstCopiesMembers<T(!new)>(s: seq<T>)
    ensures forall x :: x in FirstCopies(s) <==> x in s
    ensures Distinct(FirstCopies(s))
  {
    if s != [] {
      FirstCopiesMembers(s[1..]);
      WithoutDistinct(FirstCopies(s[1..]), {s[0]});
      DistinctCons(s[0], Without(FirstCopies(s[1..]), {s[0]}));
    }
  }

  lemma {:induction false} FirstCopiesDistinct<T(!new)>(s: seq<T>)
    requires Distinct(s)
    ensures FirstCopies(s) == s
  {
    if s != [] {
      DistinctTail(s);
      FirstCopiesDistinct(s[1..]);
      WithoutNone(s[1..], {s[0]});
    }
  }

  lemma {:induction false} FirstCopiesSnoc<T(!new)>(s: seq<T>, x: T)
    ensures FirstCopies(s + [x]) == if x in s then FirstCopies(s) else FirstCopies(s) + [x]
  {
    hide Without;
    if s == [] {
      assert s + [x] == [x] && [x][1..] == [];
      WithoutNone([], {x});
    } else {
      assert (s + [x])[1..] == s[1..] + [x];
      FirstCopiesSnoc(s[1..], x);
      WithoutConcat(FirstCopies(s[1..]), [x], {s[0]});
      if x == s[0] {
        WithoutAll([x], {s[0]});
      } else {
        WithoutNone([x], {s[0]});
      }
    }
  }
}
