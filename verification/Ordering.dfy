/** Sorting as Python's sorted does it, and the order of strings by code point. */
module Ordering {
  function Insert<T>(le: (T, T) -> bool, x: T, s: seq<T>): (r: seq<T>)
    ensures |r| == |s| + 1
  {
    if s == [] || le(x, s[0]) then [x] + s else [s[0]] + Insert(le, x, s[1..])
  }

  /** Stable: among equal keys the earlier element stays first. */
  function SortBy<T>(le: (T, T) -> bool, s: seq<T>): (r: seq<T>)
    ensures |r| == |s|
  {
    if s == [] then [] else Insert(le, s[0], SortBy(le, s[1..]))
  }

  ghost predicate TotalPreorder<T(!new)>(le: (T, T) -> bool) {
    (forall a, b :: le(a, b) || le(b, a)) && forall a, b, c :: le(a, b) && le(b, c) ==> le(a, c)
  }

  ghost predicate SortedBy<T>(le: (T, T) -> bool, s: seq<T>) {
    forall i, j :: 0 <= i < j < |s| ==> le(s[i], s[j])
  }

  lemma {:induction false} InsertKeeps<T>(le: (T, T) -> bool, x: T, s: seq<T>)
    ensures multiset(Insert(le, x, s)) == multiset{x} + multiset(s)
  {
    if s != [] && !le(x, s[0]) {
      InsertKeeps(le, x, s[1..]);
      assert s == [s[0]] + s[1..];
    }
  }

  lemma {:induction false} InsertSorts<T(!new)>(le: (T, T) -> bool, x: T, s: seq<T>)
    requires TotalPreorder(le) && SortedBy(le, s)
    ensures SortedBy(le, Insert(le, x, s))
  {
    if s != [] {
      if le(x, s[0]) {
        PrependSorted(le, x, s);
      } else {
        InsertSorts(le, x, s[1..]);
        var r := Insert(le, x, s[1..]);
        InsertKeeps(le, x, s[1..]);
        forall i | 0 <= i < |r| ensures le(s[0], r[i]) {
          assert r[i] in multiset(r);
        }
        PrependSorted(le, s[0], r);
      }
    }
  }

  lemma PrependSorted<T(!new)>(le: (T, T) -> bool, x: T, s: seq<T>)
    requires TotalPreorder(le) && SortedBy(le, s)
    requires (s != [] && le(x, s[0])) || forall i :: 0 <= i < |s| ==> le(x, s[i])
    ensures SortedBy(le, [x] + s)
  {}

  /** Sorting rearranges the elements into order. */
  lemma {:induction false} SortBySorts<T(!new)>(le: (T, T) -> bool, s: seq<T>)
    requires TotalPreorder(le)
    ensures multiset(SortBy(le, s)) == multiset(s)
    ensures SortedBy(le, SortBy(le, s))
  {
    if s != [] {
      SortBySorts(le, s[1..]);
      InsertKeeps(le, s[0], SortBy(le, s[1..]));
      InsertSorts(le, s[0], SortBy(le, s[1..]));
      assert s == [s[0]] + s[1..];
    }
  }

  /** The first of a sorted list is an element that comes before all others. */
  lemma FirstIsLeast<T(!new)>(le: (T, T) -> bool, s: seq<T>)
    requires TotalPreorder(le) && s != []
    ensures SortBy(le, s) != [] && SortBy(le, s)[0] in s
    ensures forall x <- s :: le(SortBy(le, s)[0], x)
  {
    SortBySorts(le, s);
    var sorted := SortBy(le, s);
    assert sorted[0] in multiset(sorted);
    forall x <- s ensures le(sorted[0], x) {
      assert x in multiset(sorted);
      var i :| 0 <= i < |sorted| && sorted[i] == x;
      assert le(x, x);
    }
  }

  function Map<S, T>(f: S -> T, s: seq<S>): (r: seq<T>)
    ensures |r| == |s| && forall i :: 0 <= i < |s| ==> r[i] == f(s[i])
  {
    if s == [] then [] else [f(s[0])] + Map(f, s[1..])
  }

  ghost predicate KeepsOrder<T(!new)>(le: (T, T) -> bool, f: T -> T) {
    forall a, b :: le(f(a), f(b)) <==> le(a, b)
  }

  lemma {:induction false} InsertMap<T(!new)>(le: (T, T) -> bool, f: T -> T, x: T, s: seq<T>)
    requires KeepsOrder(le, f)
    ensures Insert(le, f(x), Map(f, s)) == Map(f, Insert(le, x, s))
  {
    if s != [] && !le(x, s[0]) {
      InsertMap(le, f, x, s[1..]);
      MapCons(f, s[0], Insert(le, x, s[1..]));
      assert s == [s[0]] + s[1..];
    } else {
      MapCons(f, x, s);
    }
  }

  lemma MapCons<T>(f: T -> T, x: T, s: seq<T>)
    ensures Map(f, [x] + s) == [f(x)] + Map(f, s)
  {}

  /** Changing every element in a way that keeps the order does not change how they are sorted. */
  lemma {:induction false} SortByMap<T(!new)>(le: (T, T) -> bool, f: T -> T, s: seq<T>)
    requires KeepsOrder(le, f)
    ensures SortBy(le, Map(f, s)) == Map(f, SortBy(le, s))
  {
    if s != [] {
      SortByMap(le, f, s[1..]);
      InsertMap(le, f, s[0], SortBy(le, s[1..]));
    }
  }

  ghost predicate Antisymmetric<T(!new)>(le: (T, T) -> bool) {
    forall a, b :: le(a, b) && le(b, a) ==> a == b
  }

  lemma {:induction false} SortedOnlyOneWay<T(!new)>(le: (T, T) -> bool, s: seq<T>, t: seq<T>)
    requires TotalPreorder(le) && Antisymmetric(le) && SortedBy(le, s) && SortedBy(le, t)
    requires multiset(s) == multiset(t)
    ensures s == t
  {
    hide TotalPreorder, Antisymmetric, SortedBy;
    SameLength(s, t);
    if s != [] {
      SameMembers(s, t);
      assert s[0] in t && t[0] in s;
      SortedTail(le, s);
      SortedTail(le, t);
      LeastAreEqual(le, s, t);
      TailCounts(s);
      TailCounts(t);
      SortedOnlyOneWay(le, s[1..], t[1..]);
      assert s == [s[0]] + s[1..] && t == [t[0]] + t[1..];
    }
  }

  lemma SortedTail<T(!new)>(le: (T, T) -> bool, s: seq<T>)
    requires SortedBy(le, s) && s != []
    ensures SortedBy(le, s[1..])
  {}

  lemma SameLength<T>(s: seq<T>, t: seq<T>)
    requires multiset(s) == multiset(t)
    ensures |s| == |t|
  {
    assert |multiset(s)| == |s| && |multiset(t)| == |t|;
  }

  lemma SameMembers<T>(s: seq<T>, t: seq<T>)
    requires multiset(s) == multiset(t)
    ensures forall x :: x in s <==> x in t
  {
    forall x ensures x in s <==> x in t {
      assert x in s <==> x in multiset(s);
      assert x in t <==> x in multiset(t);
    }
  }

  lemma TailCounts<T>(s: seq<T>)
    requires s != []
    ensures multiset(s[1..]) == multiset(s) - multiset{s[0]}
  {
    assert s == [s[0]] + s[1..];
  }

  lemma LeastAreEqual<T(!new)>(le: (T, T) -> bool, s: seq<T>, t: seq<T>)
    requires TotalPreorder(le) && Antisymmetric(le) && SortedBy(le, s) && SortedBy(le, t)
    requires s != [] && t != [] && s[0] in t && t[0] in s
    ensures s[0] == t[0]
  {
    var i :| 0 <= i < |t| && t[i] == s[0];
    var j :| 0 <= j < |s| && s[j] == t[0];
    assert le(t[0], t[i]) && le(s[0], s[j]);
  }

  /** Sorting forgets the original order. */
  lemma SortByForgets<T(!new)>(le: (T, T) -> bool, s: seq<T>, t: seq<T>)
    requires TotalPreorder(le) && Antisymmetric(le) && multiset(s) == multiset(t)
    ensures SortBy(le, s) == SortBy(le, t)
  {
    SortBySorts(le, s);
    SortBySorts(le, t);
    SortedOnlyOneWay(le, SortBy(le, s), SortBy(le, t));
  }

  predicate LexLe(a: string, b: string) {
    if a == "" then true
    else if b == "" then false
    else a[0] < b[0] || (a[0] == b[0] && LexLe(a[1..], b[1..]))
  }

  /** The texts agree up to a place where the first ends or has the smaller character. */
  ghost predicate PartsBefore(a: string, b: string, k: nat) {
    k <= |a| && k <= |b| && a[..k] == b[..k] && (k == |a| || (k < |b| && a[k] < b[k]))
  }

  lemma {:induction false} LexLeIff(a: string, b: string)
    ensures LexLe(a, b) <==> exists k: nat :: PartsBefore(a, b, k)
  {
    if a == "" {
      assert PartsBefore(a, b, 0);
    } else if b != "" {
      if a[0] < b[0] {
        assert PartsBefore(a, b, 0);
      } else if a[0] == b[0] {
        LexLeIff(a[1..], b[1..]);
        if k: nat :| PartsBefore(a[1..], b[1..], k) {
          PartsLater(a, b, k);
        }
        if k: nat :| PartsBefore(a, b, k) {
          PartsEarlier(a, b, k);
        }
      } else {
        forall k: nat | PartsBefore(a, b, k) ensures k == 0 {
          PartsAgree(a, b, k);
        }
      }
    }
  }

  lemma PartsAgree(a: string, b: string, k: nat)
    requires a != "" && b != "" && PartsBefore(a, b, k)
    ensures k > 0 ==> a[0] == b[0]
  {
    if k > 0 {
      assert a[..k][0] == a[0] && b[..k][0] == b[0];
    }
  }

  lemma PartsLater(a: string, b: string, k: nat)
    requires a != "" && b != "" && a[0] == b[0] && PartsBefore(a[1..], b[1..], k)
    ensures PartsBefore(a, b, k + 1)
  {
    assert a[..k + 1] == [a[0]] + a[1..][..k] && b[..k + 1] == [b[0]] + b[1..][..k];
  }

  lemma PartsEarlier(a: string, b: string, k: nat)
    requires a != "" && b != "" && a[0] == b[0] && PartsBefore(a, b, k)
    ensures k > 0 && PartsBefore(a[1..], b[1..], k - 1)
  {
    assert a[1..][..k - 1] == a[..k][1..] && b[1..][..k - 1] == b[..k][1..];
  }

  lemma {:induction false} LexTotal(a: string, b: string)
    ensures LexLe(a, b) || LexLe(b, a)
  {
    if a != "" && b != "" && a[0] == b[0] {
      LexTotal(a[1..], b[1..]);
    }
  }

  lemma {:induction false} LexTransitive(a: string, b: string, c: string)
    requires LexLe(a, b) && LexLe(b, c)
    ensures LexLe(a, c)
  {
    if a != "" && a[0] == b[0] == c[0] {
      LexTransitive(a[1..], b[1..], c[1..]);
    }
  }

  lemma {:induction false} LexAntisymmetric(a: string, b: string)
    requires LexLe(a, b) && LexLe(b, a)
    ensures a == b
  {
    if a != "" {
      LexAntisymmetric(a[1..], b[1..]);
      assert a == [a[0]] + a[1..] && b == [b[0]] + b[1..];
    }
  }

  lemma LexIsPreorder()
    ensures TotalPreorder(LexLe)
  {
    forall a, b ensures LexLe(a, b) || LexLe(b, a) {
      LexTotal(a, b);
    }
    forall a, b, c | LexLe(a, b) && LexLe(b, c) ensures LexLe(a, c) {
      LexTransitive(a, b, c);
    }
  }
}
