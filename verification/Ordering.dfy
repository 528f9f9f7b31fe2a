/** What the database's ORDER BY, GROUP BY scans and ROW_NUMBER() rely on: a
    stable sort, and the rank of a value in a strictly ordered set. */
module Ordering {

  // ------------------------------------------------------------ stable sort

  ghost predicate TotalPreorder<T(!new)>(le: (T, T) -> bool) {
    && (forall x, y :: le(x, y) || le(y, x))
    && (forall x, y, z :: le(x, y) && le(y, z) ==> le(x, z))
  }

  ghost predicate SortedBy<T>(le: (T, T) -> bool, s: seq<T>) {
    forall i, j | 0 <= i < j < |s| :: le(s[i], s[j])
  }

  function Insert<T>(le: (T, T) -> bool, x: T, s: seq<T>): (r: seq<T>)
    ensures |r| == |s| + 1
  {
    if s == [] then [x]
    else if le(x, s[0]) then [x] + s
    else [s[0]] + Insert(le, x, s[1..])
  }

  /** ORDER BY: a stable sort (earlier rows stay before later rows that compare equal). */
  function SortBy<T>(le: (T, T) -> bool, s: seq<T>): (r: seq<T>)
    ensures |r| == |s|
  {
    if s == [] then [] else Insert(le, s[0], SortBy(le, s[1..]))
  }

  /** WHERE: the rows that satisfy p, in their order. */
  function Filter<T>(p: T -> bool, s: seq<T>): (r: seq<T>)
    ensures |r| <= |s|
    ensures forall i | 0 <= i < |r| :: r[i] in s && p(r[i])
  {
    if s == [] then []
    else if p(s[0]) then [s[0]] + Filter(p, s[1..])
    else Filter(p, s[1..])
  }

  lemma {:induction false} InsertIsPermutation<T>(le: (T, T) -> bool, x: T, s: seq<T>)
    ensures multiset(Insert(le, x, s)) == multiset{x} + multiset(s)
  {
    if s != [] {
      assert s == [s[0]] + s[1..];
      if !le(x, s[0]) {
        InsertIsPermutation(le, x, s[1..]);
      }
    }
  }

  lemma {:induction false} SortIsPermutation<T>(le: (T, T) -> bool, s: seq<T>)
    ensures multiset(SortBy(le, s)) == multiset(s)
  {
    if s != [] {
      assert s == [s[0]] + s[1..];
      SortIsPermutation(le, s[1..]);
      InsertIsPermutation(le, s[0], SortBy(le, s[1..]));
    }
  }

  lemma SortKeepsElements<T>(le: (T, T) -> bool, s: seq<T>)
    ensures forall x :: x in SortBy(le, s) <==> x in s
  {
    SortIsPermutation(le, s);
    forall x ensures x in SortBy(le, s) <==> x in s {
      assert x in multiset(s) <==> x in multiset(SortBy(le, s));
    }
  }

  lemma {:induction false} InsertKeepsSorted<T(!new)>(le: (T, T) -> bool, x: T, s: seq<T>)
    requires TotalPreorder(le) && SortedBy(le, s)
    ensures SortedBy(le, Insert(le, x, s))
  {
    if s != [] && !le(x, s[0]) {
      InsertKeepsSorted(le, x, s[1..]);
      var t := Insert(le, x, s[1..]);
      InsertIsPermutation(le, x, s[1..]);
      forall i | 0 <= i < |t| ensures le(s[0], t[i]) {
        assert t[i] in multiset(t);
        assert t[i] == x || t[i] in s[1..];
      }
    }
  }

  lemma {:induction false} SortIsSorted<T(!new)>(le: (T, T) -> bool, s: seq<T>)
    requires TotalPreorder(le)
    ensures SortedBy(le, SortBy(le, s))
  {
    if s != [] {
      SortIsSorted(le, s[1..]);
      InsertKeepsSorted(le, s[0], SortBy(le, s[1..]));
    }
  }

  /** No two rows share a key. */
  ghost predicate DistinctBy<T, K>(key: T -> K, s: seq<T>) {
    forall i, j | 0 <= i < j < |s| :: key(s[i]) != key(s[j])
  }

  lemma {:induction false} InsertKeepsDistinct<T, K>(le: (T, T) -> bool, key: T -> K, x: T, s: seq<T>)
    requires DistinctBy(key, s) && forall i | 0 <= i < |s| :: key(s[i]) != key(x)
    ensures DistinctBy(key, Insert(le, x, s))
  {
    if s != [] && !le(x, s[0]) {
      InsertKeepsDistinct(le, key, x, s[1..]);
      var r := Insert(le, x, s[1..]);
      InsertIsPermutation(le, x, s[1..]);
      forall i | 0 <= i < |r| ensures key(r[i]) != key(s[0]) {
        assert r[i] in multiset(r);
        assert r[i] in multiset{x} || r[i] in multiset(s[1..]);
      }
    }
  }

  lemma {:induction false} SortKeepsDistinct<T, K>(le: (T, T) -> bool, key: T -> K, s: seq<T>)
    requires DistinctBy(key, s)
    ensures DistinctBy(key, SortBy(le, s))
  {
    if s != [] {
      SortKeepsDistinct(le, key, s[1..]);
      var t := SortBy(le, s[1..]);
      SortIsPermutation(le, s[1..]);
      forall i | 0 <= i < |t| ensures key(t[i]) != key(s[0]) {
        assert t[i] in multiset(t);
        var k :| 0 <= k < |s[1..]| && s[1..][k] == t[i];
        assert s[k + 1] == t[i];
      }
      InsertKeepsDistinct(le, key, s[0], t);
    }
  }

  lemma {:induction false} InsertWasDistinct<T, K>(le: (T, T) -> bool, key: T -> K, x: T, s: seq<T>)
    requires DistinctBy(key, Insert(le, x, s))
    ensures DistinctBy(key, s) && forall i | 0 <= i < |s| :: key(s[i]) != key(x)
  {
    var r := Insert(le, x, s);
    if s == [] {
    } else if le(x, s[0]) {
      forall i, j | 0 <= i < j < |s| ensures key(s[i]) != key(s[j]) {
        assert key(r[i + 1]) != key(r[j + 1]);
      }
      forall i | 0 <= i < |s| ensures key(s[i]) != key(x) {
        assert key(r[0]) != key(r[i + 1]);
      }
    } else {
      var t := Insert(le, x, s[1..]);
      assert r == [s[0]] + t;
      forall i, j | 0 <= i < j < |t| ensures key(t[i]) != key(t[j]) {
        assert r[i + 1] == t[i] && r[j + 1] == t[j];
      }
      InsertWasDistinct(le, key, x, s[1..]);
      InsertIsPermutation(le, x, s[1..]);
      forall y | y in multiset(t) ensures key(y) != key(s[0]) {
        var k :| 0 <= k < |t| && t[k] == y;
        assert r[k + 1] == y && r[0] == s[0];
      }
      assert x in multiset(t);
      forall i | 1 <= i < |s| ensures key(s[i]) != key(s[0]) && key(s[i]) != key(x) {
        assert s[1..][i - 1] == s[i] && s[i] in multiset(s[1..]);
      }
      forall i, j | 1 <= i < j < |s| ensures key(s[i]) != key(s[j]) {
        assert s[1..][i - 1] == s[i] && s[1..][j - 1] == s[j];
      }
    }
  }

  /** Sorting does not remove repeated keys. */
  lemma {:induction false} SortWasDistinct<T, K>(le: (T, T) -> bool, key: T -> K, s: seq<T>)
    requires DistinctBy(key, SortBy(le, s))
    ensures DistinctBy(key, s)
  {
    if s != [] {
      var t := SortBy(le, s[1..]);
      InsertWasDistinct(le, key, s[0], t);
      SortWasDistinct(le, key, s[1..]);
      SortIsPermutation(le, s[1..]);
      forall i | 0 <= i < |s[1..]| ensures key(s[1..][i]) != key(s[0]) {
        assert s[1..][i] in multiset(t);
        var k :| 0 <= k < |t| && t[k] == s[1..][i];
      }
    }
  }

  /** The finer order agrees with the coarser one on the rows that p keeps. */
  ghost predicate AgreeOn<T(!new)>(le: (T, T) -> bool, fine: (T, T) -> bool, p: T -> bool) {
    forall a, b :: p(a) && p(b) ==> (le(a, b) <==> fine(a, b))
  }

  /** Inserting commutes with filtering. */
  lemma {:induction false} FilterInsert<T(!new)>(
    le: (T, T) -> bool, fine: (T, T) -> bool, p: T -> bool, x: T, s: seq<T>)
    requires TotalPreorder(le) && SortedBy(le, s) && AgreeOn(le, fine, p)
    ensures Filter(p, Insert(le, x, s)) ==
            if p(x) then Insert(fine, x, Filter(p, s)) else Filter(p, s)
  {
    if s == [] {
    } else if le(x, s[0]) {
      assert ([x] + s)[1..] == s;
      if p(x) {
        FilterInsertFront(le, fine, p, x, s);
      }
    } else {
      assert SortedBy(le, s[1..]);
      hide TotalPreorder, SortedBy;
      FilterInsert(le, fine, p, x, s[1..]);
      var t := [s[0]] + Insert(le, x, s[1..]);
      assert t[1..] == Insert(le, x, s[1..]);
      if p(x) && p(s[0]) {
        assert Filter(p, s)[1..] == Filter(p, s[1..]);
      }
    }
  }

  lemma FilterInsertFront<T(!new)>(
    le: (T, T) -> bool, fine: (T, T) -> bool, p: T -> bool, x: T, s: seq<T>)
    requires TotalPreorder(le) && SortedBy(le, s) && AgreeOn(le, fine, p)
    requires p(x) && s != [] && le(x, s[0])
    ensures Insert(fine, x, Filter(p, s)) == [x] + Filter(p, s)
  {
    var f := Filter(p, s);
    if f != [] {
      var k :| 0 <= k < |s| && s[k] == f[0];
      assert k == 0 || le(s[0], s[k]);
      assert fine(x, f[0]);
    }
  }

  /** Filtering a stable sort is a stable sort of what was kept. */
  lemma {:induction false} FilterSort<T(!new)>(
    le: (T, T) -> bool, fine: (T, T) -> bool, p: T -> bool, s: seq<T>)
    requires TotalPreorder(le) && AgreeOn(le, fine, p)
    ensures Filter(p, SortBy(le, s)) == SortBy(fine, Filter(p, s))
  {
    if s != [] {
      FilterSort(le, fine, p, s[1..]);
      SortIsSorted(le, s[1..]);
      FilterInsert(le, fine, p, s[0], SortBy(le, s[1..]));
      if p(s[0]) {
        assert Filter(p, s)[1..] == Filter(p, s[1..]);
      }
    }
  }

  lemma {:induction false} FilterAppend<T>(p: T -> bool, a: seq<T>, b: seq<T>)
    ensures Filter(p, a + b) == Filter(p, a) + Filter(p, b)
  {
    if a == [] {
      assert a + b == b;
    } else {
      assert (a + b)[1..] == a[1..] + b;
      FilterAppend(p, a[1..], b);
    }
  }

  lemma {:induction false} FilterNone<T>(p: T -> bool, s: seq<T>)
    requires forall i | 0 <= i < |s| :: !p(s[i])
    ensures Filter(p, s) == []
  {
    if s != [] {
      FilterNone(p, s[1..]);
    }
  }

  lemma {:induction false} FilterKeeps<T>(p: T -> bool, s: seq<T>)
    ensures forall x :: x in Filter(p, s) <==> x in s && p(x)
  {
    if s != [] {
      FilterKeeps(p, s[1..]);
      assert s == [s[0]] + s[1..];
    }
  }

  /** Where two kept elements were, in the same order. */
  lemma {:induction false} FilterIndices<T>(p: T -> bool, s: seq<T>, i: nat, j: nat) returns (k: nat, l: nat)
    requires i <= j < |Filter(p, s)|
    ensures k < |s| && l < |s| && s[k] == Filter(p, s)[i] && s[l] == Filter(p, s)[j]
    ensures k <= l && (i < j ==> k < l)
  {
    if p(s[0]) {
      if j == 0 {
        k, l := 0, 0;
      } else {
        k, l := FilterIndices(p, s[1..], if i == 0 then 0 else i - 1, j - 1);
        k, l := if i == 0 then 0 else k + 1, l + 1;
      }
    } else {
      k, l := FilterIndices(p, s[1..], i, j);
      k, l := k + 1, l + 1;
    }
  }

  lemma {:induction false} FilterAll<T>(p: T -> bool, s: seq<T>)
    requires forall i | 0 <= i < |s| :: p(s[i])
    ensures Filter(p, s) == s
  {
    if s != [] {
      FilterAll(p, s[1..]);
    }
  }

  // ------------------------------------------------------------------ ranks

  ghost predicate StrictOrderOn<T(!new)>(lt: (T, T) -> bool, s: set<T>) {
    && (forall x | x in s :: !lt(x, x))
    && (forall x, y | x in s && y in s && x != y :: lt(x, y) || lt(y, x))
    && (forall x, y, z | x in s && y in s && z in s :: lt(x, y) && lt(y, z) ==> lt(x, z))
  }

  function Before<T(!new)>(lt: (T, T) -> bool, s: set<T>, x: T): set<T> {
    set y | y in s && lt(y, x)
  }

  /** ROW_NUMBER() of x among s: one more than the number of elements before it. */
  function Rank<T(!new)>(lt: (T, T) -> bool, s: set<T>, x: T): nat {
    |Before(lt, s, x)| + 1
  }

  lemma SubsetCard<T>(a: set<T>, b: set<T>)
    requires a <= b
    ensures |a| <= |b|
    ensures a != b ==> |a| < |b|
  {
    assert b == a + (b - a);
    if a != b {
      assert b - a != {};
    }
  }

  lemma RankBounds<T(!new)>(lt: (T, T) -> bool, s: set<T>, x: T)
    requires StrictOrderOn(lt, s) && x in s
    ensures 1 <= Rank(lt, s, x) <= |s|
  {
    assert x !in Before(lt, s, x);
    SubsetCard(Before(lt, s, x), s - {x});
  }

  lemma RankMonotone<T(!new)>(lt: (T, T) -> bool, s: set<T>, x: T, y: T)
    requires StrictOrderOn(lt, s) && x in s && y in s
    ensures lt(x, y) <==> Rank(lt, s, x) < Rank(lt, s, y)
    ensures x == y <==> Rank(lt, s, x) == Rank(lt, s, y)
  {
    if x != y {
      var (a, b) := if lt(x, y) then (x, y) else (y, x);
      assert a in Before(lt, s, b) && a !in Before(lt, s, a);
      SubsetCard(Before(lt, s, a), Before(lt, s, b));
    }
  }

  lemma {:induction false} LastExists<T(!new)>(lt: (T, T) -> bool, s: set<T>) returns (m: T)
    requires StrictOrderOn(lt, s) && s != {}
    ensures m in s && forall y | y in s && y != m :: lt(y, m)
    decreases |s|
  {
    m :| m in s;
    if s != {m} {
      var m' := LastExists(lt, s - {m});
      if lt(m, m') {
        m := m';
      }
    }
  }

  /** Ranks are onto 1..n. */
  lemma {:induction false} RankOnto<T(!new)>(lt: (T, T) -> bool, s: set<T>, k: nat)
    requires StrictOrderOn(lt, s) && 1 <= k <= |s|
    ensures exists x :: x in s && Rank(lt, s, x) == k
    decreases |s|
  {
    var m := LastExists(lt, s);
    if k == |s| {
      assert Before(lt, s, m) == s - {m};
      assert Rank(lt, s, m) == k;
    } else {
      RankOnto(lt, s - {m}, k);
      var x :| x in s - {m} && Rank(lt, s - {m}, x) == k;
      assert lt(x, m);
      assert Before(lt, s, x) == Before(lt, s - {m}, x);
    }
  }

  /** Any numbering of s with 1..n that respects the order is the ranking. */
  lemma {:induction false} RankUnique<T(!new)>(lt: (T, T) -> bool, s: set<T>, pos: map<T, int>)
    requires StrictOrderOn(lt, s) && pos.Keys == s
    requires forall x | x in s :: 1 <= pos[x] <= |s|
    requires forall x, y | x in s && y in s && lt(x, y) :: pos[x] < pos[y]
    ensures forall x | x in s :: pos[x] == Rank(lt, s, x)
    decreases |s|
  {
    if s != {} {
      var m := LastExists(lt, s);
      var rest := s - {m};
      LowerThanLast(lt, s, pos, m);
      RankUnique(lt, rest, map x | x in rest :: pos[x]);
      assert Before(lt, s, m) == rest;
      forall x | x in rest ensures pos[x] == Rank(lt, s, x) {
        assert lt(x, m);
        assert Before(lt, s, x) == Before(lt, rest, x);
      }
    }
  }

  /** The last element is numbered n, because the n elements have n numbers. */
  lemma {:induction false} LowerThanLast<T(!new)>(
    lt: (T, T) -> bool, s: set<T>, pos: map<T, int>, m: T)
    requires StrictOrderOn(lt, s) && pos.Keys == s
    requires m in s && forall y | y in s && y != m :: lt(y, m)
    requires forall x | x in s :: 1 <= pos[x] <= |s|
    requires forall x, y | x in s && y in s && lt(x, y) :: pos[x] < pos[y]
    ensures pos[m] == |s|
  {
    RankAtMost(lt, s, pos, m);
    assert Before(lt, s, m) == s - {m};
  }

  lemma {:induction false} RankAtMost<T(!new)>(lt: (T, T) -> bool, s: set<T>, pos: map<T, int>, x: T)
    requires StrictOrderOn(lt, s) && pos.Keys == s && x in s
    requires forall x | x in s :: 1 <= pos[x]
    requires forall x, y | x in s && y in s && lt(x, y) :: pos[x] < pos[y]
    ensures Rank(lt, s, x) <= pos[x]
    decreases Rank(lt, s, x)
  {
    var b := Before(lt, s, x);
    if b != {} {
      var y := LastExists(lt, b);
      RankMonotone(lt, s, y, x);
      RankAtMost(lt, s, pos, y);
      forall z | z in b - {y} ensures z in Before(lt, s, y) {
        assert lt(z, y);
      }
      assert b == Before(lt, s, y) + {y};
    }
  }

  ghost predicate HasRank<T(!new)>(lt: (T, T) -> bool, s: set<T>, group: set<T>, k: int) {
    exists x :: x in group && Rank(lt, s, x) == k
  }

  /** A group of neighbours takes one block of ranks, whatever the order inside it is. */
  lemma GroupRanks<T(!new)>(lt: (T, T) -> bool, s: set<T>, group: set<T>, below: set<T>)
    requires StrictOrderOn(lt, s) && group <= s && below <= s - group
    requires forall x, y | x in group && y in s - group :: lt(y, x) <==> y in below
    ensures forall x | x in group :: Rank(lt, s, x) == |below| + Rank(lt, group, x)
    ensures forall k: int :: |below| < k <= |below| + |group| <==> HasRank(lt, s, group, k)
  {
    forall x | x in group ensures Rank(lt, s, x) == |below| + Rank(lt, group, x) {
      assert Before(lt, s, x) == below + Before(lt, group, x);
    }
    forall k: int | |below| < k <= |below| + |group| ensures HasRank(lt, s, group, k) {
      RankOnto(lt, group, k - |below|);
      var x :| x in group && Rank(lt, group, x) == k - |below|;
      assert Rank(lt, s, x) == k;
    }
    forall x | x in group ensures |below| < Rank(lt, s, x) <= |below| + |group| {
      RankBounds(lt, group, x);
    }
  }

  ghost predicate StrictlySorted<T>(lt: (T, T) -> bool, q: seq<T>) {
    forall i, j | 0 <= i < j < |q| :: lt(q[i], q[j])
  }

  function Elements<T>(q: seq<T>): set<T> {
    set x | x in q
  }

  lemma {:induction false} DistinctCard<T>(q: seq<T>)
    requires forall i, j | 0 <= i < j < |q| :: q[i] != q[j]
    ensures |Elements(q)| == |q|
  {
    if q != [] {
      var n := |q| - 1;
      DistinctCard(q[..n]);
      assert Elements(q) == Elements(q[..n]) + {q[n]};
      assert q[n] !in q[..n];
    }
  }

  /** In a strictly sorted list the k-th element (from 0) has rank k + 1. */
  lemma SortedIndexIsRank<T(!new)>(lt: (T, T) -> bool, q: seq<T>, k: nat)
    requires StrictOrderOn(lt, Elements(q)) && StrictlySorted(lt, q) && k < |q|
    ensures Rank(lt, Elements(q), q[k]) == k + 1
  {
    var s := Elements(q);
    assert forall x :: x in s <==> x in q;
    forall i, j | 0 <= i < j < |q| ensures q[i] != q[j] {
      assert q[i] in s;
    }
    forall y | y in Before(lt, s, q[k]) ensures y in Elements(q[..k]) {
      var i :| 0 <= i < |q| && q[i] == y;
      assert i < k;
      assert q[..k][i] == y;
    }
    assert Before(lt, s, q[k]) == Elements(q[..k]);
    DistinctCard(q[..k]);
  }

  /** The elements of s from first to last. */
  ghost function Listing<T(!new)>(lt: (T, T) -> bool, s: set<T>): (q: seq<T>)
    requires StrictOrderOn(lt, s)
    ensures StrictlySorted(lt, q) && Elements(q) == s && |q| == |s|
    decreases |s|
  {
    if s == {} then []
    else
      var m := Last(lt, s);
      var q := Listing(lt, s - {m});
      assert forall x :: x in q <==> x in Elements(q);
      q + [m]
  }

  ghost function Last<T(!new)>(lt: (T, T) -> bool, s: set<T>): (m: T)
    requires StrictOrderOn(lt, s) && s != {}
    ensures m in s && forall y | y in s && y != m :: lt(y, m)
  {
    assert exists m :: m in s && forall y | y in s && y != m :: lt(y, m) by {
      var m := LastExists(lt, s);
    }
    var m :| m in s && forall y | y in s && y != m :: lt(y, m);
    m
  }

  function Image<T, U>(f: map<T, U>, s: set<T>): set<U>
    requires s <= f.Keys
  {
    set x | x in s :: f[x]
  }

  lemma {:induction false} ImageCard<T, U>(f: map<T, U>, s: set<T>)
    requires s <= f.Keys
    requires forall x, y | x in s && y in s && x != y :: f[x] != f[y]
    ensures |Image(f, s)| == |s|
    decreases |s|
  {
    if s != {} {
      var x :| x in s;
      ImageCard(f, s - {x});
      assert Image(f, s) == Image(f, s - {x}) + {f[x]};
    }
  }

  /** Renaming elements one to one, order and all, keeps every rank. */
  lemma RankImage<T(!new), U(!new)>(
    lt: (T, T) -> bool, lt': (U, U) -> bool, f: map<T, U>, s: set<T>, x: T)
    requires s <= f.Keys && x in s
    requires forall y, z | y in s && z in s && y != z :: f[y] != f[z]
    requires forall y, z | y in s && z in s :: lt'(f[y], f[z]) <==> lt(y, z)
    ensures Rank(lt', Image(f, s), f[x]) == Rank(lt, s, x)
  {
    var b := Before(lt, s, x);
    ImageCard(f, b);
    assert Before(lt', Image(f, s), f[x]) == Image(f, b);
  }
}
