/** Stable descending order, as the rankers sort by it, and what pins it down. */
module Ranking {

  /** `ge(x, y)`: x may stand before y. */
  ghost predicate TotalPreorder<A(!new)>(ge: (A, A) -> bool) {
    && (forall x, y :: ge(x, y) || ge(y, x))
    && (forall x, y, z :: ge(x, y) && ge(y, z) ==> ge(x, z))
  }

  /** Puts `x` in front of the first element it may stand before. */
  function Insert<A>(x: A, s: seq<A>, ge: (A, A) -> bool): seq<A> {
    if s == [] || ge(x, s[0]) then [x] + s else [s[0]] + Insert(x, s[1..], ge)
  }

  /** The stable sort. */
  function SortBy<A>(xs: seq<A>, ge: (A, A) -> bool): seq<A> {
    if xs == [] then [] else Insert(xs[0], SortBy(xs[1..], ge), ge)
  }

  function Take<A>(xs: seq<A>, k: nat): seq<A> {
    if |xs| <= k then xs else xs[..k]
  }

  // ---- What a stable sort is, without saying how ----

  predicate Same<A>(x: A, z: A, ge: (A, A) -> bool) {
    ge(x, z) && ge(z, x)
  }

  /** The elements that rank equal to `z`, in their order of appearance. */
  function Class<A>(xs: seq<A>, z: A, ge: (A, A) -> bool): seq<A> {
    if xs == [] then []
    else if Same(xs[0], z, ge) then [xs[0]] + Class(xs[1..], z, ge)
    else Class(xs[1..], z, ge)
  }

  ghost predicate Descending<A>(s: seq<A>, ge: (A, A) -> bool) {
    forall i, j :: 0 <= i < j < |s| ==> ge(s[i], s[j])
  }

  /** `ys` is `xs` in descending order, with equals in the order they came. */
  ghost predicate StableSortOf<A(!new)>(ys: seq<A>, xs: seq<A>, ge: (A, A) -> bool) {
    Descending(ys, ge) && forall z :: Class(ys, z, ge) == Class(xs, z, ge)
  }

  lemma {:induction false} InsertMultiset<A>(x: A, s: seq<A>, ge: (A, A) -> bool)
    ensures multiset(Insert(x, s, ge)) == multiset{x} + multiset(s)
  {
    if s != [] && !ge(x, s[0]) {
      InsertMultiset(x, s[1..], ge);
      assert s == [s[0]] + s[1..];
    }
  }

  lemma {:induction false} InsertDescending<A(!new)>(x: A, s: seq<A>, ge: (A, A) -> bool)
    requires TotalPreorder(ge) && Descending(s, ge)
    ensures Descending(Insert(x, s, ge), ge)
  {
    if s != [] {
      var r := Insert(x, s[1..], ge);
      if ge(x, s[0]) {
        assert forall j :: 0 <= j < |s| ==> ge(s[0], s[j]);
      } else {
        InsertDescending(x, s[1..], ge);
        InsertMultiset(x, s[1..], ge);
        forall j | 0 <= j < |r|
          ensures ge(s[0], r[j])
        {
          assert r[j] in multiset(r);
          assert r[j] == x || r[j] in s[1..];
        }
      }
    }
  }

  lemma {:induction false} InsertClass<A(!new)>(x: A, s: seq<A>, z: A, ge: (A, A) -> bool)
    requires TotalPreorder(ge)
    ensures Class(Insert(x, s, ge), z, ge) == if Same(x, z, ge) then [x] + Class(s, z, ge) else Class(s, z, ge)
  {
    var r := Insert(x, s, ge);
    if s == [] || ge(x, s[0]) {
      assert r[1..] == s;
    } else {
      InsertClass(x, s[1..], z, ge);
      assert r[1..] == Insert(x, s[1..], ge);
      assert Same(x, z, ge) ==> !Same(s[0], z, ge);
    }
  }

  /** The sort used here is a stable sort. */
  lemma {:induction false} SortIsStable<A(!new)>(xs: seq<A>, ge: (A, A) -> bool)
    requires TotalPreorder(ge)
    ensures StableSortOf(SortBy(xs, ge), xs, ge)
    ensures multiset(SortBy(xs, ge)) == multiset(xs)
  {
    if xs != [] {
      var rest := SortBy(xs[1..], ge);
      SortIsStable(xs[1..], ge);
      InsertDescending(xs[0], rest, ge);
      InsertMultiset(xs[0], rest, ge);
      assert xs == [xs[0]] + xs[1..];
      forall z
        ensures Class(SortBy(xs, ge), z, ge) == Class(xs, z, ge)
      {
        InsertClass(xs[0], rest, z, ge);
      }
    }
  }

  lemma {:induction false} ClassMembers<A>(xs: seq<A>, z: A, ge: (A, A) -> bool)
    ensures Class(xs, z, ge) == [] <==> forall i :: 0 <= i < |xs| ==> !Same(xs[i], z, ge)
  {
    if xs != [] {
      ClassMembers(xs[1..], z, ge);
      assert forall i :: 0 < i < |xs| ==> xs[i] == xs[1..][i - 1];
    }
  }

  /** Two stable sorts of the same list are the same list. */
  lemma {:induction false} StableSortUnique<A(!new)>(ys: seq<A>, zs: seq<A>, ge: (A, A) -> bool)
    requires TotalPreorder(ge) && Descending(ys, ge) && Descending(zs, ge)
    requires forall z :: Class(ys, z, ge) == Class(zs, z, ge)
    ensures ys == zs
  {
    if ys == [] {
      if zs != [] {
        ClassMembers(zs, zs[0], ge);
      }
    } else {
      ClassMembers(ys, ys[0], ge);
      ClassMembers(zs, ys[0], ge);
      assert Class(ys, ys[0], ge) == Class(zs, ys[0], ge);
      HeadsAgree(ys, zs, ge);
      forall z
        ensures Class(ys[1..], z, ge) == Class(zs[1..], z, ge)
      {
        assert Class(ys, z, ge) == Class(zs, z, ge);
        if Same(ys[0], z, ge) {
          assert Class(ys[1..], z, ge) == Class(ys, z, ge)[1..];
        }
      }
      StableSortUnique(ys[1..], zs[1..], ge);
      assert ys == [ys[0]] + ys[1..] && zs == [zs[0]] + zs[1..];
    }
  }

  lemma HeadsAgree<A(!new)>(ys: seq<A>, zs: seq<A>, ge: (A, A) -> bool)
    requires TotalPreorder(ge) && Descending(ys, ge) && Descending(zs, ge) && ys != []
    requires forall z :: Class(ys, z, ge) == Class(zs, z, ge)
    requires exists i :: 0 <= i < |zs| && Same(zs[i], ys[0], ge)
    ensures zs != [] && zs[0] == ys[0]
  {
    var i :| 0 <= i < |zs| && Same(zs[i], ys[0], ge);
    ClassMembers(ys, zs[0], ge);
    ClassMembers(zs, zs[0], ge);
    assert Class(ys, zs[0], ge) == Class(zs, zs[0], ge);
    var j :| 0 <= j < |ys| && Same(ys[j], zs[0], ge);
    assert ge(zs[0], zs[i]) && ge(ys[0], ys[j]);
    assert Same(zs[0], ys[0], ge);
    assert Class(ys, ys[0], ge) == Class(zs, ys[0], ge);
    assert Class(ys, ys[0], ge)[0] == ys[0] && Class(zs, ys[0], ge)[0] == zs[0];
  }

  /** Orders that agree on every element and a later one sort alike: a stable sort asks
      nothing else. */
  lemma {:induction false} SortCongruence<A>(xs: seq<A>, ge: (A, A) -> bool, ge': (A, A) -> bool)
    requires forall i, j :: 0 <= i < j < |xs| ==> (ge(xs[i], xs[j]) <==> ge'(xs[i], xs[j]))
    ensures SortBy(xs, ge) == SortBy(xs, ge')
    ensures multiset(SortBy(xs, ge)) == multiset(xs)
  {
    if xs != [] {
      var rest := SortBy(xs[1..], ge);
      SortCongruence(xs[1..], ge, ge');
      assert xs == [xs[0]] + xs[1..];
      forall y | y in rest
        ensures ge(xs[0], y) <==> ge'(xs[0], y)
      {
        assert y in multiset(xs[1..]);
        var j :| 0 <= j < |xs[1..]| && xs[1..][j] == y;
        assert xs[j + 1] == y;
      }
      InsertCongruence(xs[0], rest, ge, ge');
      InsertMultiset(xs[0], rest, ge);
    }
  }

  lemma {:induction false} InsertCongruence<A>(x: A, s: seq<A>, ge: (A, A) -> bool, ge': (A, A) -> bool)
    requires forall y :: y in s ==> (ge(x, y) <==> ge'(x, y))
    ensures Insert(x, s, ge) == Insert(x, s, ge')
  {
    if s != [] {
      InsertCongruence(x, s[1..], ge, ge');
    }
  }

  // ---- Sorting with an index as tie-breaker ----

  /** A scored item with its position in the input. */
  datatype Scored<A> = Scored(index: nat, score: real, item: A)

  predicate ByScore<A>(x: Scored<A>, y: Scored<A>) {
    x.score >= y.score
  }

  predicate ByScoreThenIndex<A>(x: Scored<A>, y: Scored<A>) {
    x.score > y.score || (x.score == y.score && x.index <= y.index)
  }

  ghost predicate IndexAscending<A>(xs: seq<Scored<A>>) {
    forall i, j :: 0 <= i < j < |xs| ==> xs[i].index < xs[j].index
  }

  lemma LeastComesFirst<A>(xs: seq<Scored<A>>, ys: seq<Scored<A>>)
    requires IndexAscending(xs) && IndexAscending(ys) && multiset(xs) == multiset(ys) && xs != []
    ensures ys != [] && xs[0] == ys[0]
  {
    assert xs[0] in multiset(ys);
    var i :| 0 <= i < |ys| && ys[i] == xs[0];
    assert ys[0] in multiset(xs);
    var j :| 0 <= j < |xs| && xs[j] == ys[0];
  }

  lemma TailMultiset<A>(xs: seq<A>)
    requires xs != []
    ensures multiset(xs[1..]) == multiset(xs) - multiset{xs[0]}
  {
    assert xs == [xs[0]] + xs[1..];
  }

  lemma {:induction false} AscendingUnique<A>(xs: seq<Scored<A>>, ys: seq<Scored<A>>)
    requires IndexAscending(xs) && IndexAscending(ys) && multiset(xs) == multiset(ys)
    ensures xs == ys
  {
    if xs == [] {
      assert |multiset(ys)| == 0;
    } else {
      LeastComesFirst(xs, ys);
      TailMultiset(xs);
      TailMultiset(ys);
      AscendingUnique(xs[1..], ys[1..]);
      assert ys == [ys[0]] + ys[1..];
    }
  }

  lemma {:induction false} ClassMultiset<A>(xs: seq<A>, z: A, ge: (A, A) -> bool, e: A)
    ensures multiset(Class(xs, z, ge))[e] == if Same(e, z, ge) then multiset(xs)[e] else 0
  {
    if xs != [] {
      ClassMultiset(xs[1..], z, ge, e);
      assert xs == [xs[0]] + xs[1..];
    }
  }

  lemma SameMultisetSameClasses<A(!new)>(xs: seq<A>, ys: seq<A>, z: A, ge: (A, A) -> bool)
    requires multiset(xs) == multiset(ys)
    ensures multiset(Class(xs, z, ge)) == multiset(Class(ys, z, ge))
  {
    var c, d := multiset(Class(xs, z, ge)), multiset(Class(ys, z, ge));
    forall e
      ensures c[e] == d[e]
    {
      ClassMultiset(xs, z, ge, e);
      ClassMultiset(ys, z, ge, e);
    }
    assert c <= d && d <= c;
  }

  /** Among equal scores, indices ascend. */
  ghost predicate TiesAscend<A>(xs: seq<Scored<A>>) {
    forall i, j :: 0 <= i < j < |xs| && xs[i].score == xs[j].score ==> xs[i].index < xs[j].index
  }

  lemma {:induction false} ClassWithin<A>(xs: seq<Scored<A>>, z: Scored<A>)
    ensures forall e :: e in Class(xs, z, ByScore) ==> e in xs && e.score == z.score
  {
    if xs != [] {
      ClassWithin(xs[1..], z);
    }
  }

  lemma {:induction false} ClassAscending<A>(xs: seq<Scored<A>>, z: Scored<A>)
    requires TiesAscend(xs)
    ensures IndexAscending(Class(xs, z, ByScore))
  {
    if xs != [] {
      var tail := xs[1..];
      var c := Class(tail, z, ByScore);
      ClassAscending(tail, z);
      ClassWithin(tail, z);
      forall i | 0 <= i < |c| && xs[0].score == z.score
        ensures xs[0].index < c[i].index
      {
        assert c[i] in tail;
        var k :| 0 <= k < |tail| && tail[k] == c[i];
        assert xs[k + 1] == c[i];
      }
    }
  }

  lemma ClassesAgree<A(!new)>(xs: seq<Scored<A>>, ys: seq<Scored<A>>, z: Scored<A>)
    requires TiesAscend(xs) && TiesAscend(ys) && multiset(ys) == multiset(xs)
    ensures Class(ys, z, ByScore) == Class(xs, z, ByScore)
  {
    ClassAscending(xs, z);
    ClassAscending(ys, z);
    SameMultisetSameClasses(xs, ys, z, ByScore);
    AscendingUnique(Class(ys, z, ByScore), Class(xs, z, ByScore));
  }

  /** Whatever algorithm sorts by score and then index, on candidates numbered in their
      order of arrival the outcome is the stable sort by score alone. */
  lemma IndexTieBreakIsStable<A(!new)>(xs: seq<Scored<A>>, ys: seq<Scored<A>>)
    requires IndexAscending(xs) && multiset(ys) == multiset(xs) && Descending(ys, ByScoreThenIndex)
    ensures ys == SortBy(xs, ByScore)
  {
    SortIsStable(xs, ByScore);
    DistinctIndices(xs, ys);
    assert TiesAscend(xs) && TiesAscend(ys);
    forall z
      ensures Class(ys, z, ByScore) == Class(xs, z, ByScore)
    {
      ClassesAgree(xs, ys, z);
    }
    StableSortUnique(ys, SortBy(xs, ByScore), ByScore);
  }

  /** A permutation of a list with distinct indices has distinct indices. */
  lemma DistinctIndices<A>(xs: seq<Scored<A>>, ys: seq<Scored<A>>)
    requires IndexAscending(xs) && multiset(ys) == multiset(xs)
    ensures forall i, j :: 0 <= i < j < |ys| ==> ys[i].index != ys[j].index
  {
    forall i, j | 0 <= i < j < |ys| && ys[i].index == ys[j].index
      ensures false
    {
      assert ys[i] in multiset(xs) && ys[j] in multiset(xs);
      var k :| 0 <= k < |xs| && xs[k] == ys[i];
      var l :| 0 <= l < |xs| && xs[l] == ys[j];
      assert k == l;
      TwiceIn(ys, i, j);
      OnceIn(xs, k);
    }
  }

  lemma TwiceIn<A>(ys: seq<A>, i: nat, j: nat)
    requires i < j < |ys| && ys[i] == ys[j]
    ensures multiset(ys)[ys[i]] >= 2
  {
    assert ys == ys[..i] + [ys[i]] + ys[i + 1..j] + [ys[j]] + ys[j + 1..];
  }

  lemma OnceIn<A>(xs: seq<Scored<A>>, k: nat)
    requires IndexAscending(xs) && k < |xs|
    ensures multiset(xs)[xs[k]] == 1
  {
    assert xs == xs[..k] + [xs[k]] + xs[k + 1..];
    assert xs[k] !in xs[..k] && xs[k] !in xs[k + 1..];
  }
}
