/** Reciprocal-rank fusion of ranked id lists, and min-max normalisation of the scores. */
module RecallFusion {

  type Scores = map<int, real>

  /** The smoothing constant actually used: a negative configured one counts as 0. */
  function Smoothing(k: real): (r: real)
    ensures r >= 0.0 && r >= k && (r == 0.0 || r == k)
  {
    if k < 0.0 then 0.0 else k
  }

  /** What position `rank`, counted from 1, is worth. */
  function Worth(k: real, rank: nat): (r: real)
    requires k >= 0.0 && rank >= 1
    ensures 0.0 < r <= 1.0
  {
    ReciprocalOrder(1.0, k + rank as real);
    1.0 / (k + rank as real)
  }

  lemma TimesOrder(x: real, y: real, d: real)
    requires d > 0.0
    ensures x < y <==> x * d < y * d
  {
    assert y * d - x * d == (y - x) * d;
  }

  lemma ReciprocalOrder(x: real, y: real)
    requires 0.0 < x <= y
    ensures 0.0 < 1.0 / y <= 1.0 / x
    ensures x < y ==> 1.0 / y < 1.0 / x
  {
    var p, q := 1.0 / x, 1.0 / y;
    assert p * x == 1.0 && q * y == 1.0;
    TimesOrder(0.0, q, y);
    TimesOrder(x, y, q);
    TimesOrder(p, q, x);
    TimesOrder(q, p, x);
  }

  lemma WorthFalls(k: real, rank: nat, rank': nat)
    requires k >= 0.0 && 1 <= rank <= rank'
    ensures Worth(k, rank) >= Worth(k, rank')
    ensures rank < rank' ==> Worth(k, rank) > Worth(k, rank')
  {
    ReciprocalOrder(k + rank as real, k + rank' as real);
  }

  /** What one list gives an id: the worth of every place it stands at. */
  function FromList(list: seq<int>, id: int, k: real): (r: real)
    requires k >= 0.0
    ensures r >= 0.0
    ensures r > 0.0 <==> id in list
  {
    if list == [] then 0.0
    else
      var n := |list| - 1;
      assert list == list[..n] + [list[n]];
      var before := FromList(list[..n], id, k);
      if list[n] == id then before + Worth(k, |list|) else before
  }

  function Fused(lists: seq<seq<int>>, id: int, k: real): (r: real)
    requires k >= 0.0
    ensures r >= 0.0
  {
    if lists == [] then 0.0 else Fused(lists[..|lists| - 1], id, k) + FromList(lists[|lists| - 1], id, k)
  }

  predicate Listed(lists: seq<seq<int>>, id: int) {
    exists i :: 0 <= i < |lists| && id in lists[i]
  }

  function Get(scores: Scores, id: int): real {
    if id in scores then scores[id] else 0.0
  }

  /** The fusion: exactly the listed ids, each with its fused score. */
  method Rrf(lists: seq<seq<int>>, k: real) returns (scores: Scores)
    ensures forall id :: id in scores <==> Listed(lists, id)
    ensures forall id :: id in scores ==> scores[id] == Fused(lists, id, Smoothing(k))
  {
    var c := Smoothing(k);
    scores := map[];
    for l := 0 to |lists|
      invariant forall id :: id in scores <==> Listed(lists[..l], id)
      invariant forall id :: Get(scores, id) == Fused(lists[..l], id, c)
    {
      var list := lists[l];
      ghost var before := scores;
      for i := 0 to |list|
        invariant forall id :: id in scores <==> id in before || id in list[..i]
        invariant forall id :: Get(scores, id) == Get(before, id) + FromList(list[..i], id, c)
      {
        FromListStep(list, i, c);
        scores := scores[list[i] := Get(scores, list[i]) + Worth(c, i + 1)];
      }
      assert list[..|list|] == list;
      FusedStep(lists, l, c);
      ListedGrows(lists, l);
    }
    assert lists[..|lists|] == lists;
  }

  lemma FromListStep(list: seq<int>, i: nat, k: real)
    requires k >= 0.0 && i < |list|
    ensures forall id ::
      FromList(list[..i + 1], id, k) == FromList(list[..i], id, k) + (if list[i] == id then Worth(k, i + 1) else 0.0)
  {
    assert list[..i + 1][..i] == list[..i];
  }

  lemma FusedStep(lists: seq<seq<int>>, l: nat, k: real)
    requires k >= 0.0 && l < |lists|
    ensures forall id :: Fused(lists[..l + 1], id, k) == Fused(lists[..l], id, k) + FromList(lists[l], id, k)
  {
    assert lists[..l + 1][..l] == lists[..l];
  }

  lemma ListedGrows(lists: seq<seq<int>>, l: nat)
    requires l < |lists|
    ensures forall id :: Listed(lists[..l + 1], id) <==> Listed(lists[..l], id) || id in lists[l]
  {
    var longer := lists[..l + 1];
    assert longer == lists[..l] + [lists[l]];
    forall id
      ensures Listed(longer, id) <==> Listed(lists[..l], id) || id in lists[l]
    {
      if id in lists[l] {
        assert id in longer[l];
      }
      if i :| 0 <= i < l && id in lists[..l][i] {
        assert id in longer[i];
      }
    }
  }

  // ---- Placement ----

  ghost predicate NoRepeats(list: seq<int>) {
    forall i, j :: 0 <= i < j < |list| ==> list[i] != list[j]
  }

  /** Wherever `b` stands, `a` stands there or before. */
  ghost predicate PlacedAsWell(list: seq<int>, a: int, b: int) {
    forall j :: 0 <= j < |list| && list[j] == b ==> a in list[..j + 1]
  }

  /** `id` stands at no more than one place. */
  ghost predicate AtMostOnce(list: seq<int>, id: int) {
    forall i, j :: 0 <= i < j < |list| ==> list[i] != id || list[j] != id
  }

  lemma {:induction false} WorthOfPlace(list: seq<int>, i: nat, k: real)
    requires k >= 0.0 && i < |list| && AtMostOnce(list, list[i])
    ensures FromList(list, list[i], k) == Worth(k, i + 1)
  {
    var n := |list| - 1;
    if i < n {
      WorthOfPlace(list[..n], i, k);
    }
  }

  /** In a list that does not repeat it, place i, counted from 1, is worth 1 / (k + i). */
  lemma PlaceIsReciprocal(list: seq<int>, i: nat, k: real)
    requires k >= 0.0 && 1 <= i <= |list| && AtMostOnce(list, list[i - 1])
    ensures FromList(list, list[i - 1], k) == 1.0 / (k + i as real)
  {
    WorthOfPlace(list, i - 1, k);
  }

  /** A list gives an id no less than any two of its places are worth. */
  lemma {:induction false} WorthOfTwoPlaces(list: seq<int>, i: nat, j: nat, k: real)
    requires k >= 0.0 && i < j < |list| && list[i] == list[j]
    ensures FromList(list, list[i], k) >= Worth(k, i + 1) + Worth(k, j + 1)
  {
    var n := |list| - 1;
    if j < n {
      WorthOfTwoPlaces(list[..n], i, j, k);
    } else {
      WorthOfOnePlace(list[..n], i, k);
    }
  }

  lemma {:induction false} WorthOfOnePlace(list: seq<int>, i: nat, k: real)
    requires k >= 0.0 && i < |list|
    ensures FromList(list, list[i], k) >= Worth(k, i + 1)
  {
    var n := |list| - 1;
    if i < n {
      WorthOfOnePlace(list[..n], i, k);
    }
  }

  lemma PlacedHigher(list: seq<int>, a: int, b: int, k: real)
    requires k >= 0.0 && AtMostOnce(list, b) && PlacedAsWell(list, a, b)
    ensures FromList(list, a, k) >= FromList(list, b, k)
    ensures FromList(list, a, k) > FromList(list, b, k) <==> a != b && a in list
  {
    if b in list {
      var j :| 0 <= j < |list| && list[j] == b;
      var i :| 0 <= i < j + 1 && list[..j + 1][i] == a;
      assert list[i] == a;
      EarlierPlace(list, i, j, k);
    }
  }

  lemma EarlierPlace(list: seq<int>, i: nat, j: nat, k: real)
    requires k >= 0.0 && i <= j < |list| && AtMostOnce(list, list[j])
    ensures FromList(list, list[i], k) >= FromList(list, list[j], k)
    ensures list[i] != list[j] ==> FromList(list, list[i], k) > FromList(list, list[j], k)
  {
    WorthOfOnePlace(list, i, k);
    WorthOfPlace(list, j, k);
    WorthFalls(k, i + 1, j + 1);
  }

  /** An id placed at least as well as another in every list scores at least as high, and
      higher exactly when it is another id that is listed at all, as long as no list
      repeats the other one. */
  lemma {:induction false} BetterPlacedScoresHigher(lists: seq<seq<int>>, a: int, b: int, k: real)
    requires k >= 0.0
    requires forall i :: 0 <= i < |lists| ==> AtMostOnce(lists[i], b) && PlacedAsWell(lists[i], a, b)
    ensures Fused(lists, a, k) >= Fused(lists, b, k)
    ensures Fused(lists, a, k) > Fused(lists, b, k) <==> a != b && Listed(lists, a)
  {
    if lists != [] {
      var n := |lists| - 1;
      BetterPlacedScoresHigher(lists[..n], a, b, k);
      PlacedHigher(lists[n], a, b, k);
      ListedGrows(lists, n);
      assert lists[..n + 1] == lists;
    }
  }

  /** Whatever the smoothing constant, `a` gets no less from the list than `b`. */
  ghost predicate NeverLess(list: seq<int>, a: int, b: int) {
    forall k: real :: k >= 0.0 ==> FromList(list, a, k) >= FromList(list, b, k)
  }

  /** An id that a list holds once, at least as well placed as another, never gets less
      than that one if and only if the other does not repeat. */
  lemma PlacementHoldsIffOnce(list: seq<int>, a: int, b: int)
    requires a != b && a in list && AtMostOnce(list, a) && PlacedAsWell(list, a, b)
    ensures NeverLess(list, a, b) <==> AtMostOnce(list, b)
  {
    if AtMostOnce(list, b) {
      forall k: real | k >= 0.0
        ensures FromList(list, a, k) >= FromList(list, b, k)
      {
        PlacedHigher(list, a, b, k);
      }
    } else {
      var i, j :| 0 <= i < j < |list| && list[i] == b && list[j] == b;
      RepeatsOutrank(list, a, i, j);
    }
  }

  /** Two places of `b` beat the one of `a`, once the constant is the later of the two. */
  lemma RepeatsOutrank(list: seq<int>, a: int, i: nat, j: nat)
    requires i < j < |list| && list[i] == list[j] != a && a in list && AtMostOnce(list, a)
    ensures FromList(list, a, (j + 1) as real) < FromList(list, list[i], (j + 1) as real)
  {
    var k := (j + 1) as real;
    var p :| 0 <= p < |list| && list[p] == a;
    WorthOfPlace(list, p, k);
    WorthOfTwoPlaces(list, i, j, k);
    WorthFalls(k, 1, p + 1);
    TwoPlacesOutweigh(k, i + 1, j + 1);
  }

  lemma TwoPlacesOutweigh(k: real, i: nat, j: nat)
    requires 1 <= i < j && k == j as real
    ensures Worth(k, i) + Worth(k, j) > Worth(k, 1)
  {
    WorthFalls(k, i, j);
    ReciprocalOrder(k, k + 1.0);
    assert Worth(k, j) == 1.0 / (k + k);
    Halves(k);
  }

  lemma Halves(x: real)
    requires x > 0.0
    ensures 1.0 / (x + x) + 1.0 / (x + x) == 1.0 / x
  {
    var h := 1.0 / (x + x);
    assert h * (x + x) == 1.0;
    assert (h + h) * x == 1.0;
  }

  // ---- Order of the lists ----

  lemma {:induction false} TakeOut(lists: seq<seq<int>>, i: nat, id: int, k: real)
    requires k >= 0.0 && i < |lists|
    ensures Fused(lists, id, k) == Fused(lists[..i] + lists[i + 1..], id, k) + FromList(lists[i], id, k)
  {
    var n := |lists| - 1;
    var without := lists[..i] + lists[i + 1..];
    if i == n {
      assert without == lists[..n];
    } else {
      TakeOut(lists[..n], i, id, k);
      assert without[..n - 1] == lists[..n][..i] + lists[..n][i + 1..];
      assert without[n - 1] == lists[n];
    }
  }

  /** The order in which the lists are given does not matter. */
  lemma {:induction false} ListOrderIrrelevant(lists: seq<seq<int>>, lists': seq<seq<int>>, id: int, k: real)
    requires k >= 0.0 && multiset(lists) == multiset(lists')
    ensures Fused(lists, id, k) == Fused(lists', id, k)
  {
    if lists == [] {
      assert |multiset(lists')| == 0;
    } else {
      var n := |lists| - 1;
      assert lists == lists[..n] + [lists[n]];
      assert lists[n] in multiset(lists');
      var i :| 0 <= i < |lists'| && lists'[i] == lists[n];
      RestMultiset(lists, lists', i);
      ListOrderIrrelevant(lists[..n], lists'[..i] + lists'[i + 1..], id, k);
      TakeOut(lists', i, id, k);
    }
  }

  lemma RestMultiset<A>(xs: seq<A>, ys: seq<A>, i: nat)
    requires multiset(xs) == multiset(ys) && xs != [] && i < |ys| && ys[i] == xs[|xs| - 1]
    ensures multiset(xs[..|xs| - 1]) == multiset(ys[..i] + ys[i + 1..])
  {
    WithoutOne(xs, |xs| - 1);
    WithoutOne(ys, i);
    assert xs[..|xs| - 1] + xs[|xs|..] == xs[..|xs| - 1];
  }

  lemma WithoutOne<A>(xs: seq<A>, i: nat)
    requires i < |xs|
    ensures multiset(xs[..i] + xs[i + 1..]) == multiset(xs) - multiset{xs[i]}
  {
    assert xs == xs[..i] + ([xs[i]] + xs[i + 1..]);
  }

  // ---- Normalisation ----

  /** 2 to the power of -52, the double-precision epsilon. */
  const EPSILON: real := 1.0 / 4503599627370496.0

  lemma NoneMeansEmpty(ids: set<int>)
    requires forall id :: id !in ids
    ensures ids == {}
  {
    assert forall id :: id !in ids;
  }

  lemma SomeMember(ids: set<int>)
    ensures ids == {} || exists id :: id in ids
  {
    if forall id :: id !in ids {
      NoneMeansEmpty(ids);
    }
  }

  /** An id with the smallest score among `ids`. */
  ghost function Lowest(ids: set<int>, scores: Scores): (r: int)
    requires ids != {} && ids <= scores.Keys
    ensures r in ids && forall id :: id in ids ==> scores[r] <= scores[id]
  {
    SomeMember(ids);
    var id :| id in ids;
    if ids == {id} then id
    else
      var rest := Lowest(Others(ids, id), scores);
      if scores[rest] < scores[id] then rest else id
  }

  ghost function Highest(ids: set<int>, scores: Scores): (r: int)
    requires ids != {} && ids <= scores.Keys
    ensures r in ids && forall id :: id in ids ==> scores[r] >= scores[id]
  {
    SomeMember(ids);
    var id :| id in ids;
    if ids == {id} then id
    else
      var rest := Highest(Others(ids, id), scores);
      if scores[rest] > scores[id] then rest else id
  }

  ghost function Others(ids: set<int>, id: int): (r: set<int>)
    requires id in ids && ids != {id}
    ensures r != {} && r < ids && forall x :: x in r <==> x in ids && x != id
  {
    var r := ids - {id};
    assert ids == r + {id};
    r
  }

  ghost function Spread(scores: Scores): (r: real)
    requires scores.Keys != {}
    ensures r >= 0.0
    ensures r == 0.0 <==> forall a, b :: a in scores && b in scores ==> scores[a] == scores[b]
  {
    scores[Highest(scores.Keys, scores)] - scores[Lowest(scores.Keys, scores)]
  }

  ghost function Normalize(scores: Scores): Scores {
    if scores.Keys == {} then map[]
    else
      var min, range := scores[Lowest(scores.Keys, scores)], Spread(scores);
      map id | id in scores :: if range > EPSILON then (scores[id] - min) / range else 1.0
  }

  lemma DivideOrder(x: real, y: real, d: real)
    requires d > 0.0
    ensures x < y <==> x / d < y / d
    ensures x >= 0.0 ==> x / d >= 0.0
    ensures x <= d ==> x / d <= 1.0
    ensures d / d == 1.0 && 0.0 / d == 0.0
  {
    assert (x / d) * d == x && (y / d) * d == y;
    TimesOrder(x / d, y / d, d);
    TimesOrder(x / d, 0.0, d);
    TimesOrder(1.0, x / d, d);
  }

  lemma DivideDifference(x: real, y: real, d: real)
    requires d > 0.0
    ensures x / d - y / d == (x - y) / d
  {
    var p, q := x / d, y / d;
    assert p * d == x && q * d == y;
    assert (p - q) * d == x - y;
  }

  /** Normalising keeps the ids, lands in [0, 1] and never swaps two of them. Above the
      threshold it stretches the scores evenly over the whole interval; otherwise every
      id gets 1. */
  lemma NormalizeStretches(scores: Scores)
    ensures
      var n := Normalize(scores);
      && n.Keys == scores.Keys
      && (forall a :: a in scores ==> 0.0 <= n[a] <= 1.0)
      && (forall a, b :: a in scores && b in scores && scores[a] <= scores[b] ==> n[a] <= n[b])
      && (scores.Keys != {} && Spread(scores) > EPSILON ==>
           && (exists a :: a in scores && n[a] == 0.0)
           && (exists b :: b in scores && n[b] == 1.0)
           && (forall a, b :: a in scores && b in scores ==> n[a] - n[b] == (scores[a] - scores[b]) / Spread(scores)))
      && (scores.Keys != {} && Spread(scores) <= EPSILON ==> forall a :: a in scores ==> n[a] == 1.0)
  {
    if scores.Keys != {} && Spread(scores) > EPSILON {
      var n := Normalize(scores);
      var lo, hi, range := Lowest(scores.Keys, scores), Highest(scores.Keys, scores), Spread(scores);
      DivideOrder(0.0, range, range);
      assert n[lo] == 0.0 && n[hi] == 1.0;
      forall a, b | a in scores && b in scores
        ensures 0.0 <= n[a] <= 1.0
        ensures n[a] - n[b] == (scores[a] - scores[b]) / range
        ensures scores[a] < scores[b] <==> n[a] < n[b]
      {
        DivideOrder(scores[a] - scores[lo], scores[b] - scores[lo], range);
        DivideDifference(scores[a] - scores[lo], scores[b] - scores[lo], range);
      }
    }
  }

  ghost predicate SameOrder(scores: Scores, other: Scores) {
    && scores.Keys == other.Keys
    && forall a, b :: a in scores && b in scores ==> (scores[a] < scores[b] <==> other[a] < other[b])
  }

  lemma NormalizeFlattens(scores: Scores)
    requires scores.Keys != {} && Spread(scores) <= EPSILON
    ensures Normalize(scores).Keys == scores.Keys
    ensures forall a :: a in scores ==> Normalize(scores)[a] == 1.0
  {
  }

  lemma NormalizeKeepsOrder(scores: Scores)
    requires scores.Keys != {} && Spread(scores) > EPSILON
    ensures SameOrder(scores, Normalize(scores))
  {
    var lo, n := Lowest(scores.Keys, scores), Normalize(scores);
    forall a, b | a in scores && b in scores
      ensures scores[a] < scores[b] <==> n[a] < n[b]
    {
      DivideOrder(scores[a] - scores[lo], scores[b] - scores[lo], Spread(scores));
    }
  }

  /** Normalising keeps the whole order if and only if the scores are all equal or
      spread wider than the threshold; in between, different scores become one. */
  lemma NormalizeKeepsOrderIff(scores: Scores)
    requires scores.Keys != {}
    ensures SameOrder(scores, Normalize(scores)) <==> Spread(scores) == 0.0 || Spread(scores) > EPSILON
  {
    if Spread(scores) > EPSILON {
      NormalizeKeepsOrder(scores);
    } else {
      NormalizeFlattens(scores);
      FlatKeepsOrderIff(scores, Normalize(scores));
    }
  }

  lemma FlatKeepsOrderIff(scores: Scores, flat: Scores)
    requires scores.Keys != {} && flat.Keys == scores.Keys
    requires forall a :: a in scores ==> flat[a] == 1.0
    ensures SameOrder(scores, flat) <==> Spread(scores) == 0.0
  {
    if Spread(scores) != 0.0 {
      var a, b :| a in scores && b in scores && scores[a] != scores[b];
      assert flat[a] == flat[b];
      assert scores[a] < scores[b] || scores[b] < scores[a];
    }
  }

  ghost predicate Covers(list: seq<int>, scores: Scores) {
    && (forall id :: id in scores ==> id in list)
    && (forall i :: 0 <= i < |list| ==> list[i] in scores)
  }

  ghost predicate KeepsListOrder(list: seq<int>, scores: Scores)
    requires Covers(list, scores)
  {
    forall i, j :: 0 <= i < j < |list| ==> scores[list[i]] > scores[list[j]]
  }

  /** One duplicate-free list keeps its order through fusion and normalisation exactly
      when its first and last places differ in worth by more than the threshold: a large
      smoothing constant flattens it to all ones. */
  lemma ListOrderSurvivesIff(list: seq<int>, k: real, scores: Scores)
    requires NoRepeats(list) && |list| >= 2 && k >= 0.0
    requires Covers(list, scores)
    requires forall id :: id in scores ==> scores[id] == Fused([list], id, k)
    ensures Normalize(scores).Keys == scores.Keys
    ensures
      KeepsListOrder(list, Normalize(scores)) <==> 1.0 / (k + 1.0) - 1.0 / (k + |list| as real) > 1.0 / 4503599627370496.0
  {
    ScoresOfList(list, k, scores);
    SpreadOfList(list, k, scores);
    NormalizedListOrder(list, scores);
  }

  lemma NormalizedListOrder(list: seq<int>, scores: Scores)
    requires |list| >= 2 && Covers(list, scores) && scores.Keys != {} && KeepsListOrder(list, scores)
    ensures Normalize(scores).Keys == scores.Keys
    ensures KeepsListOrder(list, Normalize(scores)) <==> Spread(scores) > EPSILON
  {
    if Spread(scores) > EPSILON {
      NormalizeKeepsOrder(scores);
      OrderCarriesOver(list, scores, Normalize(scores));
    } else {
      NormalizeFlattens(scores);
      FlatHasNoOrder(list, Normalize(scores));
    }
  }

  lemma OrderCarriesOver(list: seq<int>, scores: Scores, other: Scores)
    requires Covers(list, scores) && KeepsListOrder(list, scores) && SameOrder(scores, other)
    ensures KeepsListOrder(list, other)
  {
    forall i, j | 0 <= i < j < |list|
      ensures other[list[i]] > other[list[j]]
    {
      var a, b := list[i], list[j];
      assert a in scores && b in scores;
    }
  }

  lemma FlatHasNoOrder(list: seq<int>, scores: Scores)
    requires |list| >= 2 && Covers(list, scores)
    requires forall a :: a in scores ==> scores[a] == 1.0
    ensures !KeepsListOrder(list, scores)
  {
    var a, b := list[0], list[1];
    assert a in scores && b in scores;
    assert scores[a] == scores[b];
  }

  lemma ScoresOfList(list: seq<int>, k: real, scores: Scores)
    requires NoRepeats(list) && |list| >= 2 && k >= 0.0
    requires Covers(list, scores)
    requires forall id :: id in scores ==> scores[id] == Fused([list], id, k)
    ensures scores.Keys != {}
    ensures forall i :: 0 <= i < |list| ==> scores[list[i]] == Worth(k, i + 1)
    ensures KeepsListOrder(list, scores)
  {
    assert list[0] in scores.Keys;
    forall i | 0 <= i < |list|
      ensures scores[list[i]] == Worth(k, i + 1)
    {
      assert AtMostOnce(list, list[i]);
      WorthOfPlace(list, i, k);
      assert [list][..0] == [];
      assert Fused([list], list[i], k) == FromList(list, list[i], k);
    }
    forall i, j | 0 <= i < j < |list|
      ensures scores[list[j]] < scores[list[i]]
    {
      WorthFalls(k, i + 1, j + 1);
    }
  }

  lemma SpreadOfList(list: seq<int>, k: real, scores: Scores)
    requires |list| >= 2 && k >= 0.0 && scores.Keys != {}
    requires Covers(list, scores)
    requires forall i :: 0 <= i < |list| ==> scores[list[i]] == Worth(k, i + 1)
    ensures Spread(scores) == Worth(k, 1) - Worth(k, |list|)
  {
    var n := |list|;
    assert list[0] in scores && list[n - 1] in scores;
    var lo, hi := Lowest(scores.Keys, scores), Highest(scores.Keys, scores);
    var i :| 0 <= i < n && list[i] == lo;
    var j :| 0 <= j < n && list[j] == hi;
    WorthFalls(k, i + 1, n);
    WorthFalls(k, 1, j + 1);
  }
}
