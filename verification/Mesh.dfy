/** The native reranker and the sidecar's reordering: both only rearrange and drop the
    candidates they were given. */
module Mesh {
  import opened Wrappers
  import opened RawStore
  import opened Ranking

  datatype Span = Span(id: string, kind: Kind, createdAt: int)

  /** Scores a candidate's preview against the query. */
  type Scorer = (string, string) -> real

  datatype Result = Ok(spans: seq<Span>) | NothingToRank

  /** The candidates whose text is still stored, numbered and scored. */
  function Candidates(spans: seq<Span>, rows: map<string, Row>, query: string, score: Scorer, preview: string -> string)
      : seq<Scored<Span>> {
    if spans == [] then []
    else
      var n := |spans| - 1;
      var before, s := Candidates(spans[..n], rows, query, score, preview), spans[n];
      if s.id in rows then before + [Scored(n, score(query, preview(rows[s.id].bytes)), s)] else before
  }

  function Items(xs: seq<Scored<Span>>): seq<Span> {
    seq(|xs|, i requires 0 <= i < |xs| => xs[i].item)
  }

  lemma {:induction false} CandidatesAscend(
    spans: seq<Span>, rows: map<string, Row>, query: string, score: Scorer, preview: string -> string)
    ensures
      var cs := Candidates(spans, rows, query, score, preview);
      && IndexAscending(cs)
      && (forall c :: c in cs ==> c.index < |spans| && spans[c.index] == c.item && c.item.id in rows)
  {
    if spans != [] {
      CandidatesAscend(spans[..|spans| - 1], rows, query, score, preview);
    }
  }

  /** The candidates are exactly the spans whose text is stored, each with its position
      and the score of its own preview. */
  lemma {:induction false} CandidatesExact(
    spans: seq<Span>, rows: map<string, Row>, query: string, score: Scorer, preview: string -> string, c: Scored<Span>)
    ensures
      c in Candidates(spans, rows, query, score, preview) <==>
        && c.index < |spans| && c.item == spans[c.index] && c.item.id in rows
        && c.score == score(query, preview(rows[c.item.id].bytes))
  {
    if spans != [] {
      CandidatesExact(spans[..|spans| - 1], rows, query, score, preview, c);
    }
  }

  lemma OrdersAreTotal()
    ensures TotalPreorder<Scored<Span>>(ByScore)
    ensures TotalPreorder<Scored<Span>>(ByScoreThenIndex)
  {
  }

  /** NativeMesh::rerank: score what is stored, sort by score and then position, cut.
      The outcome is the first `topK` of the stable descending order by score alone. */
  method Rerank(spans: seq<Span>, rows: map<string, Row>, query: string, score: Scorer, preview: string -> string, topK: nat)
      returns (r: Result)
    ensures
      var cs := Candidates(spans, rows, query, score, preview);
      r == if cs == [] then NothingToRank else Ok(Items(Take(SortBy(cs, ByScore), topK)))
  {
    var scored: seq<Scored<Span>> := [];
    for i := 0 to |spans|
      invariant scored == Candidates(spans[..i], rows, query, score, preview)
    {
      assert spans[..i + 1][..i] == spans[..i];
      if spans[i].id in rows {
        scored := scored + [Scored(i, score(query, preview(rows[spans[i].id].bytes)), spans[i])];
      }
    }
    assert spans[..|spans|] == spans;
    if scored == [] {
      return NothingToRank;
    }
    OrdersAreTotal();
    CandidatesAscend(spans, rows, query, score, preview);
    SortIsStable(scored, ByScoreThenIndex);
    IndexTieBreakIsStable(scored, SortBy(scored, ByScoreThenIndex));
    r := Ok(Items(Take(SortBy(scored, ByScoreThenIndex), topK)));
  }

  /** The head of a descending list keeps the best: nothing left out stands above it. */
  lemma TakeKeepsTheBest<A>(cs: seq<A>, sorted: seq<A>, topK: nat, ge: (A, A) -> bool)
    requires multiset(sorted) == multiset(cs) && Descending(sorted, ge)
    ensures
      var top := Take(sorted, topK);
      && |top| == (if |cs| <= topK then |cs| else topK)
      && multiset(top) <= multiset(cs)
      && (forall t :: t in top ==> t in cs)
      && (forall c, t :: c in multiset(cs) - multiset(top) && t in top ==> ge(t, c))
  {
    var top := Take(sorted, topK);
    var rest := sorted[|top|..];
    assert sorted == top + rest;
    assert multiset(sorted) == multiset(top) + multiset(rest);
    assert |multiset(cs)| == |multiset(sorted)|;
    forall t | t in top
      ensures t in cs
    {
      assert t in multiset(cs);
    }
    forall c, t | c in multiset(cs) - multiset(top) && t in top
      ensures ge(t, c)
    {
      assert c in rest;
      var i :| 0 <= i < |top| && top[i] == t;
      var j :| 0 <= j < |rest| && rest[j] == c;
      assert sorted[i] == t && sorted[|top| + j] == c;
    }
  }

  /** Reranking never introduces or repeats a candidate, returns as many as it may, and
      leaves out none that scores above a returned one. */
  lemma RerankKeepsTheBest(spans: seq<Span>, rows: map<string, Row>, query: string, score: Scorer, preview: string -> string, topK: nat)
    ensures
      var cs := Candidates(spans, rows, query, score, preview);
      var top := Take(SortBy(cs, ByScore), topK);
      && |top| == (if |cs| <= topK then |cs| else topK)
      && multiset(top) <= multiset(cs)
      && (forall c :: c in top ==> c.index < |spans| && spans[c.index] == c.item && c.item.id in rows)
      && |Items(top)| == |top| && (forall i :: 0 <= i < |top| ==> Items(top)[i] == top[i].item)
      && (forall c, t :: c in multiset(cs) - multiset(top) && t in top ==> ByScoreThenIndex(t, c))
      && (forall i, j :: 0 <= i < j < |top| ==> ByScoreThenIndex(top[i], top[j]))
  {
    var cs := Candidates(spans, rows, query, score, preview);
    var sorted := SortBy(cs, ByScoreThenIndex);
    OrdersAreTotal();
    CandidatesAscend(spans, rows, query, score, preview);
    SortIsStable(cs, ByScoreThenIndex);
    IndexTieBreakIsStable(cs, sorted);
    TakeKeepsTheBest(cs, sorted, topK, ByScoreThenIndex);
  }

  // ---- The sidecar's ranking ----

  /** The candidate an id stands for; the last one wins when ids repeat. */
  function ById(spans: seq<Span>, id: string): Option<Span> {
    if spans == [] then None
    else if spans[|spans| - 1].id == id then Some(spans[|spans| - 1])
    else ById(spans[..|spans| - 1], id)
  }

  function ReorderByIds(spans: seq<Span>, ids: seq<string>): seq<Span> {
    if ids == [] then []
    else
      var first := ById(spans, ids[0]);
      (if first.Some? then [first.value] else []) + ReorderByIds(spans, ids[1..])
  }

  function KnownIds(spans: seq<Span>, ids: seq<string>): seq<string> {
    if ids == [] then []
    else (if exists i :: 0 <= i < |spans| && spans[i].id == ids[0] then [ids[0]] else []) + KnownIds(spans, ids[1..])
  }

  lemma {:induction false} ByIdFinds(spans: seq<Span>, id: string)
    ensures ById(spans, id).Some? <==> exists i :: 0 <= i < |spans| && spans[i].id == id
    ensures ById(spans, id).Some? ==> ById(spans, id).value in spans && ById(spans, id).value.id == id
  {
    if spans != [] {
      var n := |spans| - 1;
      ByIdFinds(spans[..n], id);
      if spans[n].id != id {
        assert forall i :: 0 <= i < n ==> spans[..n][i] == spans[i];
      }
    }
  }

  /** Where several candidates share an id, it stands for the last of them. */
  lemma {:induction false} LastOfIdStands(spans: seq<Span>, i: nat)
    requires i < |spans| && forall j :: i < j < |spans| ==> spans[j].id != spans[i].id
    ensures ById(spans, spans[i].id) == Some(spans[i])
  {
    if i < |spans| - 1 {
      LastOfIdStands(spans[..|spans| - 1], i);
    }
  }

  /** Whatever ids come back, the result holds only supplied spans, in exactly the
      order of the ids that are known. */
  lemma {:induction false} ReorderFollowsKnownIds(spans: seq<Span>, ids: seq<string>)
    ensures forall s :: s in ReorderByIds(spans, ids) ==> s in spans
    ensures IdsOf(ReorderByIds(spans, ids)) == KnownIds(spans, ids)
  {
    if ids != [] {
      ByIdFinds(spans, ids[0]);
      ReorderFollowsKnownIds(spans, ids[1..]);
    }
  }

  function IdsOf(spans: seq<Span>): seq<string> {
    seq(|spans|, i requires 0 <= i < |spans| => spans[i].id)
  }
}
