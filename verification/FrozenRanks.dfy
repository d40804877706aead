/** Frozen nodes: the experience-weighted rank overlay, waking nodes in rank order, and
    freezing and thawing a checkpoint of their ranks and of raw-store anchors. */
module FrozenRanks {
  import opened RawStore
  import opened Ranking

  datatype Node = Node(name: string, rank: real, knowledge: string)

  const RANK_MAX := 2.0

  function Clamp(r: real): real {
    if r < 0.0 then 0.0 else if r > RANK_MAX then RANK_MAX else r
  }

  /** Trigger match of a text against a node, and distinct query terms found in its
      knowledge. */
  datatype Matcher = Matcher(hits: (string, Node) -> bool, overlap: (string, string) -> nat)

  type Overlay = map<string, real>

  /** The experience overlay when present, else the static prior. */
  function EffectiveRank(ranks: Overlay, n: Node): real {
    if n.name in ranks then ranks[n.name] else n.rank
  }

  /** New ranks of the nodes that `text` hits, each computed from the ranks before. */
  function Adjusted(nodes: seq<Node>, ranks: Overlay, m: Matcher, text: string, delta: real): Overlay {
    if nodes == [] then map[]
    else
      var before, n := Adjusted(nodes[..|nodes| - 1], ranks, m, text, delta), nodes[|nodes| - 1];
      if m.hits(text, n) then before[n.name := Clamp(EffectiveRank(ranks, n) + delta)] else before
  }

  function HitNames(nodes: seq<Node>, m: Matcher, text: string): seq<string> {
    if nodes == [] then []
    else
      var before, n := HitNames(nodes[..|nodes| - 1], m, text), nodes[|nodes| - 1];
      if m.hits(text, n) then before + [n.name] else before
  }

  predicate Known(nodes: seq<Node>, name: string) {
    exists i :: 0 <= i < |nodes| && nodes[i].name == name
  }

  /** What `with_overlay` keeps of a loaded file. */
  function Filtered(nodes: seq<Node>, loaded: Overlay): Overlay {
    map name | name in loaded && Known(nodes, name) && 0.0 <= loaded[name] <= RANK_MAX :: loaded[name]
  }

  /** Every overlay value belongs to a node and lies in [0, RANK_MAX]. */
  ghost predicate InRange(nodes: seq<Node>, ranks: Overlay) {
    forall name :: name in ranks ==> Known(nodes, name) && 0.0 <= ranks[name] <= RANK_MAX
  }

  datatype Activation = Activation(name: string, rank: real)

  class FrozenStore {
    const nodes: seq<Node>
    var ranks: Overlay

    ghost predicate Valid()
      reads this
    {
      InRange(nodes, ranks)
    }

    constructor (nodes: seq<Node>, loaded: Overlay)
      ensures Valid() && this.nodes == nodes && ranks == Filtered(nodes, loaded)
    {
      this.nodes := nodes;
      ranks := Filtered(nodes, loaded);
    }

    method Reweight(m: Matcher, text: string, delta: real) returns (names: seq<string>)
      requires Valid()
      modifies this
      ensures Valid() && ranks == old(ranks) + Adjusted(nodes, old(ranks), m, text, delta)
      ensures names == HitNames(nodes, m, text)
    {
      names := [];
      var hits: Overlay := map[];
      for i := 0 to |nodes|
        invariant hits == Adjusted(nodes[..i], ranks, m, text, delta)
        invariant names == HitNames(nodes[..i], m, text)
        invariant InRange(nodes, hits)
      {
        assert nodes[..i + 1][..i] == nodes[..i];
        if m.hits(text, nodes[i]) {
          assert Known(nodes, nodes[i].name);
          hits := hits[nodes[i].name := Clamp(EffectiveRank(ranks, nodes[i]) + delta)];
          names := names + [nodes[i].name];
        }
      }
      assert nodes[..|nodes|] == nodes;
      ranks := ranks + hits;
    }

    method SetRank(name: string, rank: real) returns (ok: bool)
      requires Valid()
      modifies this
      ensures Valid() && ok == Known(nodes, name)
      ensures ranks == if ok then old(ranks)[name := Clamp(rank)] else old(ranks)
    {
      ok := Known(nodes, name);
      if ok {
        ranks := ranks[name := Clamp(rank)];
      }
    }

    /** Restores saved activations, one by one. */
    method Thaw(saved: seq<Activation>) returns (restored: nat)
      requires Valid()
      modifies this
      ensures Valid() && ranks == Thawed(nodes, old(ranks), saved)
      ensures restored == |KnownOnly(nodes, saved)|
    {
      restored := 0;
      for i := 0 to |saved|
        invariant Valid() && ranks == Thawed(nodes, old(ranks), saved[..i])
        invariant restored == |KnownOnly(nodes, saved[..i])|
      {
        assert saved[..i + 1][..i] == saved[..i];
        var ok := SetRank(saved[i].name, saved[i].rank);
        if ok {
          restored := restored + 1;
        }
      }
      assert saved[..|saved|] == saved;
    }

    /** The candidates a prompt wakes, best first, at most `topK`. */
    method Wake(m: Matcher, prompt: string, topK: nat) returns (woken: seq<Node>)
      ensures woken == Take(SortBy(Woken(nodes, m, prompt), ByBlend(ranks, m, prompt)), topK)
    {
      var cands: seq<Node> := [];
      for i := 0 to |nodes|
        invariant cands == Woken(nodes[..i], m, prompt)
      {
        assert nodes[..i + 1][..i] == nodes[..i];
        if m.hits(prompt, nodes[i]) {
          cands := cands + [nodes[i]];
        }
      }
      assert nodes[..|nodes|] == nodes;
      woken := Take(SortBy(cands, ByBlend(ranks, m, prompt)), topK);
    }
  }

  function Woken(nodes: seq<Node>, m: Matcher, prompt: string): seq<Node> {
    if nodes == [] then []
    else
      var before, n := Woken(nodes[..|nodes| - 1], m, prompt), nodes[|nodes| - 1];
      if m.hits(prompt, n) then before + [n] else before
  }

  /** The order `wake` sorts by: overlap plus a quarter of the rank. */
  function ByBlend(ranks: Overlay, m: Matcher, prompt: string): (Node, Node) -> bool {
    (x: Node, y: Node) =>
      m.overlap(prompt, x.knowledge) as real + 0.25 * EffectiveRank(ranks, x) >=
      m.overlap(prompt, y.knowledge) as real + 0.25 * EffectiveRank(ranks, y)
  }

  /** The order it is meant to be: overlap first, rank only among equals. */
  function ByOverlapThenRank(ranks: Overlay, m: Matcher, prompt: string): (Node, Node) -> bool {
    (x: Node, y: Node) =>
      m.overlap(prompt, x.knowledge) > m.overlap(prompt, y.knowledge) ||
      (m.overlap(prompt, x.knowledge) == m.overlap(prompt, y.knowledge) && EffectiveRank(ranks, x) >= EffectiveRank(ranks, y))
  }

  function KnownOnly(nodes: seq<Node>, saved: seq<Activation>): seq<Activation> {
    if saved == [] then []
    else
      var before, a := KnownOnly(nodes, saved[..|saved| - 1]), saved[|saved| - 1];
      if Known(nodes, a.name) then before + [a] else before
  }

  function Thawed(nodes: seq<Node>, ranks: Overlay, saved: seq<Activation>): Overlay {
    if saved == [] then ranks
    else
      var before, a := Thawed(nodes, ranks, saved[..|saved| - 1]), saved[|saved| - 1];
      if Known(nodes, a.name) then before[a.name := Clamp(a.rank)] else before
  }

  /** The activations a freeze saves: every node the prompt wakes, with its live rank. */
  function Freeze(nodes: seq<Node>, ranks: Overlay, m: Matcher, prompt: string): seq<Activation> {
    var woken := Take(SortBy(Woken(nodes, m, prompt), ByBlend(ranks, m, prompt)), if nodes == [] then 1 else |nodes|);
    seq(|woken|, i requires 0 <= i < |woken| => Activation(woken[i].name, EffectiveRank(ranks, woken[i])))
  }

  /** What may happen to the overlay between a freeze and a thaw. */
  datatype Op = Reweigh(text: string, delta: real) | Assign(name: string, rank: real)

  function ApplyOp(nodes: seq<Node>, m: Matcher, ranks: Overlay, op: Op): Overlay {
    match op
    case Reweigh(text, delta) => ranks + Adjusted(nodes, ranks, m, text, delta)
    case Assign(name, rank) => if Known(nodes, name) then ranks[name := Clamp(rank)] else ranks
  }

  function RunOps(nodes: seq<Node>, m: Matcher, ranks: Overlay, ops: seq<Op>): Overlay {
    if ops == [] then ranks
    else ApplyOp(nodes, m, RunOps(nodes, m, ranks, ops[..|ops| - 1]), ops[|ops| - 1])
  }

  // ---- What the readings mean ----

  function Distance(x: real, y: real): real {
    if x < y then y - x else x - y
  }

  /** Clamping gives the rank of [0, 2] that is nearest. */
  lemma ClampNearest(r: real, x: real)
    requires 0.0 <= x <= 2.0
    ensures 0.0 <= Clamp(r) <= 2.0 && Distance(Clamp(r), r) <= Distance(x, r)
  {
  }

  /** Of a loaded file exactly the values in range of known names are kept, as they are. */
  lemma FilteredExact(nodes: seq<Node>, loaded: Overlay, name: string)
    ensures name in Filtered(nodes, loaded) <==> name in loaded && Known(nodes, name) && 0.0 <= loaded[name] <= 2.0
    ensures name in Filtered(nodes, loaded) ==> Filtered(nodes, loaded)[name] == loaded[name]
  {
  }

  /** Nodes wake in their order. */
  lemma {:induction false} WokenInOrder(a: seq<Node>, b: seq<Node>, m: Matcher, text: string)
    ensures Woken(a + b, m, text) == Woken(a, m, text) + Woken(b, m, text)
  {
    if b == [] {
      assert a + b == a;
    } else {
      var n := |b| - 1;
      WokenInOrder(a, b[..n], m, text);
      assert (a + b)[..|a + b| - 1] == a + b[..n];
    }
  }

  lemma WokenOne(n: Node, m: Matcher, text: string)
    ensures Woken([n], m, text) == if m.hits(text, n) then [n] else []
  {
    assert [n][..0] == [];
  }

  /** The names a reweight returns are those of the nodes the text hits, in order. */
  lemma {:induction false} HitNamesAreWoken(nodes: seq<Node>, m: Matcher, text: string)
    ensures
      var woken := Woken(nodes, m, text);
      HitNames(nodes, m, text) == seq(|woken|, i requires 0 <= i < |woken| => woken[i].name)
  {
    if nodes != [] {
      HitNamesAreWoken(nodes[..|nodes| - 1], m, text);
    }
  }

  /** Setting a rank moves the node of that name to it, clamped, and no other; a node that
      was never set has its static prior. */
  lemma AssignExact(nodes: seq<Node>, m: Matcher, ranks: Overlay, name: string, rank: real, n: Node)
    requires n in nodes
    ensures EffectiveRank(ApplyOp(nodes, m, ranks, Assign(name, rank)), n) ==
      if n.name == name then Clamp(rank) else EffectiveRank(ranks, n)
    ensures EffectiveRank(map[], n) == n.rank
  {
  }

  /** Thawing counts the activations of known nodes, one by one. */
  lemma {:induction false} KnownInOrder(nodes: seq<Node>, a: seq<Activation>, b: seq<Activation>)
    ensures KnownOnly(nodes, a + b) == KnownOnly(nodes, a) + KnownOnly(nodes, b)
  {
    if b == [] {
      assert a + b == a;
    } else {
      var n := |b| - 1;
      KnownInOrder(nodes, a, b[..n]);
      assert (a + b)[..|a + b| - 1] == a + b[..n];
      assert (a + b)[|a + b| - 1] == b[n];
    }
  }

  lemma KnownOne(nodes: seq<Node>, x: Activation)
    ensures KnownOnly(nodes, [x]) == if Known(nodes, x.name) then [x] else []
  {
    assert [x][..0] == [];
  }

  /** Of several activations of one name the last decides. */
  lemma {:induction false} LastActivationWins(nodes: seq<Node>, ranks: Overlay, saved: seq<Activation>, i: nat)
    requires i < |saved| && Known(nodes, saved[i].name)
    requires forall j :: i < j < |saved| ==> saved[j].name != saved[i].name
    ensures
      var r := Thawed(nodes, ranks, saved);
      saved[i].name in r && r[saved[i].name] == Clamp(saved[i].rank)
  {
    if i < |saved| - 1 {
      LastActivationWins(nodes, ranks, saved[..|saved| - 1], i);
    }
  }

  // ---- The overlay stays in range ----

  lemma {:induction false} AdjustedInRange(nodes: seq<Node>, all: seq<Node>, ranks: Overlay, m: Matcher, text: string, delta: real)
    requires nodes <= all
    ensures InRange(all, Adjusted(nodes, ranks, m, text, delta))
  {
    if nodes != [] {
      var n := |nodes| - 1;
      AdjustedInRange(nodes[..n], all, ranks, m, text, delta);
      assert all[n] == nodes[n];
    }
  }

  /** From whatever was loaded, every sequence of updates keeps the overlay's values in
      [0, RANK_MAX] and its keys among the nodes; and what is then written out and loaded
      again is the same overlay. */
  lemma {:induction false} OpsKeepInRange(nodes: seq<Node>, m: Matcher, loaded: Overlay, ops: seq<Op>)
    ensures InRange(nodes, RunOps(nodes, m, Filtered(nodes, loaded), ops))
    ensures
      var ranks := RunOps(nodes, m, Filtered(nodes, loaded), ops);
      Filtered(nodes, ranks) == ranks
  {
    if ops != [] {
      OpsKeepInRange(nodes, m, loaded, ops[..|ops| - 1]);
      var before := RunOps(nodes, m, Filtered(nodes, loaded), ops[..|ops| - 1]);
      if ops[|ops| - 1].Reweigh? {
        AdjustedInRange(nodes, nodes, before, m, ops[|ops| - 1].text, ops[|ops| - 1].delta);
      }
    }
  }

  /** A reweight moves each hit node to its clamped sum and no other node at all. */
  lemma {:induction false} AdjustedExact(nodes: seq<Node>, ranks: Overlay, m: Matcher, text: string, delta: real, n: Node)
    requires UniqueNames(nodes) && n in nodes
    ensures EffectiveRank(ranks + Adjusted(nodes, ranks, m, text, delta), n) ==
      if m.hits(text, n) then Clamp(EffectiveRank(ranks, n) + delta) else EffectiveRank(ranks, n)
  {
    AdjustedAt(nodes, ranks, m, text, delta, n);
  }

  lemma {:induction false} AdjustedAt(nodes: seq<Node>, ranks: Overlay, m: Matcher, text: string, delta: real, n: Node)
    requires UniqueNames(nodes) && (n in nodes || !Known(nodes, n.name))
    ensures
      var r := Adjusted(nodes, ranks, m, text, delta);
      && (n.name in r <==> n in nodes && m.hits(text, n))
      && (n.name in r ==> r[n.name] == Clamp(EffectiveRank(ranks, n) + delta))
  {
    if nodes != [] {
      var init, last := nodes[..|nodes| - 1], nodes[|nodes| - 1];
      assert nodes == init + [last];
      assert n in nodes <==> n in init || n == last;
      if n in nodes {
        NameMeansNode(nodes, n, last);
        NotKnownBefore(nodes, n);
      } else {
        assert last.name != n.name && !Known(init, n.name);
      }
      AdjustedAt(init, ranks, m, text, delta, n);
    }
  }

  ghost predicate UniqueNames(nodes: seq<Node>) {
    forall i, j :: 0 <= i < j < |nodes| ==> nodes[i].name != nodes[j].name
  }

  lemma NameMeansNode(nodes: seq<Node>, n: Node, k: Node)
    requires UniqueNames(nodes) && n in nodes && k in nodes
    ensures n.name == k.name ==> n == k
  {
  }

  lemma NotKnownBefore(nodes: seq<Node>, n: Node)
    requires UniqueNames(nodes) && n in nodes
    ensures n in nodes[..|nodes| - 1] || !Known(nodes[..|nodes| - 1], n.name)
  {
    var init := nodes[..|nodes| - 1];
    if n !in init {
      assert n == nodes[|nodes| - 1];
      forall i | 0 <= i < |init|
        ensures init[i].name != n.name
      {
        assert init[i] == nodes[i];
      }
    }
  }

  // ---- Freeze and thaw ----

  lemma {:induction false} WokenExact(nodes: seq<Node>, m: Matcher, prompt: string)
    ensures forall n :: n in Woken(nodes, m, prompt) <==> n in nodes && m.hits(prompt, n)
    ensures |Woken(nodes, m, prompt)| <= |nodes|
  {
    if nodes != [] {
      WokenExact(nodes[..|nodes| - 1], m, prompt);
      assert nodes == nodes[..|nodes| - 1] + [nodes[|nodes| - 1]];
    }
  }

  lemma BlendIsTotal(ranks: Overlay, m: Matcher, prompt: string)
    ensures TotalPreorder(ByBlend(ranks, m, prompt))
    ensures TotalPreorder(ByOverlapThenRank(ranks, m, prompt))
  {
  }

  /** A freeze saves one activation per woken node, with its live rank. */
  lemma FreezeExact(nodes: seq<Node>, ranks: Overlay, m: Matcher, prompt: string)
    ensures |Freeze(nodes, ranks, m, prompt)| == |Woken(nodes, m, prompt)|
    ensures
      var sorted := SortBy(Woken(nodes, m, prompt), ByBlend(ranks, m, prompt));
      forall i :: 0 <= i < |Freeze(nodes, ranks, m, prompt)| ==>
        i < |sorted| && Freeze(nodes, ranks, m, prompt)[i] == Activation(sorted[i].name, EffectiveRank(ranks, sorted[i]))
    ensures forall a :: a in Freeze(nodes, ranks, m, prompt) <==>
      exists n :: n in nodes && m.hits(prompt, n) && a == Activation(n.name, EffectiveRank(ranks, n))
  {
    var cands := Woken(nodes, m, prompt);
    var sorted := SortBy(cands, ByBlend(ranks, m, prompt));
    WokenExact(nodes, m, prompt);
    BlendIsTotal(ranks, m, prompt);
    SortIsStable(cands, ByBlend(ranks, m, prompt));
    assert |multiset(sorted)| == |multiset(cands)|;
    forall n
      ensures n in sorted <==> n in nodes && m.hits(prompt, n)
    {
      assert n in multiset(sorted) <==> n in multiset(cands);
    }
    var saved := Freeze(nodes, ranks, m, prompt);
    assert |saved| == |sorted|;
    forall n | n in nodes && m.hits(prompt, n)
      ensures Activation(n.name, EffectiveRank(ranks, n)) in saved
    {
      var i :| 0 <= i < |sorted| && sorted[i] == n;
      assert saved[i] == Activation(n.name, EffectiveRank(ranks, n));
    }
    forall a | a in saved
      ensures exists n :: n in nodes && m.hits(prompt, n) && a == Activation(n.name, EffectiveRank(ranks, n))
    {
      var i :| 0 <= i < |saved| && saved[i] == a;
      assert sorted[i] in sorted;
    }
  }

  /** Thawing sets a name to the clamped rank of an activation saved for it, and leaves
      every name without one alone. */
  lemma {:induction false} ThawedAt(nodes: seq<Node>, ranks: Overlay, saved: seq<Activation>, name: string)
    requires Known(nodes, name)
    ensures
      var r := Thawed(nodes, ranks, saved);
      && ((exists a :: a in saved && a.name == name) ==>
           name in r && exists a :: a in saved && a.name == name && r[name] == Clamp(a.rank))
      && ((forall a :: a in saved ==> a.name != name) ==>
           (name in r <==> name in ranks) && (name in ranks ==> r[name] == ranks[name]))
  {
    if saved != [] {
      var init, last := saved[..|saved| - 1], saved[|saved| - 1];
      assert saved == init + [last];
      ThawedAt(nodes, ranks, init, name);
      if last.name == name {
        assert last in saved;
      } else if exists a :: a in saved && a.name == name {
        var a :| a in saved && a.name == name;
        assert a in init;
        var b :| b in init && b.name == name && Thawed(nodes, ranks, init)[name] == Clamp(b.rank);
        assert b in saved;
      } else {
        assert forall a :: a in init ==> a in saved;
      }
    }
  }

  /** With unique names, whatever happened in between: after the thaw every activated
      node has its saved rank, clamped, and every other node the rank it had before the
      thaw. */
  lemma ThawSetsActivatedOnly(
    nodes: seq<Node>, m: Matcher, ranks: Overlay, prompt: string, between: Overlay, n: Node)
    requires UniqueNames(nodes) && n in nodes
    ensures
      var after := Thawed(nodes, between, Freeze(nodes, ranks, m, prompt));
      EffectiveRank(after, n) ==
        if m.hits(prompt, n) then Clamp(EffectiveRank(ranks, n)) else EffectiveRank(between, n)
  {
    var saved := Freeze(nodes, ranks, m, prompt);
    FreezeExact(nodes, ranks, m, prompt);
    assert Known(nodes, n.name);
    ThawedAt(nodes, between, saved, n.name);
    forall a | a in saved && a.name == n.name
      ensures m.hits(prompt, n) && a.rank == EffectiveRank(ranks, n)
    {
      var k :| k in nodes && m.hits(prompt, k) && a == Activation(k.name, EffectiveRank(ranks, k));
      NameMeansNode(nodes, n, k);
    }
    if m.hits(prompt, n) {
      assert Activation(n.name, EffectiveRank(ranks, n)) in saved;
    }
  }

  /** The freeze/thaw round trip is exact for all activated nodes, over every sequence of
      updates in between, if and only if every rank saved lies in [0, RANK_MAX]. */
  lemma RoundTripIff(nodes: seq<Node>, m: Matcher, ranks: Overlay, prompt: string, ops: seq<Op>)
    requires UniqueNames(nodes)
    ensures
      var after := Thawed(nodes, RunOps(nodes, m, ranks, ops), Freeze(nodes, ranks, m, prompt));
      (forall n :: n in nodes && m.hits(prompt, n) ==> EffectiveRank(after, n) == EffectiveRank(ranks, n)) <==>
        (forall n :: n in nodes && m.hits(prompt, n) ==> 0.0 <= EffectiveRank(ranks, n) <= RANK_MAX)
  {
    var between := RunOps(nodes, m, ranks, ops);
    var after := Thawed(nodes, between, Freeze(nodes, ranks, m, prompt));
    forall n | n in nodes && m.hits(prompt, n)
      ensures EffectiveRank(after, n) == EffectiveRank(ranks, n) <==> 0.0 <= EffectiveRank(ranks, n) <= RANK_MAX
    {
      ThawSetsActivatedOnly(nodes, m, ranks, prompt, between, n);
    }
  }

  /** A thaw restores as many activations as were saved, as long as no node is gone. */
  lemma {:induction false} AllRestored(nodes: seq<Node>, saved: seq<Activation>)
    requires forall a :: a in saved ==> Known(nodes, a.name)
    ensures |KnownOnly(nodes, saved)| == |saved|
  {
    if saved != [] {
      assert saved[|saved| - 1] in saved;
      assert forall a :: a in saved[..|saved| - 1] ==> a in saved;
      AllRestored(nodes, saved[..|saved| - 1]);
    }
  }

  // ---- Rehydrating the anchors ----

  function BriefOf(rows: map<string, Row>, ids: seq<string>, cap: string -> string): string {
    if ids == [] then ""
    else
      var before, id := BriefOf(rows, ids[..|ids| - 1], cap), ids[|ids| - 1];
      if id in rows then before + "--- span " + id + " ---\n" + cap(rows[id].bytes) + "\n" else before
  }

  /** Anchors appear in their order. */
  lemma {:induction false} BriefInOrder(rows: map<string, Row>, a: seq<string>, b: seq<string>, cap: string -> string)
    ensures BriefOf(rows, a + b, cap) == BriefOf(rows, a, cap) + BriefOf(rows, b, cap)
  {
    if b == [] {
      assert a + b == a;
    } else {
      var n := |b| - 1;
      BriefInOrder(rows, a, b[..n], cap);
      assert (a + b)[..|a + b| - 1] == a + b[..n];
      assert (a + b)[|a + b| - 1] == b[n];
      BriefAppend(BriefOf(rows, a, cap), BriefOf(rows, b[..n], cap), b[n], cap);
    }
  }

  lemma BriefAppend(a: string, b: string, id: string, text: string -> string)
    ensures forall x: string :: a + (b + "--- span " + id + " ---\n" + x + "\n") == a + b + "--- span " + id + " ---\n" + x + "\n"
  {
  }

  /** An anchor that is still stored stands under its own heading; a pruned one is left
      out. */
  lemma BriefOne(rows: map<string, Row>, id: string, cap: string -> string)
    ensures BriefOf(rows, [id], cap) == if id in rows then "--- span " + id + " ---\n" + cap(rows[id].bytes) + "\n" else ""
  {
    assert [id][..0] == [];
    assert BriefOf(rows, [], cap) == "";
  }

  /** checkpoint_brief: the anchors that are still stored, in order, counted. */
  method CheckpointBrief(store: RawStore, ids: seq<string>, cap: string -> string) returns (brief: string, hydrated: nat)
    ensures brief == BriefOf(store.rows, ids, cap)
    ensures hydrated == |set i: nat | i < |ids| && ids[i] in store.rows|
  {
    brief, hydrated := "", 0;
    ghost var present: set<nat> := {};
    for i := 0 to |ids|
      invariant brief == BriefOf(store.rows, ids[..i], cap)
      invariant present == (set j: nat | j < i && ids[j] in store.rows) && hydrated == |present|
    {
      assert ids[..i + 1][..i] == ids[..i];
      var content := store.Get(ids[i]);
      if content.Some? {
        hydrated := hydrated + 1;
        brief := brief + "--- span " + ids[i] + " ---\n" + cap(content.value.bytes) + "\n";
        present := present + {i};
      }
    }
    assert ids[..|ids|] == ids;
  }

  // ---- Waking order ----

  predicate BlendAgrees(a: nat, r: real, b: nat, s: real) {
    a as real + 0.25 * r >= b as real + 0.25 * s <==> a > b || (a == b && r >= s)
  }

  /** For all counts, a blend with a quarter of the rank puts one node no later than
      another exactly when count and then rank do, if and only if the first does not
      rank 4 above the other, nor the other more than 4 above it. */
  lemma BlendAgreesIff(r: real, s: real)
    ensures (forall a: nat, b: nat :: BlendAgrees(a, r, b, s)) <==> r - s < 4.0 && s - r <= 4.0
  {
    assert r - s >= 4.0 ==> !BlendAgrees(0, r, 1, s);
    assert s - r > 4.0 ==> !BlendAgrees(1, r, 0, s);
    if r - s < 4.0 && s - r <= 4.0 {
      forall a: nat, b: nat
        ensures BlendAgrees(a, r, b, s)
      {
        CountsApart(a, b);
      }
    }
  }

  lemma CountsApart(a: nat, b: nat)
    ensures a > b ==> a as real >= b as real + 1.0
    ensures a < b ==> b as real >= a as real + 1.0
  {
  }

  /** The two orders are one, for all counts, exactly when the ranks are less than 4
      apart. */
  lemma BlendIsLexicographicIff(r: real, s: real)
    ensures
      (forall a: nat, b: nat :: BlendAgrees(a, r, b, s) && BlendAgrees(b, s, a, r)) <==> -4.0 < r - s < 4.0
  {
    BlendAgreesIff(r, s);
    BlendAgreesIff(s, r);
    assert r - s >= 4.0 ==> !BlendAgrees(0, r, 1, s);
    assert s - r >= 4.0 ==> !BlendAgrees(0, s, 1, r);
  }

  /** Live ranks of nodes with different knowledge are less than 4 apart; exactly 4 is
      allowed where the lower one stands first. */
  ghost predicate RanksClose(nodes: seq<Node>, ranks: Overlay) {
    forall i, j :: 0 <= i < j < |nodes| && nodes[i].knowledge != nodes[j].knowledge ==>
      Close(EffectiveRank(ranks, nodes[i]), EffectiveRank(ranks, nodes[j]))
  }

  predicate Close(r: real, s: real) {
    r - s < 4.0 && s - r <= 4.0
  }

  /** Ranks the overlay can hold are close. */
  lemma InRangeIsClose(nodes: seq<Node>, ranks: Overlay)
    requires forall n :: n in nodes ==> 0.0 <= EffectiveRank(ranks, n) <= RANK_MAX
    ensures RanksClose(nodes, ranks)
  {
  }

  lemma {:induction false} WokenClose(nodes: seq<Node>, ranks: Overlay, m: Matcher, prompt: string)
    requires RanksClose(nodes, ranks)
    ensures RanksClose(Woken(nodes, m, prompt), ranks)
  {
    if nodes != [] {
      var n := |nodes| - 1;
      var before := Woken(nodes[..n], m, prompt);
      WokenClose(nodes[..n], ranks, m, prompt);
      WokenExact(nodes[..n], m, prompt);
      forall i | 0 <= i < |before| && before[i].knowledge != nodes[n].knowledge
        ensures Close(EffectiveRank(ranks, before[i]), EffectiveRank(ranks, nodes[n]))
      {
        assert before[i] in nodes[..n];
        var k :| 0 <= k < n && nodes[k] == before[i];
      }
    }
  }

  lemma OrdersAgree(x: Node, y: Node, ranks: Overlay, m: Matcher, prompt: string)
    requires x.knowledge != y.knowledge ==> Close(EffectiveRank(ranks, x), EffectiveRank(ranks, y))
    ensures ByBlend(ranks, m, prompt)(x, y) <==> ByOverlapThenRank(ranks, m, prompt)(x, y)
  {
    var a, b := m.overlap(prompt, x.knowledge), m.overlap(prompt, y.knowledge);
    if x.knowledge != y.knowledge {
      BlendAgreesIff(EffectiveRank(ranks, x), EffectiveRank(ranks, y));
      assert BlendAgrees(a, EffectiveRank(ranks, x), b, EffectiveRank(ranks, y));
    }
  }

  /** While ranks are close, waking sorts by overlap and only then by rank: a node with
      less overlap never stands before one with more. */
  lemma WakeIsLexicographic(nodes: seq<Node>, ranks: Overlay, m: Matcher, prompt: string)
    requires RanksClose(nodes, ranks)
    ensures
      var cands := Woken(nodes, m, prompt);
      var woken := SortBy(cands, ByBlend(ranks, m, prompt));
      && woken == SortBy(cands, ByOverlapThenRank(ranks, m, prompt))
      && StableSortOf(woken, cands, ByOverlapThenRank(ranks, m, prompt))
      && (forall i, j :: 0 <= i < j < |woken| ==>
           m.overlap(prompt, woken[i].knowledge) >= m.overlap(prompt, woken[j].knowledge))
  {
    var cands := Woken(nodes, m, prompt);
    var blend, lex := ByBlend(ranks, m, prompt), ByOverlapThenRank(ranks, m, prompt);
    WokenClose(nodes, ranks, m, prompt);
    forall i, j | 0 <= i < j < |cands|
      ensures blend(cands[i], cands[j]) <==> lex(cands[i], cands[j])
    {
      OrdersAgree(cands[i], cands[j], ranks, m, prompt);
    }
    SortCongruence(cands, blend, lex);
    BlendIsTotal(ranks, m, prompt);
    SortIsStable(cands, lex);
  }

  /** Wakes the two nodes called `x` and `y`, and finds `a` terms in knowledge `k`, `b` in
      any other. */
  function Telling(x: string, y: string, k: string, a: nat, b: nat): Matcher {
    Matcher((t: string, n: Node) => n.name == x || n.name == y, (p: string, l: string) => if l == k then a else b)
  }

  lemma {:induction false} WokenPair(nodes: seq<Node>, i: nat, j: nat, k: string, a: nat, b: nat, prompt: string)
    requires UniqueNames(nodes) && i < j < |nodes|
    ensures Woken(nodes, Telling(nodes[i].name, nodes[j].name, k, a, b), prompt) == [nodes[i], nodes[j]]
  {
    var n := |nodes| - 1;
    if j < n {
      WokenPair(nodes[..n], i, j, k, a, b, prompt);
    } else {
      WokenSingle(nodes[..n], i, nodes[n].name, k, a, b, prompt);
    }
  }

  lemma {:induction false} WokenSingle(nodes: seq<Node>, i: nat, absent: string, k: string, a: nat, b: nat, prompt: string)
    requires UniqueNames(nodes) && i < |nodes| && forall l :: 0 <= l < |nodes| ==> nodes[l].name != absent
    ensures Woken(nodes, Telling(nodes[i].name, absent, k, a, b), prompt) == [nodes[i]]
  {
    var n := |nodes| - 1;
    if i < n {
      WokenSingle(nodes[..n], i, absent, k, a, b, prompt);
    } else {
      WokenNone(nodes[..n], nodes[n].name, absent, k, a, b, prompt);
    }
  }

  lemma {:induction false} WokenNone(nodes: seq<Node>, x: string, y: string, k: string, a: nat, b: nat, prompt: string)
    requires forall l :: 0 <= l < |nodes| ==> nodes[l].name != x && nodes[l].name != y
    ensures Woken(nodes, Telling(x, y, k, a, b), prompt) == []
  {
    if nodes != [] {
      WokenNone(nodes[..|nodes| - 1], x, y, k, a, b, prompt);
    }
  }

  lemma SortPair<A>(x: A, y: A, ge: (A, A) -> bool)
    ensures SortBy([x, y], ge) == if ge(x, y) then [x, y] else [y, x]
  {
    assert [x, y][1..] == [y] && SortBy([y], ge) == [y];
    assert Insert(x, [], ge) == [x];
  }

  /** Where two ranks are not close, some matcher wakes those two nodes in the wrong
      order. */
  lemma FarRanksMisorder(nodes: seq<Node>, ranks: Overlay, prompt: string, i: nat, j: nat) returns (m: Matcher)
    requires UniqueNames(nodes) && i < j < |nodes| && nodes[i].knowledge != nodes[j].knowledge
    requires !Close(EffectiveRank(ranks, nodes[i]), EffectiveRank(ranks, nodes[j]))
    ensures
      var cands := Woken(nodes, m, prompt);
      SortBy(cands, ByBlend(ranks, m, prompt)) != SortBy(cands, ByOverlapThenRank(ranks, m, prompt))
  {
    var x, y := nodes[i], nodes[j];
    var r, s := EffectiveRank(ranks, x), EffectiveRank(ranks, y);
    var a, b := if r - s >= 4.0 then 0 else 1, if r - s >= 4.0 then 1 else 0;
    m := Telling(x.name, y.name, x.knowledge, a, b);
    WokenPair(nodes, i, j, x.knowledge, a, b, prompt);
    SortPair(x, y, ByBlend(ranks, m, prompt));
    SortPair(x, y, ByOverlapThenRank(ranks, m, prompt));
    assert ByBlend(ranks, m, prompt)(x, y) != ByOverlapThenRank(ranks, m, prompt)(x, y);
    assert x != y;
  }

  /** Overlap outranks rank for every matcher and every prompt if and only if the ranks
      are close. */
  lemma WakeIsLexicographicIff(nodes: seq<Node>, ranks: Overlay)
    requires UniqueNames(nodes)
    ensures
      (forall m: Matcher, prompt: string ::
        SortBy(Woken(nodes, m, prompt), ByBlend(ranks, m, prompt)) ==
        SortBy(Woken(nodes, m, prompt), ByOverlapThenRank(ranks, m, prompt))) <==> RanksClose(nodes, ranks)
  {
    if RanksClose(nodes, ranks) {
      forall m: Matcher, prompt: string
        ensures SortBy(Woken(nodes, m, prompt), ByBlend(ranks, m, prompt)) ==
                SortBy(Woken(nodes, m, prompt), ByOverlapThenRank(ranks, m, prompt))
      {
        WakeIsLexicographic(nodes, ranks, m, prompt);
      }
    } else {
      var i, j :| 0 <= i < j < |nodes| && nodes[i].knowledge != nodes[j].knowledge &&
        !Close(EffectiveRank(ranks, nodes[i]), EffectiveRank(ranks, nodes[j]));
      var m := FarRanksMisorder(nodes, ranks, "", i, j);
    }
  }

  /** A static prior is not clamped: at 6, a node without any overlap wakes before one
      that matches. */
  lemma StaticPriorOutranksMatch(m: Matcher, prompt: string, loud: Node, apt: Node)
    requires m.overlap(prompt, loud.knowledge) == 0 && loud.rank == 6.0
    requires m.overlap(prompt, apt.knowledge) == 1 && apt.rank == 1.0
    ensures SortBy([apt, loud], ByBlend(map[], m, prompt)) == [loud, apt]
  {
    var ge := ByBlend(map[], m, prompt);
    assert [apt, loud][1..] == [loud];
    assert SortBy([loud], ge) == [loud];
    assert EffectiveRank(map[], apt) == 1.0 && EffectiveRank(map[], loud) == 6.0;
    assert !ge(apt, loud);
    assert Insert(apt, [loud], ge) == [loud] + Insert(apt, [], ge);
  }
}
