/** The content-addressed raw store: rows keyed by a hash of kind and bytes, mirrored
    row by row into a full-text index, ingested idempotently and pruned by age. */
module RawStore {
  import opened Wrappers

  datatype Kind = Transcript | ToolOutput | Trajectory | External

  function KindName(k: Kind): string {
    match k
    case Transcript => "transcript"
    case ToolOutput => "tool_output"
    case Trajectory => "trajectory"
    case External => "external"
  }

  function ParseKind(s: string): Option<Kind> {
    if s == "transcript" then Some(Transcript)
    else if s == "tool_output" then Some(ToolOutput)
    else if s == "trajectory" then Some(Trajectory)
    else if s == "external" then Some(External)
    else None
  }

  /** What is hashed: the kind's name, a NUL, the bytes. */
  function Encode(k: Kind, bytes: string): string {
    KindName(k) + "\0" + bytes
  }

  /** The content hash, taken to be collision-free. */
  ghost predicate CollisionFree(hash: string -> string) {
    forall x, y :: hash(x) == hash(y) ==> x == y
  }

  function IdOf(hash: string -> string, k: Kind, bytes: string): string {
    "blake3:" + hash(Encode(k, bytes))
  }

  datatype Row = Row(kind: string, bytes: string, meta: Option<string>, createdAt: int)

  /** The two tables: `raw`, keyed by id, and the index, a plain list of (id, bytes). */
  datatype Db = Db(rows: map<string, Row>, index: seq<(string, string)>)

  /** A completed call. `mirrored` is false when the row went in but adding it to the
      index failed, in which case the caller sees an error. */
  datatype Event =
    | Ingest(kind: Kind, bytes: string, meta: Option<string>, now: int, mirrored: bool)
    | Prune(cutoff: int)

  function WithoutIds(index: seq<(string, string)>, dead: set<string>): seq<(string, string)> {
    if index == [] then []
    else if index[0].0 in dead then WithoutIds(index[1..], dead)
    else [index[0]] + WithoutIds(index[1..], dead)
  }

  function Dead(rows: map<string, Row>, cutoff: int): set<string> {
    set id | id in rows && rows[id].createdAt < cutoff
  }

  function Apply(hash: string -> string, db: Db, e: Event): Db {
    match e
    case Ingest(k, bytes, meta, now, mirrored) =>
      var id := IdOf(hash, k, bytes);
      if id in db.rows then db
      else Db(db.rows[id := Row(KindName(k), bytes, meta, now)],
              if mirrored then db.index + [(id, bytes)] else db.index)
    case Prune(cutoff) =>
      var dead := Dead(db.rows, cutoff);
      Db(db.rows - dead, WithoutIds(db.index, dead))
  }

  const DAY_MS := 86400000

  /** Two's-complement 64-bit reading of an integer. */
  function Wrap64(x: int): int {
    (x + 0x8000_0000_0000_0000) % 0x1_0000_0000_0000_0000 - 0x8000_0000_0000_0000
  }

  /** The creation time below which a prune removes, as computed in 64-bit arithmetic. */
  function Cutoff(now: int, retentionDays: nat): int {
    Wrap64(now - Wrap64(Wrap64(retentionDays) * DAY_MS))
  }

  datatype Content = Content(id: string, kind: Kind, bytes: string, meta: Option<string>, createdAt: int)

  function Lookup(rows: map<string, Row>, id: string): Option<Content> {
    if id !in rows then None
    else
      var row := rows[id];
      var kind := ParseKind(row.kind);
      Some(Content(id, if kind.Some? then kind.value else ToolOutput, row.bytes, row.meta, row.createdAt))
  }

  class RawStore {
    const hash: string -> string
    var rows: map<string, Row>
    var index: seq<(string, string)>

    ghost function Model(): Db
      reads this
    {
      Db(rows, index)
    }

    constructor (hash: string -> string)
      ensures this.hash == hash && Model() == Db(map[], [])
    {
      this.hash := hash;
      rows, index := map[], [];
    }

    /** Insert-or-ignore, then mirror the row only if it was inserted. */
    method Ingest(k: Kind, bytes: string, meta: Option<string>, now: int, mirrors: bool) returns (r: Option<string>)
      modifies this
      ensures Model() == Apply(hash, old(Model()), Event.Ingest(k, bytes, meta, now, mirrors))
      ensures r.Some? ==> r.value == IdOf(hash, k, bytes) && IdOf(hash, k, bytes) in rows
      ensures r.None? <==> IdOf(hash, k, bytes) !in old(rows) && !mirrors
      ensures
        var id := IdOf(hash, k, bytes);
        if id in old(rows) then rows == old(rows) && index == old(index)
        else
          && rows == old(rows)[id := Row(KindName(k), bytes, meta, now)]
          && index == old(index) + if mirrors then [(id, bytes)] else []
    {
      var id := IdOf(hash, k, bytes);
      var changed := id !in rows;
      if changed {
        rows := rows[id := Row(KindName(k), bytes, meta, now)];
        if !mirrors {
          return None;
        }
        index := index + [(id, bytes)];
      }
      return Some(id);
    }

    /** The row under `id`, byte for byte; a kind that is none of the four reads as tool
        output. */
    method Get(id: string) returns (r: Option<Content>)
      ensures r.Some? <==> id in rows
      ensures r.Some? ==>
        && r.value.id == id && r.value.bytes == rows[id].bytes
        && r.value.meta == rows[id].meta && r.value.createdAt == rows[id].createdAt
        && (KindName(r.value.kind) == rows[id].kind ||
            (r.value.kind == ToolOutput && forall k :: KindName(k) != rows[id].kind))
      ensures r == Lookup(rows, id)
    {
      if id !in rows {
        return None;
      }
      var row := rows[id];
      var kind := ParseKind(row.kind);
      if kind.None? {
        return Some(Content(id, ToolOutput, row.bytes, row.meta, row.createdAt));
      }
      return Some(Content(id, kind.value, row.bytes, row.meta, row.createdAt));
    }

    /** One transaction: the index rows of old ids go first, then the rows. */
    method Prune(now: int, retentionDays: nat) returns (removed: nat)
      modifies this
      ensures Model() == Apply(hash, old(Model()), Event.Prune(Cutoff(now, retentionDays)))
      ensures removed == |old(rows)| - |rows|
      ensures forall id :: id in rows <==> id in old(rows) && old(rows)[id].createdAt >= Cutoff(now, retentionDays)
      ensures forall id :: id in rows ==> rows[id] == old(rows)[id]
    {
      var dead := Dead(rows, Cutoff(now, retentionDays));
      index := WithoutIds(index, dead);
      removed := |dead|;
      rows := rows - dead;
      assert old(rows).Keys == rows.Keys + dead;
    }
  }

  function Run(hash: string -> string, events: seq<Event>): Db {
    if events == [] then Db(map[], [])
    else Apply(hash, Run(hash, events[..|events| - 1]), events[|events| - 1])
  }

  // ---- One content's life, on its own ----

  /** What the history says about one (kind, bytes) pair, ignoring every other. */
  datatype Life = Absent | Alive(meta: Option<string>, createdAt: int, indexed: bool)

  function LifeAfter(life: Life, e: Event, k: Kind, bytes: string): Life {
    match e
    case Ingest(k', bytes', meta, now, mirrored) =>
      if k' == k && bytes' == bytes && life.Absent? then Alive(meta, now, mirrored) else life
    case Prune(cutoff) =>
      if life.Alive? && life.createdAt < cutoff then Absent else life
  }

  function LifeOf(events: seq<Event>, k: Kind, bytes: string): Life {
    if events == [] then Absent
    else LifeAfter(LifeOf(events[..|events| - 1], k, bytes), events[|events| - 1], k, bytes)
  }

  // ---- Ids ----

  lemma KindNames(k: Kind)
    ensures ParseKind(KindName(k)) == Some(k)
    ensures forall i :: 0 <= i < |KindName(k)| ==> KindName(k)[i] != '\0'
  {
  }

  /** The first NUL of an encoding ends the kind's name, so nothing is confused. */
  lemma EncodeInjective(j: Kind, a: string, k: Kind, b: string)
    ensures Encode(j, a) == Encode(k, b) <==> j == k && a == b
  {
    KindNames(j);
    KindNames(k);
    if Encode(j, a) == Encode(k, b) {
      FirstNul(KindName(j), a);
      FirstNul(KindName(k), b);
      var n := |KindName(j)|;
      assert Encode(j, a)[..n] == KindName(j) && Encode(k, b)[..n] == KindName(k);
      assert Encode(j, a)[n + 1..] == a && Encode(k, b)[n + 1..] == b;
    }
  }

  function NulAt(s: string): nat {
    if s == "" || s[0] == '\0' then 0 else 1 + NulAt(s[1..])
  }

  lemma {:induction false} FirstNul(name: string, rest: string)
    requires forall i :: 0 <= i < |name| ==> name[i] != '\0'
    ensures NulAt(name + "\0" + rest) == |name|
  {
    var s := name + "\0" + rest;
    if name != "" {
      assert s[1..] == name[1..] + "\0" + rest;
      FirstNul(name[1..], rest);
    }
  }

  /** Ids as they are spelled, and the names of the kinds. */
  lemma IdsSpelled(hash: string -> string, bytes: string)
    ensures IdOf(hash, Transcript, bytes) == "blake3:" + hash("transcript" + "\0" + bytes)
    ensures IdOf(hash, ToolOutput, bytes) == "blake3:" + hash("tool_output" + "\0" + bytes)
    ensures IdOf(hash, Trajectory, bytes) == "blake3:" + hash("trajectory" + "\0" + bytes)
    ensures IdOf(hash, External, bytes) == "blake3:" + hash("external" + "\0" + bytes)
  {
  }

  lemma IdsDistinct(hash: string -> string, j: Kind, a: string, k: Kind, b: string)
    requires CollisionFree(hash)
    ensures IdOf(hash, j, a) == IdOf(hash, k, b) <==> j == k && a == b
  {
    EncodeInjective(j, a, k, b);
    if IdOf(hash, j, a) == IdOf(hash, k, b) {
      assert IdOf(hash, j, a)[7..] == hash(Encode(j, a)) && IdOf(hash, k, b)[7..] == hash(Encode(k, b));
    }
  }

  // ---- The tables against the lives ----

  ghost predicate InIndex(index: seq<(string, string)>, id: string) {
    exists i :: 0 <= i < |index| && index[i].0 == id
  }

  /** No id twice in the index, and every entry is a row with the same bytes. */
  ghost predicate IndexSound(db: Db) {
    && DistinctIds(db.index)
    && (forall i :: 0 <= i < |db.index| ==> db.index[i].0 in db.rows && db.index[i].1 == db.rows[db.index[i].0].bytes)
  }

  lemma {:induction false} WithoutIdsExact(index: seq<(string, string)>, dead: set<string>)
    ensures forall e :: e in WithoutIds(index, dead) <==> e in index && e.0 !in dead
  {
    if index != [] {
      WithoutIdsExact(index[1..], dead);
    }
  }

  ghost predicate DistinctIds(index: seq<(string, string)>) {
    forall i, j :: 0 <= i < j < |index| ==> index[i].0 != index[j].0
  }

  lemma {:induction false} WithoutIdsDistinct(index: seq<(string, string)>, dead: set<string>)
    requires DistinctIds(index)
    ensures DistinctIds(WithoutIds(index, dead))
  {
    if index != [] {
      var tail := index[1..];
      var rest := WithoutIds(tail, dead);
      WithoutIdsDistinct(tail, dead);
      WithoutIdsExact(tail, dead);
      forall j | 0 <= j < |rest|
        ensures rest[j].0 != index[0].0
      {
        assert rest[j] in tail;
        var m :| 0 <= m < |tail| && tail[m] == rest[j];
        assert index[m + 1] == rest[j];
      }
    }
  }

  lemma ApplyKeepsIndexSound(hash: string -> string, db: Db, e: Event)
    requires IndexSound(db)
    ensures IndexSound(Apply(hash, db, e))
  {
    if e.Prune? {
      var dead := Dead(db.rows, e.cutoff);
      var r := WithoutIds(db.index, dead);
      WithoutIdsDistinct(db.index, dead);
      WithoutIdsExact(db.index, dead);
      forall i | 0 <= i < |r|
        ensures r[i].0 in db.rows - dead && r[i].1 == (db.rows - dead)[r[i].0].bytes
      {
        assert r[i] in r;
        var m :| 0 <= m < |db.index| && db.index[m] == r[i];
        assert db.index[m].0 in db.rows;
      }
    }
  }

  /** The tables say about one content exactly what its life says. */
  ghost predicate Shows(hash: string -> string, db: Db, k: Kind, bytes: string, life: Life) {
    var id := IdOf(hash, k, bytes);
    match life
    case Absent => id !in db.rows
    case Alive(meta, createdAt, indexed) =>
      && id in db.rows && db.rows[id] == Row(KindName(k), bytes, meta, createdAt)
      && (InIndex(db.index, id) <==> indexed)
  }

  lemma ApplyKeepsShows(hash: string -> string, db: Db, e: Event, k: Kind, bytes: string, life: Life)
    requires CollisionFree(hash) && IndexSound(db) && Shows(hash, db, k, bytes, life)
    ensures Shows(hash, Apply(hash, db, e), k, bytes, LifeAfter(life, e, k, bytes))
  {
    var id := IdOf(hash, k, bytes);
    match e
    case Ingest(k', bytes', meta, now, mirrored) =>
      IdsDistinct(hash, k', bytes', k, bytes);
      IngestShows(hash, db, e, id);
    case Prune(cutoff) =>
      WithoutIdsExact(db.index, Dead(db.rows, cutoff));
      PruneShows(db.index, Dead(db.rows, cutoff), id);
  }

  lemma IngestShows(hash: string -> string, db: Db, e: Event, id: string)
    requires e.Ingest? && IndexSound(db)
    ensures
      var added := IdOf(hash, e.kind, e.bytes);
      var after := Apply(hash, db, e);
      && (InIndex(after.index, id) <==> InIndex(db.index, id) || (id == added && added !in db.rows && e.mirrored))
  {
    var after := Apply(hash, db, e);
    if i :| 0 <= i < |db.index| && db.index[i].0 == id {
      assert after.index[i].0 == id;
    }
    if after.index != db.index {
      assert after.index[|db.index|].0 == IdOf(hash, e.kind, e.bytes);
    }
  }

  lemma PruneShows(index: seq<(string, string)>, dead: set<string>, id: string)
    requires forall e :: e in WithoutIds(index, dead) <==> e in index && e.0 !in dead
    ensures InIndex(WithoutIds(index, dead), id) <==> InIndex(index, id) && id !in dead
  {
    var r := WithoutIds(index, dead);
    if i :| 0 <= i < |r| && r[i].0 == id {
      assert r[i] in index;
    }
    if i :| 0 <= i < |index| && index[i].0 == id {
      assert index[i] in index;
      if id !in dead {
        assert index[i] in r;
      }
    }
  }

  // ---- The cutoff ----

  /** The cutoff is the promised one, so many days before now, if and only if that time
      fits 64 bits. */
  lemma CutoffExactIff(now: int, retentionDays: nat)
    requires now < 0x8000_0000_0000_0000
    ensures Cutoff(now, retentionDays) == now - retentionDays * (24 * 60 * 60 * 1000) <==>
      now - retentionDays * (24 * 60 * 60 * 1000) >= -0x8000_0000_0000_0000
  {
  }

  /** With the largest retention the cutoff lies a day ahead, and a prune that should
      remove nothing removes every row there is. */
  lemma LargestRetentionEmptiesStore(hash: string -> string, db: Db, now: int)
    requires 0 <= now < 0x7fff_ffff_0000_0000
    requires forall id :: id in db.rows ==> db.rows[id].createdAt <= now
    ensures Apply(hash, db, Event.Prune(Cutoff(now, 0xffff_ffff_ffff_ffff))).rows == map[]
  {
  }

  // ---- Main results ----

  /** Over every run, the store is the sum of independent lives: each (kind, bytes) pair
      is stored, unchanged and under its own id, exactly while its own history says so,
      with the metadata and time of the ingest that started that life. */
  lemma {:induction false} StoreIsSumOfLives(hash: string -> string, events: seq<Event>, k: Kind, bytes: string)
    requires CollisionFree(hash)
    ensures IndexSound(Run(hash, events))
    ensures Shows(hash, Run(hash, events), k, bytes, LifeOf(events, k, bytes))
  {
    if events != [] {
      var n := |events| - 1;
      StoreIsSumOfLives(hash, events[..n], k, bytes);
      ApplyKeepsIndexSound(hash, Run(hash, events[..n]), events[n]);
      ApplyKeepsShows(hash, Run(hash, events[..n]), events[n], k, bytes, LifeOf(events[..n], k, bytes));
    }
  }

  /** `get` gives back the ingested bytes and kind for as long as that life lasts. */
  lemma GetReturnsIngested(hash: string -> string, events: seq<Event>, k: Kind, bytes: string)
    requires CollisionFree(hash)
    ensures
      var life := LifeOf(events, k, bytes);
      Lookup(Run(hash, events).rows, IdOf(hash, k, bytes)) ==
        if life.Absent? then None
        else Some(Content(IdOf(hash, k, bytes), k, bytes, life.meta, life.createdAt))
  {
    StoreIsSumOfLives(hash, events, k, bytes);
    KindNames(k);
  }

  /** Every row is some ingested content under its own id. */
  lemma {:induction false} RowsAreIngested(hash: string -> string, events: seq<Event>, id: string) returns (k: Kind, bytes: string)
    requires id in Run(hash, events).rows
    ensures id == IdOf(hash, k, bytes)
  {
    var n := |events| - 1;
    if id in Run(hash, events[..n]).rows {
      k, bytes := RowsAreIngested(hash, events[..n], id);
    } else {
      k, bytes := events[n].kind, events[n].bytes;
    }
  }

  ghost predicate AllMirrored(events: seq<Event>) {
    forall i :: 0 <= i < |events| && events[i].Ingest? ==> events[i].mirrored
  }

  lemma {:induction false} MirroredLivesAreIndexed(events: seq<Event>, k: Kind, bytes: string)
    requires AllMirrored(events)
    ensures LifeOf(events, k, bytes).Alive? ==> LifeOf(events, k, bytes).indexed
  {
    if events != [] {
      MirroredLivesAreIndexed(events[..|events| - 1], k, bytes);
    }
  }

  ghost function Ids(index: seq<(string, string)>): set<string> {
    set i | 0 <= i < |index| :: index[i].0
  }

  lemma {:induction false} IdsCount(index: seq<(string, string)>)
    requires DistinctIds(index)
    ensures |Ids(index)| == |index|
  {
    if index != [] {
      var n := |index| - 1;
      IdsCount(index[..n]);
      assert Ids(index) == Ids(index[..n]) + {index[n].0};
      assert index[n].0 !in Ids(index[..n]);
    }
  }

  /** Ingesting content that is already stored changes nothing, whatever its metadata. */
  lemma ReingestIsNoOp(hash: string -> string, events: seq<Event>, e: Event)
    requires CollisionFree(hash) && e.Ingest? && LifeOf(events, e.kind, e.bytes).Alive?
    ensures Apply(hash, Run(hash, events), e) == Run(hash, events)
  {
    StoreIsSumOfLives(hash, events, e.kind, e.bytes);
  }

  /** Every stored row is in the index. */
  ghost predicate IndexComplete(db: Db) {
    forall id :: id in db.rows ==> InIndex(db.index, id)
  }

  /** Every content stored now was mirrored when it went in. */
  ghost predicate LivesIndexed(events: seq<Event>) {
    forall k: Kind, bytes: string :: LifeOf(events, k, bytes).Alive? ==> LifeOf(events, k, bytes).indexed
  }

  /** In every run the index covers the rows if and only if no content stored now lost
      its mirror when it went in. */
  lemma IndexCompleteIff(hash: string -> string, events: seq<Event>)
    requires CollisionFree(hash)
    ensures IndexComplete(Run(hash, events)) <==> LivesIndexed(events)
  {
    var db := Run(hash, events);
    if IndexComplete(db) {
      forall k: Kind, bytes: string | LifeOf(events, k, bytes).Alive?
        ensures LifeOf(events, k, bytes).indexed
      {
        StoreIsSumOfLives(hash, events, k, bytes);
        assert IdOf(hash, k, bytes) in db.rows;
      }
    }
    if LivesIndexed(events) {
      forall id | id in db.rows
        ensures InIndex(db.index, id)
      {
        var k, bytes := RowsAreIngested(hash, events, id);
        StoreIsSumOfLives(hash, events, k, bytes);
        assert LifeOf(events, k, bytes).Alive?;
      }
    }
  }

  /** Over every run of successful calls the index holds exactly one entry per row,
      with the same bytes, and nothing else. */
  lemma IndexMirrorsRows(hash: string -> string, events: seq<Event>)
    requires CollisionFree(hash) && AllMirrored(events)
    ensures IndexSound(Run(hash, events))
    ensures forall id :: id in Run(hash, events).rows <==> InIndex(Run(hash, events).index, id)
    ensures |Run(hash, events).index| == |Run(hash, events).rows|
  {
    var db := Run(hash, events);
    StoreIsSumOfLives(hash, events, Transcript, "");
    forall k: Kind, bytes: string | LifeOf(events, k, bytes).Alive?
      ensures LifeOf(events, k, bytes).indexed
    {
      MirroredLivesAreIndexed(events, k, bytes);
    }
    IndexCompleteIff(hash, events);
    IdsCount(db.index);
    assert Ids(db.index) == db.rows.Keys;
  }

  lemma {:induction false} UnindexedLifeLasts(events: seq<Event>, more: seq<Event>, k: Kind, bytes: string)
    requires LifeOf(events, k, bytes).Alive? && !LifeOf(events, k, bytes).indexed
    requires forall i :: 0 <= i < |more| && more[i].Prune? ==> more[i].cutoff <= LifeOf(events, k, bytes).createdAt
    ensures LifeOf(events + more, k, bytes) == LifeOf(events, k, bytes)
  {
    var all := events + more;
    if more == [] {
      assert all == events;
    } else {
      assert all[..|all| - 1] == events + more[..|more| - 1];
      UnindexedLifeLasts(events, more[..|more| - 1], k, bytes);
    }
  }

  /** A content whose mirroring failed when it went in is stored and not indexed from
      then on, whatever is ingested, itself included, until a prune reaches it. */
  lemma FailedMirrorIsNeverRepaired(
    hash: string -> string, events: seq<Event>, k: Kind, bytes: string, meta: Option<string>, now: int, more: seq<Event>)
    requires CollisionFree(hash) && IdOf(hash, k, bytes) !in Run(hash, events).rows
    requires forall i :: 0 <= i < |more| && more[i].Prune? ==> more[i].cutoff <= now
    ensures
      var db := Run(hash, events + [Event.Ingest(k, bytes, meta, now, false)] + more);
      var id := IdOf(hash, k, bytes);
      id in db.rows && db.rows[id] == Row(KindName(k), bytes, meta, now) && !InIndex(db.index, id)
  {
    var e := Event.Ingest(k, bytes, meta, now, false);
    StoreIsSumOfLives(hash, events, k, bytes);
    assert (events + [e])[..|events|] == events;
    assert LifeOf(events + [e], k, bytes) == Alive(meta, now, false);
    UnindexedLifeLasts(events + [e], more, k, bytes);
    StoreIsSumOfLives(hash, events + [e] + more, k, bytes);
  }

  /** An id stands for the same kind and bytes for ever, across pruning and re-ingest. */
  lemma ContentNeverChanges(hash: string -> string, events: seq<Event>, later: seq<Event>, id: string)
    requires CollisionFree(hash)
    requires id in Run(hash, events).rows && id in Run(hash, later).rows
    ensures Run(hash, events).rows[id].bytes == Run(hash, later).rows[id].bytes
    ensures Run(hash, events).rows[id].kind == Run(hash, later).rows[id].kind
  {
    var k, bytes := RowsAreIngested(hash, events, id);
    StoreIsSumOfLives(hash, events, k, bytes);
    StoreIsSumOfLives(hash, later, k, bytes);
  }
}
