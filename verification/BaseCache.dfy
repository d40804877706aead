/** The worker's per-node cache of bare base repositories: an LRU index, a map of
    holds that pins bases against eviction, and the repositories on disk. */
module BaseCache {
  import opened Wrappers

  type Sha = string

  /** What lies at a base's path: a repository whose base branch resolves, or the
      remains of an interrupted clone or delete. An absent key is an absent path. */
  datatype Repo = Good | Broken

  // ---- Holds ----

  /** One more coder holds `sha`. */
  function Hold(inUse: map<Sha, int>, sha: Sha): map<Sha, int> {
    inUse[sha := (if sha in inUse then inUse[sha] else 0) + 1]
  }

  /** One coder lets go of `sha`; the key leaves the map at zero. */
  function Drop(inUse: map<Sha, int>, sha: Sha): map<Sha, int> {
    if sha !in inUse then inUse
    else if inUse[sha] - 1 == 0 then inUse - {sha}
    else inUse[sha := inUse[sha] - 1]
  }

  // ---- The LRU index ----

  function Without(order: seq<Sha>, sha: Sha): (r: seq<Sha>)
    ensures sha !in r
    ensures forall s :: s in r <==> s in order && s != sha
  {
    if order == [] then []
    else if order[0] == sha then Without(order[1..], sha)
    else [order[0]] + Without(order[1..], sha)
  }

  function Touched(order: seq<Sha>, sha: Sha): seq<Sha> {
    Without(order, sha) + [sha]
  }

  ghost predicate NoDuplicates(order: seq<Sha>) {
    forall i, j :: 0 <= i < j < |order| ==> order[i] != order[j]
  }

  class CacheIndex {
    const cap: nat
    var order: seq<Sha>  // front = least recently used

    constructor (cap: nat)
      ensures this.cap == (if cap == 0 then 1 else cap) && order == []
    {
      this.cap := if cap == 0 then 1 else cap;
      order := [];
    }

    /** Marks `sha` most recently used: insert it, or move it to the back. */
    method Touch(sha: Sha)
      modifies this
      ensures order == Touched(old(order), sha)
    {
      order := Without(order, sha);
      order := order + [sha];
    }

    predicate OverCap()
      reads this
    {
      |order| > cap
    }

    function Front(): Option<Sha>
      reads this
    {
      if order == [] then None else Some(order[0])
    }

    method PopFront() returns (r: Option<Sha>)
      modifies this
      ensures old(order) == [] ==> r == None && order == []
      ensures old(order) != [] ==> r == Some(old(order)[0]) && order == old(order)[1..]
    {
      if order == [] {
        return None;
      }
      r := Some(order[0]);
      order := order[1..];
    }
  }

  // ---- The cache as a value ----

  datatype Cache = Cache(cap: nat, order: seq<Sha>, inUse: map<Sha, int>, disk: map<Sha, Repo>)

  /** How the outside world answers one call. `ready`: the cache directory could be
      created. `built`: bundle fetched and cloned. `left`: what lies at a path after
      a delete or a failed build, both best effort. */
  datatype Env = Env(ready: bool, built: bool, left: map<Sha, Repo>)

  function After(disk: map<Sha, Repo>, sha: Sha, left: map<Sha, Repo>): map<Sha, Repo> {
    if sha in left then disk[sha := left[sha]] else disk - {sha}
  }

  predicate ValidHit(disk: map<Sha, Repo>, sha: Sha) {
    sha in disk && disk[sha] == Good
  }

  function NextEviction(c: Cache): Option<Sha> {
    if |c.order| <= c.cap || c.order == [] then None
    else if c.order[0] in c.inUse then None
    else Some(c.order[0])
  }

  function EvictOverCap(c: Cache, left: map<Sha, Repo>): Cache
    decreases |c.order|
  {
    match NextEviction(c)
    case None => c
    case Some(victim) => EvictOverCap(c.(order := c.order[1..], disk := After(c.disk, victim, left)), left)
  }

  function TouchAndHold(c: Cache, sha: Sha): Cache {
    c.(order := Touched(c.order, sha), inUse := Hold(c.inUse, sha))
  }

  /** One whole call; the flag says whether the caller got a repository. */
  function GetOrMaterialize(c: Cache, sha: Sha, env: Env): (Cache, bool) {
    if !env.ready then (c, false)
    else if ValidHit(c.disk, sha) then (TouchAndHold(c, sha), true)
    else if !env.built then (c.(disk := After(c.disk, sha, env.left)), false)
    else (EvictOverCap(TouchAndHold(c.(disk := c.disk[sha := Good]), sha), env.left), true)
  }

  function Release(c: Cache, sha: Sha): Cache {
    c.(inUse := Drop(c.inUse, sha))
  }

  // ---- The cache as an object ----

  class BaseCache {
    const index: CacheIndex
    var inUse: map<Sha, int>
    var disk: map<Sha, Repo>

    ghost function Model(): Cache
      reads this, index
    {
      Cache(index.cap, index.order, inUse, disk)
    }

    constructor (cap: nat, disk: map<Sha, Repo>)
      ensures fresh(index)
      ensures Model() == Cache(if cap == 0 then 1 else cap, [], map[], disk)
    {
      index := new CacheIndex(cap);
      inUse := map[];
      this.disk := disk;
    }

    method MarkInUse(sha: Sha)
      modifies this`inUse
      ensures inUse == Hold(old(inUse), sha)
    {
      inUse := inUse[sha := (if sha in inUse then inUse[sha] else 0) + 1];
    }

    method ReleaseHold(sha: Sha)
      modifies this`inUse
      ensures Model() == Release(old(Model()), sha)
    {
      if sha in inUse {
        inUse := inUse[sha := inUse[sha] - 1];
        if inUse[sha] == 0 {
          inUse := inUse - {sha};
        }
      }
    }

    /** Pops and returns the least recently used base unless it is pinned. */
    method PopEvictable() returns (r: Option<Sha>)
      modifies index
      ensures r == NextEviction(old(Model()))
      ensures Model() == if r.None? then old(Model()) else old(Model()).(order := old(index.order)[1..])
    {
      if !index.OverCap() {
        return None;
      }
      var front := index.Front();
      if front.None? || front.value in inUse {
        return None;
      }
      r := index.PopFront();
    }

    method EvictAll(left: map<Sha, Repo>)
      modifies index, this`disk
      ensures Model() == EvictOverCap(old(Model()), left)
    {
      var victim := PopEvictable();
      while victim.Some?
        invariant victim.None? ==> NextEviction(Model()) == None
        invariant inUse == old(inUse)
        invariant EvictOverCap(old(Model()), left) ==
          if victim.None? then Model()
          else EvictOverCap(Model().(disk := After(disk, victim.value, left)), left)
        decreases victim.Some?, |index.order|
      {
        disk := if victim.value in left then disk[victim.value := left[victim.value]] else disk - {victim.value};
        victim := PopEvictable();
      }
    }

    method Get(sha: Sha, env: Env) returns (ok: bool)
      modifies this`inUse, this`disk, index
      ensures (Model(), ok) == GetOrMaterialize(old(Model()), sha, env)
    {
      if !env.ready {
        return false;
      }
      if sha in disk && disk[sha] == Good {
        index.Touch(sha);
        MarkInUse(sha);
        return true;
      }
      disk := if sha in env.left then disk[sha := env.left[sha]] else disk - {sha};
      if !env.built {
        return false;
      }
      disk := disk[sha := Good];
      assert disk == old(disk)[sha := Good];
      index.Touch(sha);
      MarkInUse(sha);
      EvictAll(env.left);
      return true;
    }
  }

  // ---- Disk safety ----

  /** Pinned bases are indexed, indexed bases are good on disk, counts are positive. */
  ghost predicate Safe(c: Cache) {
    && c.cap >= 1
    && NoDuplicates(c.order)
    && (forall s :: s in c.inUse ==> c.inUse[s] >= 1 && s in c.order)
    && (forall s :: s in c.order ==> ValidHit(c.disk, s))
  }

  lemma {:induction false} WithoutKeepsDistinct(order: seq<Sha>, sha: Sha)
    requires NoDuplicates(order)
    ensures NoDuplicates(Without(order, sha))
  {
    if order != [] {
      var rest := Without(order[1..], sha);
      WithoutKeepsDistinct(order[1..], sha);
      assert order[0] !in order[1..];
      assert order[0] !in rest;
    }
  }

  lemma TouchKeepsSafe(c: Cache, sha: Sha)
    requires Safe(c) && ValidHit(c.disk, sha)
    ensures Safe(TouchAndHold(c, sha)) && |TouchAndHold(c, sha).order| >= 1
  {
    WithoutKeepsDistinct(c.order, sha);
  }

  /** The first `k` bases are unpinned, and each is over cap when its turn comes. */
  ghost predicate MayGo(order: seq<Sha>, cap: nat, inUse: map<Sha, int>, k: nat) {
    k <= |order| && forall i :: 0 <= i < k ==> order[i] !in inUse && |order| - i > cap
  }

  lemma OneMoreMayGo(order: seq<Sha>, cap: nat, inUse: map<Sha, int>, k: nat)
    requires |order| > cap && order[0] !in inUse && MayGo(order[1..], cap, inUse, k)
    ensures MayGo(order, cap, inUse, k + 1)
  {
    forall i | 0 <= i < k + 1
      ensures order[i] !in inUse && |order| - i > cap
    {
      if i > 0 {
        assert order[1..][i - 1] == order[i];
      }
    }
  }

  /** How many least-recent bases eviction takes before it stops. */
  function EvictCount(order: seq<Sha>, cap: nat, inUse: map<Sha, int>): (k: nat)
    ensures MayGo(order, cap, inUse, k)
    ensures |order| - k <= cap || order[k] in inUse
  {
    if |order| <= cap || order[0] in inUse then 0
    else
      var k := EvictCount(order[1..], cap, inUse);
      OneMoreMayGo(order, cap, inUse, k);
      assert k < |order| - 1 ==> order[1..][k] == order[k + 1];
      k + 1
  }

  /** What lies at the path of `s`. */
  function At(disk: map<Sha, Repo>, s: Sha): Option<Repo> {
    if s in disk then Some(disk[s]) else None
  }

  /** Eviction drops exactly that prefix of the index. At the path of each base it drops
      lies what the delete left, nothing if it succeeded; every other path is untouched. */
  lemma {:induction false} EvictionShape(c: Cache, left: map<Sha, Repo>)
    ensures
      var r, k := EvictOverCap(c, left), EvictCount(c.order, c.cap, c.inUse);
      && r.cap == c.cap && r.inUse == c.inUse && r.order == c.order[k..]
      && (forall s :: At(r.disk, s) == if s in c.order[..k] then At(left, s) else At(c.disk, s))
    decreases |c.order|
  {
    match NextEviction(c)
    case None =>
    case Some(victim) =>
      var d := c.(order := c.order[1..], disk := After(c.disk, victim, left));
      EvictionShape(d, left);
      var j := EvictCount(d.order, c.cap, c.inUse);
      assert c.order[..j + 1] == [victim] + d.order[..j];
      assert d.order[j..] == c.order[j + 1..];
  }

  lemma EvictionKeepsOthers(c: Cache, left: map<Sha, Repo>)
    ensures
      var r, k := EvictOverCap(c, left), EvictCount(c.order, c.cap, c.inUse);
      && r.cap == c.cap && r.inUse == c.inUse && r.order == c.order[k..]
      && (forall s :: s !in c.order[..k] ==> (ValidHit(r.disk, s) <==> ValidHit(c.disk, s)))
  {
    EvictionShape(c, left);
    var r, k := EvictOverCap(c, left), EvictCount(c.order, c.cap, c.inUse);
    forall s | s !in c.order[..k]
      ensures ValidHit(r.disk, s) <==> ValidHit(c.disk, s)
    {
      assert At(r.disk, s) == At(c.disk, s);
    }
  }

  /** Eviction takes only unpinned bases, never more than the excess over cap, stops
      at cap or at a pinned least-recent base, and leaves the cache safe. */
  lemma EvictionKeepsSafe(c: Cache, left: map<Sha, Repo>)
    requires Safe(c)
    ensures Safe(EvictOverCap(c, left))
    ensures
      var r := EvictOverCap(c, left);
      && r.inUse == c.inUse && r.cap == c.cap
      && |r.order| <= |c.order| && r.order == c.order[|c.order| - |r.order|..]
      && (forall s :: s in c.order && s !in r.order ==> s !in c.inUse)
      && (|r.order| < |c.order| ==> |r.order| >= c.cap)
      && (|r.order| <= c.cap || r.order[0] in c.inUse)
  {
    EvictionKeepsOthers(c, left);
    var k := EvictCount(c.order, c.cap, c.inUse);
    CutIsSafe(c.order, k);
    assert k > 0 ==> c.order[k - 1] !in c.inUse;
  }

  /** A duplicate-free index falls apart into what goes and what stays. */
  lemma CutIsSafe(order: seq<Sha>, k: nat)
    requires NoDuplicates(order) && k <= |order|
    ensures NoDuplicates(order[k..])
    ensures forall s :: s in order <==> s in order[..k] || s in order[k..]
    ensures forall s :: s in order[..k] ==> s !in order[k..]
  {
    assert order == order[..k] + order[k..];
  }

  /** Eviction ends within the cap if and only if the whole excess, the least recent
      bases beyond the cap, is unpinned. */
  lemma EvictionReachesCapIff(c: Cache, left: map<Sha, Repo>)
    ensures |EvictOverCap(c, left).order| <= c.cap <==> ExcessUnpinned(c.order, |c.order| - c.cap, c.inUse)
  {
    EvictionKeepsOthers(c, left);
    var k := EvictCount(c.order, c.cap, c.inUse);
    assert k < |c.order| && c.order[k] in c.inUse ==> !ExcessUnpinned(c.order, k + 1, c.inUse);
  }

  /** The `n` least recent bases are unpinned. */
  ghost predicate ExcessUnpinned(order: seq<Sha>, n: int, inUse: map<Sha, int>) {
    forall i :: 0 <= i < n && i < |order| ==> order[i] !in inUse
  }

  /** Every cache call keeps the cache safe, whatever the disk and network answer. */
  lemma GetKeepsSafe(c: Cache, sha: Sha, env: Env)
    requires Safe(c)
    ensures Safe(GetOrMaterialize(c, sha, env).0)
    ensures GetOrMaterialize(c, sha, env).0.cap == c.cap
  {
    if env.ready && ValidHit(c.disk, sha) {
      TouchKeepsSafe(c, sha);
    } else if env.ready && env.built {
      var d := c.(disk := c.disk[sha := Good]);
      TouchKeepsSafe(d, sha);
      EvictionKeepsSafe(TouchAndHold(d, sha), env.left);
    }
  }

  lemma ReleaseKeepsSafe(c: Cache, sha: Sha)
    requires Safe(c)
    ensures Safe(Release(c, sha))
  {
  }

  /** A successful call leaves the caller with a pinned, indexed, good repository and
      exactly one hold more; a failed one changes no hold and no index entry. */
  lemma GetOutcome(c: Cache, sha: Sha, env: Env)
    requires Safe(c)
    ensures
      var (r, ok) := GetOrMaterialize(c, sha, env);
      && (ok ==> r.inUse == Hold(c.inUse, sha) && ValidHit(r.disk, sha) && sha in r.order)
      && (!ok ==> r.inUse == c.inUse && r.order == c.order && !(env.ready && ValidHit(c.disk, sha)))
      && (forall s :: s in c.inUse ==> ValidHit(r.disk, s))
  {
    GetKeepsSafe(c, sha, env);
    if env.ready && !ValidHit(c.disk, sha) && env.built {
      GetMissKeepsHolds(c, sha, env);
    }
  }

  lemma GetMissKeepsHolds(c: Cache, sha: Sha, env: Env)
    requires Safe(c) && env.ready && env.built && !ValidHit(c.disk, sha)
    ensures
      var r := GetOrMaterialize(c, sha, env).0;
      && r.inUse == Hold(c.inUse, sha)
      && (exists k :: 0 <= k <= |Touched(c.order, sha)| && r.order == Touched(c.order, sha)[k..])
  {
    var d := c.(disk := c.disk[sha := Good]);
    TouchKeepsSafe(d, sha);
    var e := TouchAndHold(d, sha);
    EvictionKeepsSafe(e, env.left);
    var r := EvictOverCap(e, env.left);
    WithoutAbsent(c.order, sha);
    assert e.order[|c.order|] == sha && sha in e.inUse;
    assert r.order == Touched(c.order, sha)[|e.order| - |r.order|..];
  }

  /** The disk after a call, path by path: a hit changes nothing, a failed build leaves
      its remains at its own path, and a finished one its repository there and, at the
      paths of the bases it evicted, what the deletes left. */
  lemma GetDisk(c: Cache, sha: Sha, env: Env, s: Sha)
    requires Safe(c)
    ensures
      var r := GetOrMaterialize(c, sha, env).0;
      At(r.disk, s) ==
        if !env.ready || ValidHit(c.disk, sha) then At(c.disk, s)
        else if s == sha then (if env.built then Some(Good) else At(env.left, s))
        else if env.built && s in c.order && s !in r.order then At(env.left, s)
        else At(c.disk, s)
  {
    if env.ready && env.built && !ValidHit(c.disk, sha) {
      BuildDisk(c, sha, env, s);
    }
  }

  lemma BuildDisk(c: Cache, sha: Sha, env: Env, s: Sha)
    requires Safe(c) && env.ready && env.built && !ValidHit(c.disk, sha)
    ensures
      var r := GetOrMaterialize(c, sha, env).0;
      At(r.disk, s) ==
        if s == sha then Some(Good) else if s in c.order && s !in r.order then At(env.left, s) else At(c.disk, s)
  {
    var e := TouchAndHold(c.(disk := c.disk[sha := Good]), sha);
    GetOutcome(c, sha, env);
    TouchKeepsSafe(c.(disk := c.disk[sha := Good]), sha);
    EvictedDisk(e, env.left, s);
    assert e.disk == c.disk[sha := Good];
    assert s != sha ==> (s in e.order <==> s in c.order);
  }

  lemma EvictedDisk(c: Cache, left: map<Sha, Repo>, s: Sha)
    requires NoDuplicates(c.order)
    ensures
      var r := EvictOverCap(c, left);
      At(r.disk, s) == if s in c.order && s !in r.order then At(left, s) else At(c.disk, s)
  {
    EvictionShape(c, left);
    CutIsSafe(c.order, EvictCount(c.order, c.cap, c.inUse));
  }

  lemma WithoutAbsent(order: seq<Sha>, sha: Sha)
    requires sha !in order
    ensures Without(order, sha) == order
  {
  }

  /** A call that builds one more base. */
  lemma MissEndsWithinCapIff(c: Cache, sha: Sha, env: Env)
    requires Safe(c) && env.ready && env.built && !ValidHit(c.disk, sha)
    ensures
      var r := GetOrMaterialize(c, sha, env).0;
      |r.order| <= c.cap <==> ExcessUnpinned(c.order, |c.order| + 1 - c.cap, c.inUse)
  {
    WithoutAbsent(c.order, sha);
    var e := TouchAndHold(c.(disk := c.disk[sha := Good]), sha);
    EvictionReachesCapIff(e, env.left);
    assert forall i :: 0 <= i < |c.order| ==> e.order[i] == c.order[i] && (e.order[i] in e.inUse <==> c.order[i] in c.inUse);
  }

  lemma {:induction false} WithoutLength(order: seq<Sha>, sha: Sha)
    requires NoDuplicates(order)
    ensures |Without(order, sha)| == |order| - (if sha in order then 1 else 0)
  {
    if order != [] {
      WithoutLength(order[1..], sha);
      assert order[0] !in order[1..];
    }
  }

  /** What a caller can look up before the call. A hit never evicts: it ends within the
      cap if and only if the index, with this base, fits. A build does if and only if the
      least recent bases that then exceed the cap are unpinned now. A failed call leaves
      the index as it was. */
  lemma GetEndsWithinCapIff(c: Cache, sha: Sha, env: Env)
    requires Safe(c)
    ensures
      var r := GetOrMaterialize(c, sha, env).0;
      |r.order| <= c.cap <==>
        if env.ready && ValidHit(c.disk, sha) then |c.order| + (if sha in c.order then 0 else 1) <= c.cap
        else if env.ready && env.built then ExcessUnpinned(c.order, |c.order| + 1 - c.cap, c.inUse)
        else |c.order| <= c.cap
  {
    WithoutLength(c.order, sha);
    if env.ready && env.built && !ValidHit(c.disk, sha) {
      MissEndsWithinCapIff(c, sha, env);
    }
  }

  // ---- Whole runs of calls ----

  datatype Call = Get(sha: Sha, env: Env) | Let(sha: Sha)

  function Apply(c: Cache, call: Call): Cache {
    match call
    case Get(sha, env) => GetOrMaterialize(c, sha, env).0
    case Let(sha) => Release(c, sha)
  }

  function Run(c: Cache, calls: seq<Call>): Cache {
    if calls == [] then c else Apply(Run(c, calls[..|calls| - 1]), calls[|calls| - 1])
  }

  function Fresh(cap: nat, disk: map<Sha, Repo>): Cache {
    Cache(if cap == 0 then 1 else cap, [], map[], disk)
  }

  /** True when call `i` handed out `sha`. */
  ghost predicate Served(c: Cache, calls: seq<Call>, i: nat, sha: Sha)
    requires i < |calls|
  {
    calls[i].Get? && calls[i].sha == sha && GetOrMaterialize(Run(c, calls[..i]), sha, calls[i].env).1
  }

  /** One past the last call that handed out `sha`; 0 when none did. */
  ghost function LastUse(c: Cache, calls: seq<Call>, sha: Sha): (n: nat)
    ensures n <= |calls|
  {
    if calls == [] then 0
    else
      var n := |calls| - 1;
      if Served(c, calls, n, sha) then n + 1 else LastUse(c, calls[..n], sha)
  }

  ghost predicate OrderedByUse(c: Cache, calls: seq<Call>) {
    var r := Run(c, calls);
    && (forall s :: s in r.order ==> LastUse(c, calls, s) > 0)
    && (forall i, j :: 0 <= i < j < |r.order| ==> LastUse(c, calls, r.order[i]) < LastUse(c, calls, r.order[j]))
  }

  ghost predicate Ascending(order: seq<Sha>, rank: Sha -> int) {
    forall i, j :: 0 <= i < j < |order| ==> rank(order[i]) < rank(order[j])
  }

  lemma {:induction false} WithoutKeepsAscending(order: seq<Sha>, sha: Sha, rank: Sha -> int)
    requires Ascending(order, rank)
    ensures Ascending(Without(order, sha), rank)
  {
    if order != [] {
      WithoutKeepsAscending(order[1..], sha, rank);
      var rest := Without(order[1..], sha);
      assert forall k :: 0 <= k < |rest| ==> rest[k] in order[1..];
    }
  }

  /** Touching `sha` and dropping a prefix keeps the index in order of last use,
      once `sha` ranks above everything else. */
  lemma TouchKeepsAscending(order: seq<Sha>, sha: Sha, k: nat, rank: Sha -> int, rank': Sha -> int)
    requires Ascending(order, rank)
    requires forall s :: s in order && s != sha ==> rank'(s) == rank(s) < rank'(sha)
    requires k <= |Touched(order, sha)|
    requires forall s :: s in order || s == sha ==> rank'(s) > 0
    ensures Ascending(Touched(order, sha)[k..], rank')
    ensures forall s :: s in Touched(order, sha)[k..] ==> rank'(s) > 0
  {
    WithoutKeepsAscending(order, sha, rank);
    var others, touched := Without(order, sha), Touched(order, sha);
    assert forall i :: 0 <= i < |others| ==> others[i] in order && others[i] != sha;
    forall i, j | 0 <= i < j < |touched|
      ensures rank'(touched[i]) < rank'(touched[j])
    {
      assert touched[i] == others[i];
    }
  }

  lemma LastUseStep(c: Cache, calls: seq<Call>, sha: Sha, env: Env)
    requires calls != [] && calls[|calls| - 1] == Get(sha, env)
    ensures forall s :: s != sha ==> LastUse(c, calls, s) == LastUse(c, calls[..|calls| - 1], s)
    ensures
      var n := |calls| - 1;
      if GetOrMaterialize(Run(c, calls[..n]), sha, env).1 then LastUse(c, calls, sha) == n + 1
      else LastUse(c, calls, sha) == LastUse(c, calls[..n], sha)
  {
  }

  lemma GetReorders(c: Cache, sha: Sha, env: Env) returns (k: nat)
    requires Safe(c) && GetOrMaterialize(c, sha, env).1
    ensures k <= |Touched(c.order, sha)|
    ensures GetOrMaterialize(c, sha, env).0.order == Touched(c.order, sha)[k..]
  {
    k := 0;
    if !ValidHit(c.disk, sha) {
      GetMissKeepsHolds(c, sha, env);
      k :| 0 <= k <= |Touched(c.order, sha)| && GetOrMaterialize(c, sha, env).0.order == Touched(c.order, sha)[k..];
    }
  }

  lemma GetKeepsOrder(c: Cache, calls: seq<Call>, sha: Sha, env: Env)
    requires calls != [] && calls[|calls| - 1] == Get(sha, env)
    requires Safe(Run(c, calls[..|calls| - 1]))
    requires OrderedByUse(c, calls[..|calls| - 1])
    ensures OrderedByUse(c, calls)
  {
    var n := |calls| - 1;
    var before := Run(c, calls[..n]);
    LastUseStep(c, calls, sha, env);
    if GetOrMaterialize(before, sha, env).1 {
      var rank := s => LastUse(c, calls[..n], s);
      var rank' := s => LastUse(c, calls, s);
      var k := GetReorders(before, sha, env);
      TouchKeepsAscending(before.order, sha, k, rank, rank');
      var r := Run(c, calls);
      assert r.order == Touched(before.order, sha)[k..];
    } else {
      GetOutcome(before, sha, env);
    }
  }

  /** In every reachable state pinned is within indexed is within good on disk, and
      the index is duplicate-free and ordered by last use. */
  lemma {:induction false} ReachableCacheIsSafe(cap: nat, disk: map<Sha, Repo>, calls: seq<Call>)
    ensures Safe(Run(Fresh(cap, disk), calls))
    ensures Run(Fresh(cap, disk), calls).cap == if cap == 0 then 1 else cap
    ensures OrderedByUse(Fresh(cap, disk), calls)
  {
    if calls != [] {
      var n := |calls| - 1;
      var c := Fresh(cap, disk);
      ReachableCacheIsSafe(cap, disk, calls[..n]);
      match calls[n]
      case Let(sha) =>
        ReleaseKeepsSafe(Run(c, calls[..n]), sha);
        assert forall s :: LastUse(c, calls, s) == LastUse(c, calls[..n], s);
      case Get(sha, env) =>
        GetKeepsSafe(Run(c, calls[..n]), sha, env);
        GetKeepsOrder(c, calls, sha, env);
    }
  }

  // ---- What eviction does not promise ----

  function Name(i: nat): Sha {
    seq(i, _ => 'x')
  }

  /** Hold one base for good and let `n` others come and go. */
  function PinThenStream(n: nat): seq<Call> {
    var env := Env(true, true, map[]);
    if n == 0 then [Get(Name(0), env)]
    else PinThenStream(n - 1) + [Get(Name(n), env), Let(Name(n))]
  }

  /** Bases 0 to n in the index, and only base 0 in use. */
  ghost predicate OnlyFirstPinned(c: Cache, cap: nat, n: nat) {
    && c.order == seq(n + 1, i requires 0 <= i => Name(i))
    && c.inUse == map[Name(0) := 1]
    && c.cap == Fresh(cap, map[]).cap
    && (forall s :: s in c.disk ==> s in c.order)
  }

  /** A single pinned least-recent base stops all eviction behind it: the index then
      grows past any bound, though only one base is in use. */
  lemma {:induction false} OnePinStopsEviction(cap: nat, n: nat)
    ensures OnlyFirstPinned(Run(Fresh(cap, map[]), PinThenStream(n)), cap, n)
  {
    var c := Fresh(cap, map[]);
    var env := Env(true, true, map[]);
    if n == 0 {
      FirstPin(cap);
    } else {
      OnePinStopsEviction(cap, n - 1);
      RunTwo(c, PinThenStream(n - 1), Get(Name(n), env), Let(Name(n)));
      StreamOne(Run(c, PinThenStream(n - 1)), cap, n);
    }
  }

  lemma FirstPin(cap: nat)
    ensures OnlyFirstPinned(Run(Fresh(cap, map[]), PinThenStream(0)), cap, 0)
  {
    var c, calls := Fresh(cap, map[]), PinThenStream(0);
    assert calls[..0] == [];
    assert Run(c, calls) == Apply(c, calls[0]);
  }

  lemma RunTwo(c: Cache, calls: seq<Call>, a: Call, b: Call)
    ensures Run(c, calls + [a, b]) == Apply(Apply(Run(c, calls), a), b)
  {
    var all := calls + [a, b];
    var m := |all| - 1;
    assert all[..m] == calls + [a];
    assert all[..m][..m - 1] == calls;
  }

  lemma StreamOne(before: Cache, cap: nat, n: nat)
    requires n > 0 && OnlyFirstPinned(before, cap, n - 1)
    ensures OnlyFirstPinned(Apply(Apply(before, Get(Name(n), Env(true, true, map[]))), Let(Name(n))), cap, n)
  {
    assert forall i :: 0 <= i < n ==> |before.order[i]| == i;
    assert |Name(n)| == n && |Name(0)| == 0;
    WithoutAbsent(before.order, Name(n));
    var d := TouchAndHold(before.(disk := before.disk[Name(n) := Good]), Name(n));
    assert d.order[0] == Name(0) && Name(0) in d.inUse;
    assert NextEviction(d) == None;
    assert d.inUse == map[Name(0) := 1, Name(n) := 1];
    assert d.inUse - {Name(n)} == map[Name(0) := 1];
  }

  /** Bases 0 to n - 1 are good on disk, as a restarted worker finds them. */
  function Stocked(n: nat): map<Sha, Repo> {
    if n == 0 then map[] else Stocked(n - 1)[Name(n - 1) := Good]
  }

  lemma {:induction false} StockedHas(n: nat, i: nat)
    requires i < n
    ensures ValidHit(Stocked(n), Name(i))
  {
    if i < n - 1 {
      StockedHas(n - 1, i);
      assert |Name(i)| == i && |Name(n - 1)| == n - 1;
    }
  }

  /** Use bases 0 to m - 1 one after the other, letting go of each at once. */
  function UseEach(m: nat, env: Env): seq<Call> {
    if m == 0 then [] else UseEach(m - 1, env) + [Get(Name(m - 1), env), Let(Name(m - 1))]
  }

  /** Without any pin: bases already good on disk enter the index by hits, and hits never
      evict. With nothing in use the index holds all of them, whatever the cap. */
  lemma {:induction false} HitsAloneOutgrowCap(cap: nat, n: nat, m: nat, env: Env)
    requires m <= n && env.ready
    ensures
      Run(Fresh(cap, Stocked(n)), UseEach(m, env)) ==
        Fresh(cap, Stocked(n)).(order := seq(m, i requires 0 <= i => Name(i)))
  {
    var c := Fresh(cap, Stocked(n));
    if m > 0 {
      HitsAloneOutgrowCap(cap, n, m - 1, env);
      RunTwo(c, UseEach(m - 1, env), Get(Name(m - 1), env), Let(Name(m - 1)));
      StockedHas(n, m - 1);
      UseOne(c, m - 1, env);
    }
  }

  lemma UseOne(c: Cache, m: nat, env: Env)
    requires env.ready && ValidHit(c.disk, Name(m)) && c.inUse == map[]
    ensures
      var before := c.(order := seq(m, i requires 0 <= i => Name(i)));
      Apply(Apply(before, Get(Name(m), env)), Let(Name(m))) == c.(order := seq(m + 1, i requires 0 <= i => Name(i)))
  {
    var order := seq(m, i requires 0 <= i => Name(i));
    assert forall i :: 0 <= i < m ==> |order[i]| == i;
    assert |Name(m)| == m;
    WithoutAbsent(order, Name(m));
    assert Touched(order, Name(m)) == seq(m + 1, i requires 0 <= i => Name(i));
    assert Drop(Hold(map[], Name(m)), Name(m)) == map[];
  }
}
