/** The worker's claim loop and coder tasks as a step machine: a permit semaphore,
    an in-flight counter, the presence flag and the cache of bases with their holds,
    under every interleaving of tasks at their await points. */
module WorkerProtocol {
  import opened Wrappers
  import opened BaseCache

  datatype Presence = Idle | Working(task: string)

  /** Where a coder task stands. */
  datatype Pc =
    | Spawned             // claimed and spawned, not counted yet
    | Counted             // counter incremented
    | Preparing           // inside the 20 s fast-path timeout, no hold yet
    | Attaching           // hold taken: evicting or adding the worktree, still under the timeout
    | AttachFailed        // adding the worktree failed; its release is still under the timeout
    | FallingBack         // fast path given up, cloning in full
    | Running(shared: bool)  // coder at work, on a shared base or on a private clone
    | Cleaning            // coder done on a shared base, hold not yet released
    | Returned            // processing over
    | LastOut             // counter went from 1 to 0; this task owes the Idle write
    | Publishing
    | Acking
    | Exiting             // acked; permit still held
    | Done

  /** `stranded` records that the timeout cancelled this task while it held its base. */
  datatype Task = Task(sha: Sha, text: string, pc: Pc, stranded: bool)

  datatype Loop = Waiting | Holding  // the claim loop, without or with a permit in hand

  datatype State = State(
    permits: int, loop: Loop, tasks: seq<Task>, inflight: int, presence: Presence, cache: Cache)

  /** `Pin` and `FastPathError` are a whole cache call that succeeds or fails. `left` is
      what a timeout leaves on disk where it cancels such a call. */
  datatype Action =
    | Add | AnnounceWorking | SetupError | FastPathError(env: Env) | Pin(env: Env) | Attach | AttachError
    | ReleaseFailed | Timeout(left: map<Sha, Repo>) | Clone | CloneError | CoderEnds | ReleaseHold
    | Sub | AnnounceIdle | Publish | Ack | Exit

  datatype Step = Acquire | NothingClaimed | Claim(sha: Sha, text: string) | Act(task: nat, action: Action)

  /** The permit count the worker starts with: at least one coder may run. */
  function Limit(maxCoders: nat): nat {
    if maxCoders == 0 then 1 else maxCoders
  }

  /** The worker's cache holds this many bases. */
  function CacheCap(maxCoders: nat): nat {
    maxCoders * 2 + 4
  }

  function Init(maxCoders: nat, disk: map<Sha, Repo>): State {
    State(Limit(maxCoders), Waiting, [], 0, Idle, Fresh(CacheCap(maxCoders), disk))
  }

  /** Successor program point of a task, or None when the action is not its next move.
      `last` says the counter reads 1. */
  function NextPc(pc: Pc, a: Action, last: bool): Option<Pc> {
    match a
    case Add => if pc.Spawned? then Some(Counted) else None
    case AnnounceWorking => if pc.Counted? then Some(Preparing) else None
    case SetupError => if pc.Preparing? then Some(Returned) else None
    case FastPathError(_) => if pc.Preparing? then Some(FallingBack) else None
    case Pin(_) => if pc.Preparing? then Some(Attaching) else None
    case Attach => if pc.Attaching? then Some(Running(true)) else None
    case AttachError => if pc.Attaching? then Some(AttachFailed) else None
    case ReleaseFailed => if pc.AttachFailed? then Some(FallingBack) else None
    case Timeout(_) => if pc.Preparing? || pc.Attaching? || pc.AttachFailed? then Some(FallingBack) else None
    case Clone => if pc.FallingBack? then Some(Running(false)) else None
    case CloneError => if pc.FallingBack? then Some(Returned) else None
    case CoderEnds => if pc.Running? then Some(if pc.shared then Cleaning else Returned) else None
    case ReleaseHold => if pc.Cleaning? then Some(Returned) else None
    case Sub => if pc.Returned? then Some(if last then LastOut else Publishing) else None
    case AnnounceIdle => if pc.LastOut? then Some(Publishing) else None
    case Publish => if pc.Publishing? then Some(Acking) else None
    case Ack => if pc.Acking? then Some(Exiting) else None
    case Exit => if pc.Exiting? then Some(Done) else None
  }

  predicate AtHold(pc: Pc) {
    pc.Attaching? || pc.AttachFailed? || pc == Running(true) || pc.Cleaning?
  }

  function Moved(t: Task, a: Action, pc: Pc): Task {
    t.(pc := pc, stranded := t.stranded || (a.Timeout? && AtHold(t.pc)))
  }

  /** One step of the machine; None when the step is not enabled. */
  function Next(s: State, step: Step): Option<State> {
    match step
    case Acquire =>
      if s.loop.Waiting? && s.permits > 0 then Some(s.(permits := s.permits - 1, loop := Holding)) else None
    case NothingClaimed =>
      if s.loop.Holding? then Some(s.(permits := s.permits + 1, loop := Waiting)) else None
    case Claim(sha, text) =>
      if s.loop.Holding?
      then Some(s.(loop := Waiting, tasks := s.tasks + [Task(sha, text, Spawned, false)]))
      else None
    case Act(i, a) =>
      if i >= |s.tasks| then None
      else
        var t := s.tasks[i];
        match NextPc(t.pc, a, s.inflight == 1)
        case None => None
        case Some(pc) =>
          if CacheAnswers(s.cache, t.sha, a) then Some(Effect(s.(tasks := s.tasks[i := Moved(t, a, pc)]), t, a))
          else None
  }

  /** A cache call ends as the action says. */
  predicate CacheAnswers(c: Cache, sha: Sha, a: Action) {
    match a
    case Pin(env) => GetOrMaterialize(c, sha, env).1
    case FastPathError(env) => !GetOrMaterialize(c, sha, env).1
    case _ => true
  }

  /** The cache when a call that built `sha` is cancelled. */
  function Cancelled(c: Cache, sha: Sha, left: map<Sha, Repo>): Cache {
    if ValidHit(c.disk, sha) then c else c.(disk := After(c.disk, sha, left))
  }

  /** A cancelled call touches one path at most, and never a good repository. */
  lemma CancelledDisk(c: Cache, sha: Sha, left: map<Sha, Repo>, s: Sha)
    ensures Cancelled(c, sha, left).order == c.order && Cancelled(c, sha, left).inUse == c.inUse
    ensures At(Cancelled(c, sha, left).disk, s) ==
      if s == sha && At(c.disk, sha) != Some(Good) then At(left, sha) else At(c.disk, s)
  {
  }

  function CacheAfter(c: Cache, t: Task, a: Action): Cache {
    match a
    case Pin(env) => GetOrMaterialize(c, t.sha, env).0
    case FastPathError(env) => GetOrMaterialize(c, t.sha, env).0
    case Timeout(left) => if t.pc.Preparing? then Cancelled(c, t.sha, left) else c
    case ReleaseFailed => Release(c, t.sha)
    case ReleaseHold => Release(c, t.sha)
    case _ => c
  }

  /** What an action does to the shared state. */
  function Effect(s: State, t: Task, a: Action): State {
    var s := s.(cache := CacheAfter(s.cache, t, a));
    match a
    case Add => s.(inflight := s.inflight + 1)
    case AnnounceWorking => s.(presence := Working(t.text))
    case Sub => s.(inflight := s.inflight - 1)
    case AnnounceIdle => s.(presence := Idle)
    case Exit => s.(permits := s.permits + 1)
    case _ => s
  }

  /** The state after a schedule, or None when some step of it was not enabled. */
  function Run(maxCoders: nat, disk: map<Sha, Repo>, steps: seq<Step>): Option<State> {
    if steps == [] then Some(Init(maxCoders, disk))
    else
      match Run(maxCoders, disk, steps[..|steps| - 1])
      case None => None
      case Some(s) => Next(s, steps[|steps| - 1])
  }

  // ---- Who counts ----

  predicate Unfinished(t: Task) {
    !t.pc.Done?
  }

  /** Between the counter's add and its sub. */
  predicate InFlight(t: Task) {
    match t.pc
    case Spawned | LastOut | Publishing | Acking | Exiting | Done => false
    case _ => true
  }

  /** Past mark_in_use and before release, or cancelled in between. */
  predicate Holds(t: Task) {
    AtHold(t.pc) || t.stranded
  }

  /** Indices of the tasks for which `p` holds. */
  ghost function Where(tasks: seq<Task>, p: Task -> bool): set<nat> {
    set i: nat | i < |tasks| && p(tasks[i])
  }

  ghost function HolderOf(sha: Sha): Task -> bool {
    (t: Task) => t.sha == sha && Holds(t)
  }

  lemma WhereUpdate(tasks: seq<Task>, i: nat, t: Task, p: Task -> bool)
    requires i < |tasks|
    ensures
      |Where(tasks[i := t], p)| ==
        |Where(tasks, p)| + (if p(t) then 1 else 0) - (if p(tasks[i]) then 1 else 0)
  {
    WhereUpdateSet(tasks, i, t, p);
    OneMoreOrLess(Where(tasks, p), i);
    assert i in Where(tasks, p) <==> p(tasks[i]);
  }

  lemma WhereUpdateSet(tasks: seq<Task>, i: nat, t: Task, p: Task -> bool)
    requires i < |tasks|
    ensures Where(tasks[i := t], p) == (if p(t) then Where(tasks, p) + {i} else Where(tasks, p) - {i})
  {
    forall j: nat
      ensures j in Where(tasks[i := t], p) <==> if j == i then p(t) else j in Where(tasks, p)
    {
    }
  }

  lemma OneMoreOrLess(s: set<nat>, i: nat)
    ensures |s + {i}| == |s| + if i in s then 0 else 1
    ensures |s - {i}| == |s| - if i in s then 1 else 0
  {
    if i in s {
      assert s + {i} == s;
    } else {
      assert s - {i} == s;
    }
  }

  lemma WhereAppend(tasks: seq<Task>, t: Task, p: Task -> bool)
    ensures Where(tasks + [t], p) == (if p(t) then Where(tasks, p) + {|tasks|} else Where(tasks, p))
    ensures |Where(tasks + [t], p)| == |Where(tasks, p)| + (if p(t) then 1 else 0)
  {
    assert Where(tasks + [t], p) == if p(t) then Where(tasks, p) + {|tasks|} else Where(tasks, p);
  }

  // ---- Invariants ----

  /** Every permit is free, in the loop's hand, or with one unfinished task. */
  ghost predicate PermitsBalance(s: State, slots: nat) {
    s.permits >= 0 &&
    s.permits + (if s.loop.Holding? then 1 else 0) + |Where(s.tasks, Unfinished)| == slots
  }

  ghost predicate CounterExact(s: State) {
    s.inflight == |Where(s.tasks, InFlight)|
  }

  /** While presence says Working, some task is counted or still owes the Idle write. */
  ghost predicate PresenceBacked(s: State) {
    s.presence.Working? ==> exists i :: 0 <= i < |s.tasks| && (InFlight(s.tasks[i]) || s.tasks[i].pc.LastOut?)
  }

  /** The hold map counts holders, base by base, and lists no base without one. */
  ghost predicate LedgerExact(s: State) {
    forall sha ::
      && (sha in s.cache.inUse <==> Where(s.tasks, HolderOf(sha)) != {})
      && (sha in s.cache.inUse ==> s.cache.inUse[sha] == |Where(s.tasks, HolderOf(sha))|)
  }

  /** Only a task that gave up the fast path is ever marked stranded. */
  ghost predicate StrandedAreBeyond(s: State) {
    forall i :: 0 <= i < |s.tasks| && s.tasks[i].stranded ==>
      !AtHold(s.tasks[i].pc) && !s.tasks[i].pc.Spawned? && !s.tasks[i].pc.Counted? && !s.tasks[i].pc.Preparing?
  }

  /** Which actions cross the boundaries the counts watch. */
  lemma MoveFacts(t: Task, a: Action, last: bool)
    requires NextPc(t.pc, a, last).Some?
    ensures
      var t' := Moved(t, a, NextPc(t.pc, a, last).value);
      && t'.sha == t.sha
      && Unfinished(t) && (Unfinished(t') <==> !a.Exit?)
      && (a.Add? ==> !InFlight(t) && InFlight(t'))
      && (a.Sub? ==> InFlight(t) && !InFlight(t'))
      && (!a.Add? && !a.Sub? ==> (InFlight(t) <==> InFlight(t')))
      && (a.Pin? ==> !AtHold(t.pc) && Holds(t'))
      && (a.ReleaseFailed? || a.ReleaseHold? ==> AtHold(t.pc) && !AtHold(t'.pc) && t'.stranded == t.stranded)
      && (!a.Pin? && !a.ReleaseFailed? && !a.ReleaseHold? ==> (Holds(t) <==> Holds(t')))
  {
  }

  lemma ActShape(s: State, i: nat, a: Action)
    requires Next(s, Act(i, a)).Some?
    ensures i < |s.tasks| && NextPc(s.tasks[i].pc, a, s.inflight == 1).Some? && CacheAnswers(s.cache, s.tasks[i].sha, a)
    ensures
      var t := s.tasks[i];
      var t' := Moved(t, a, NextPc(t.pc, a, s.inflight == 1).value);
      var s' := Next(s, Act(i, a)).value;
      && s'.tasks == s.tasks[i := t'] && s'.loop == s.loop
      && s'.permits == s.permits + (if a.Exit? then 1 else 0)
      && s'.inflight == s.inflight + (if a.Add? then 1 else if a.Sub? then -1 else 0)
      && s'.cache == CacheAfter(s.cache, t, a)
  {
  }

  /** Every action keeps the cache safe, and moves only the mover's holds. */
  lemma CacheMoves(c: Cache, t: Task, a: Action)
    requires Safe(c) && CacheAnswers(c, t.sha, a)
    ensures
      var d := CacheAfter(c, t, a);
      && Safe(d)
      && d.inUse ==
           (if a.Pin? then Hold(c.inUse, t.sha)
            else if a.ReleaseFailed? || a.ReleaseHold? then Drop(c.inUse, t.sha) else c.inUse)
  {
    if a.Pin? || a.FastPathError? {
      GetKeepsSafe(c, t.sha, a.env);
      GetOutcome(c, t.sha, a.env);
    } else if a.ReleaseFailed? || a.ReleaseHold? {
      ReleaseKeepsSafe(c, t.sha);
    }
  }

  lemma PermitsKept(s: State, step: Step, slots: nat)
    requires Next(s, step).Some? && PermitsBalance(s, slots)
    ensures PermitsBalance(Next(s, step).value, slots)
  {
    match step
    case Acquire =>
    case NothingClaimed =>
    case Claim(sha, text) => WhereAppend(s.tasks, Task(sha, text, Spawned, false), Unfinished);
    case Act(i, a) =>
      ActShape(s, i, a);
      MoveFacts(s.tasks[i], a, s.inflight == 1);
      WhereUpdate(s.tasks, i, Next(s, step).value.tasks[i], Unfinished);
  }

  lemma CounterKept(s: State, step: Step)
    requires CounterExact(s) && Next(s, step).Some?
    ensures CounterExact(Next(s, step).value)
  {
    match step
    case Acquire =>
    case NothingClaimed =>
    case Claim(sha, text) => WhereAppend(s.tasks, Task(sha, text, Spawned, false), InFlight);
    case Act(i, a) =>
      ActShape(s, i, a);
      MoveFacts(s.tasks[i], a, s.inflight == 1);
      WhereUpdate(s.tasks, i, Next(s, step).value.tasks[i], InFlight);
  }

  lemma PresenceKept(s: State, step: Step)
    requires PresenceBacked(s) && CounterExact(s) && Next(s, step).Some?
    ensures PresenceBacked(Next(s, step).value)
  {
    var s' := Next(s, step).value;
    if s'.presence.Working? {
      match step
      case Acquire =>
      case NothingClaimed =>
      case Claim(sha, text) =>
        var k :| 0 <= k < |s.tasks| && (InFlight(s.tasks[k]) || s.tasks[k].pc.LastOut?);
        assert s'.tasks[k] == s.tasks[k];
      case Act(i, a) =>
        if InFlight(s'.tasks[i]) || s'.tasks[i].pc.LastOut? {
        } else if a.Sub? {
          // Not the last one out: the counter proves that another task is in flight.
          CounterKept(s, step);
          assert |Where(s'.tasks, InFlight)| != 0;
          var k :| k in Where(s'.tasks, InFlight);
          assert InFlight(s'.tasks[k]);
        } else {
          var k :| 0 <= k < |s.tasks| && (InFlight(s.tasks[k]) || s.tasks[k].pc.LastOut?);
          assert k != i;
          assert s'.tasks[k] == s.tasks[k];
        }
    }
  }

  lemma StrandedKept(s: State, step: Step)
    requires StrandedAreBeyond(s) && Next(s, step).Some?
    ensures StrandedAreBeyond(Next(s, step).value)
  {
  }

  lemma LedgerKept(s: State, step: Step)
    requires Safe(s.cache) && LedgerExact(s) && StrandedAreBeyond(s) && Next(s, step).Some?
    ensures LedgerExact(Next(s, step).value)
  {
    var s' := Next(s, step).value;
    forall sha
      ensures
        && (sha in s'.cache.inUse <==> Where(s'.tasks, HolderOf(sha)) != {})
        && (sha in s'.cache.inUse ==> s'.cache.inUse[sha] == |Where(s'.tasks, HolderOf(sha))|)
    {
      assert sha in s.cache.inUse <==> Where(s.tasks, HolderOf(sha)) != {};
      match step
      case Acquire =>
      case NothingClaimed =>
      case Claim(c, text) => WhereAppend(s.tasks, Task(c, text, Spawned, false), HolderOf(sha));
      case Act(i, a) => LedgerKeptFor(s, i, a, sha);
    }
  }

  lemma LedgerKeptFor(s: State, i: nat, a: Action, sha: Sha)
    requires i < |s.tasks| && Next(s, Act(i, a)).Some? && StrandedAreBeyond(s) && Safe(s.cache)
    requires sha in s.cache.inUse <==> Where(s.tasks, HolderOf(sha)) != {}
    requires sha in s.cache.inUse ==> s.cache.inUse[sha] == |Where(s.tasks, HolderOf(sha))|
    ensures
      var s' := Next(s, Act(i, a)).value;
      && (sha in s'.cache.inUse <==> Where(s'.tasks, HolderOf(sha)) != {})
      && (sha in s'.cache.inUse ==> s'.cache.inUse[sha] == |Where(s'.tasks, HolderOf(sha))|)
  {
    ActShape(s, i, a);
    MoveFacts(s.tasks[i], a, s.inflight == 1);
    CacheMoves(s.cache, s.tasks[i], a);
    var t, t' := s.tasks[i], Next(s, Act(i, a)).value.tasks[i];
    WhereUpdate(s.tasks, i, t', HolderOf(sha));
    HoldCount(s.cache.inUse, t.sha, sha);
    var before := Where(s.tasks, HolderOf(sha));
    assert i in before <==> t.sha == sha && Holds(t);
    assert a.Pin? ==> !t.stranded;
    assert a.ReleaseFailed? || a.ReleaseHold? ==> !t.stranded;
  }

  /** Hold and Drop move one base's count by one and leave the others alone. */
  lemma HoldCount(inUse: map<Sha, int>, c: Sha, sha: Sha)
    ensures c == sha ==> sha in Hold(inUse, c) && Hold(inUse, c)[sha] == (if sha in inUse then inUse[sha] else 0) + 1
    ensures c != sha ==> (sha in Hold(inUse, c) <==> sha in inUse) && (sha in Drop(inUse, c) <==> sha in inUse)
    ensures c != sha && sha in inUse ==> Hold(inUse, c)[sha] == inUse[sha] && Drop(inUse, c)[sha] == inUse[sha]
    ensures c == sha && sha in inUse && inUse[sha] == 1 ==> sha !in Drop(inUse, c)
    ensures c == sha && sha in inUse && inUse[sha] > 1 ==> sha in Drop(inUse, c) && Drop(inUse, c)[sha] == inUse[sha] - 1
  {
  }

  // ---- Main results, over every schedule ----

  ghost predicate Inv(s: State, slots: nat) {
    && PermitsBalance(s, slots) && CounterExact(s) && PresenceBacked(s)
    && Safe(s.cache) && LedgerExact(s) && StrandedAreBeyond(s)
  }

  lemma {:induction false} EveryScheduleKeepsInv(maxCoders: nat, disk: map<Sha, Repo>, steps: seq<Step>)
    requires Run(maxCoders, disk, steps).Some?
    ensures Inv(Run(maxCoders, disk, steps).value, Limit(maxCoders))
  {
    if steps != [] {
      var n := |steps| - 1;
      EveryScheduleKeepsInv(maxCoders, disk, steps[..n]);
      var s := Run(maxCoders, disk, steps[..n]).value;
      PermitsKept(s, steps[n], Limit(maxCoders));
      CounterKept(s, steps[n]);
      PresenceKept(s, steps[n]);
      if steps[n].Act? {
        ActShape(s, steps[n].task, steps[n].action);
        CacheMoves(s.cache, s.tasks[steps[n].task], steps[n].action);
      }
      StrandedKept(s, steps[n]);
      LedgerKept(s, steps[n]);
    } else {
      assert forall sha :: Where(Init(maxCoders, disk).tasks, HolderOf(sha)) == {};
      assert Where(Init(maxCoders, disk).tasks, InFlight) == {};
      assert Where(Init(maxCoders, disk).tasks, Unfinished) == {};
    }
  }

  /** Claimed and unfinished items never exceed the configured concurrency, at least one;
      a waiting loop can take a permit exactly while fewer are unfinished, and a loop with
      a permit in hand has room for one more. The in-flight counter is exactly the number
      of tasks between its add and its sub. */
  lemma ConcurrencyBounded(maxCoders: nat, disk: map<Sha, Repo>, steps: seq<Step>)
    requires Run(maxCoders, disk, steps).Some?
    ensures
      var s := Run(maxCoders, disk, steps).value;
      var n, unfinished := if maxCoders == 0 then 1 else maxCoders, |Where(s.tasks, Unfinished)|;
      && unfinished <= n
      && (s.loop.Waiting? ==> (Next(s, Acquire).Some? <==> unfinished < n))
      && (s.loop.Holding? ==> unfinished < n)
      && s.inflight == |Where(s.tasks, InFlight)| <= unfinished
  {
    EveryScheduleKeepsInv(maxCoders, disk, steps);
    var tasks := Run(maxCoders, disk, steps).value.tasks;
    SubsetSize(Where(tasks, InFlight), Where(tasks, Unfinished));
  }

  lemma {:induction false} SubsetSize(a: set<nat>, b: set<nat>)
    requires a <= b
    ensures |a| <= |b|
  {
    assert b == a + (b - a);
  }

  /** Whenever no task is counted or owes the Idle write, presence reads Idle. */
  lemma QuiescentPresenceIsIdle(maxCoders: nat, disk: map<Sha, Repo>, steps: seq<Step>)
    requires Run(maxCoders, disk, steps).Some?
    requires forall t :: t in Run(maxCoders, disk, steps).value.tasks ==> !InFlight(t) && !t.pc.LastOut?
    ensures Run(maxCoders, disk, steps).value.presence == Idle
  {
    EveryScheduleKeepsInv(maxCoders, disk, steps);
  }

  /** A live coder's repository never vanishes: in every reachable state the base of each
      task that is attaching, running on it or cleaning up is pinned, indexed and good on
      disk, whatever other tasks build, evict, cancel or release. */
  lemma CoderKeepsItsBase(maxCoders: nat, disk: map<Sha, Repo>, steps: seq<Step>, i: nat)
    requires Run(maxCoders, disk, steps).Some? && i < |Run(maxCoders, disk, steps).value.tasks|
    requires AtHold(Run(maxCoders, disk, steps).value.tasks[i].pc)
    ensures
      var s := Run(maxCoders, disk, steps).value;
      var sha := s.tasks[i].sha;
      sha in s.cache.inUse && sha in s.cache.order && ValidHit(s.cache.disk, sha)
  {
    EveryScheduleKeepsInv(maxCoders, disk, steps);
    var s := Run(maxCoders, disk, steps).value;
    assert i in Where(s.tasks, HolderOf(s.tasks[i].sha));
  }

  /** A release in a reachable state always finds its hold: the count is at least
      one, so the decrement never underflows. */
  lemma ReleaseFindsItsHold(maxCoders: nat, disk: map<Sha, Repo>, steps: seq<Step>, i: nat, a: Action)
    requires Run(maxCoders, disk, steps).Some? && (a.ReleaseHold? || a.ReleaseFailed?)
    requires Next(Run(maxCoders, disk, steps).value, Act(i, a)).Some?
    ensures
      var s := Run(maxCoders, disk, steps).value;
      s.tasks[i].sha in s.cache.inUse && s.cache.inUse[s.tasks[i].sha] >= 1
  {
    EveryScheduleKeepsInv(maxCoders, disk, steps);
    var s := Run(maxCoders, disk, steps).value;
    assert i in Where(s.tasks, HolderOf(s.tasks[i].sha));
  }

  /** Once every task has ended, the hold map counts exactly the stranded ones. */
  lemma StrandedAtRest(maxCoders: nat, disk: map<Sha, Repo>, steps: seq<Step>)
    requires Run(maxCoders, disk, steps).Some?
    requires forall t :: t in Run(maxCoders, disk, steps).value.tasks ==> t.pc.Done?
    ensures
      var s := Run(maxCoders, disk, steps).value;
      && (forall i :: 0 <= i < |s.tasks| && s.tasks[i].stranded ==> s.tasks[i].sha in s.cache.inUse)
      && (forall sha :: sha in s.cache.inUse ==>
           var stranded := set i: nat | i < |s.tasks| && s.tasks[i].sha == sha && s.tasks[i].stranded;
           stranded != {} && s.cache.inUse[sha] == |stranded|)
  {
    EveryScheduleKeepsInv(maxCoders, disk, steps);
    var s := Run(maxCoders, disk, steps).value;
    forall sha
      ensures Where(s.tasks, HolderOf(sha)) ==
        set i: nat | i < |s.tasks| && s.tasks[i].sha == sha && s.tasks[i].stranded
    {
      assert forall i :: 0 <= i < |s.tasks| ==> s.tasks[i] in s.tasks;
    }
    forall i: nat | i < |s.tasks| && s.tasks[i].stranded
      ensures s.tasks[i].sha in s.cache.inUse
    {
      assert i in Where(s.tasks, HolderOf(s.tasks[i].sha));
    }
  }

  predicate TimesOut(step: Step, i: nat) {
    step.Act? && step.task == i && step.action.Timeout?
  }

  /** The timeout fired on task `i` at step `k`, while it held its base. */
  ghost predicate CancelledHolding(maxCoders: nat, disk: map<Sha, Repo>, steps: seq<Step>, k: nat, i: nat) {
    && k < |steps| && TimesOut(steps[k], i)
    && Run(maxCoders, disk, steps[..k]).Some?
    && i < |Run(maxCoders, disk, steps[..k]).value.tasks|
    && AtHold(Run(maxCoders, disk, steps[..k]).value.tasks[i].pc)
  }

  lemma StrandedStep(s: State, step: Step, i: nat)
    requires Next(s, step).Some? && i < |Next(s, step).value.tasks|
    ensures i < |s.tasks| ==>
      (Next(s, step).value.tasks[i].stranded <==>
        s.tasks[i].stranded || (TimesOut(step, i) && AtHold(s.tasks[i].pc)))
    ensures i >= |s.tasks| ==> !Next(s, step).value.tasks[i].stranded
  {
    if step.Act? {
      ActShape(s, step.task, step.action);
    }
  }

  /** A task is stranded exactly when the timeout cancelled it between taking its
      hold and giving it back. */
  lemma {:induction false} StrandedIffCancelledHolding(maxCoders: nat, disk: map<Sha, Repo>, steps: seq<Step>, i: nat)
    requires Run(maxCoders, disk, steps).Some? && i < |Run(maxCoders, disk, steps).value.tasks|
    ensures Run(maxCoders, disk, steps).value.tasks[i].stranded <==> exists k :: CancelledHolding(maxCoders, disk, steps, k, i)
  {
    if steps != [] {
      var n := |steps| - 1;
      var s := Run(maxCoders, disk, steps[..n]).value;
      StrandedStep(s, steps[n], i);
      CancelledBefore(maxCoders, disk, steps, i);
      if i < |s.tasks| {
        StrandedIffCancelledHolding(maxCoders, disk, steps[..n], i);
      } else if k :| CancelledHolding(maxCoders, disk, steps[..n], k, i) {
        TasksGrow(maxCoders, disk, steps[..n], k);
        assert false;
      }
    }
  }

  /** Once every task has ended, the hold map is empty if and only if no timeout ever
      fired on a task between taking its hold and giving it back; else it counts, base by
      base, the tasks on which one did. */
  lemma LedgerAtRest(maxCoders: nat, disk: map<Sha, Repo>, steps: seq<Step>)
    requires Run(maxCoders, disk, steps).Some?
    requires forall t :: t in Run(maxCoders, disk, steps).value.tasks ==> t.pc.Done?
    ensures
      var s := Run(maxCoders, disk, steps).value;
      && (s.cache.inUse == map[] <==> forall k: nat, i: nat :: !CancelledHolding(maxCoders, disk, steps, k, i))
      && (forall sha :: sha in s.cache.inUse ==>
           s.cache.inUse[sha] == |set i: nat | i < |s.tasks| && s.tasks[i].sha == sha && WasCancelled(maxCoders, disk, steps, i)|)
  {
    var s := Run(maxCoders, disk, steps).value;
    StrandedAtRest(maxCoders, disk, steps);
    forall i: nat | i < |s.tasks|
      ensures s.tasks[i].stranded <==> WasCancelled(maxCoders, disk, steps, i)
    {
      StrandedIffCancelledHolding(maxCoders, disk, steps, i);
    }
    forall sha | sha in s.cache.inUse
      ensures
        (set i: nat | i < |s.tasks| && s.tasks[i].sha == sha && WasCancelled(maxCoders, disk, steps, i)) ==
        (set i: nat | i < |s.tasks| && s.tasks[i].sha == sha && s.tasks[i].stranded)
    {
    }
    if k: nat, i: nat :| CancelledHolding(maxCoders, disk, steps, k, i) {
      TasksGrow(maxCoders, disk, steps, k);
      assert WasCancelled(maxCoders, disk, steps, i);
      assert s.tasks[i].stranded;
    } else {
      assert forall sha :: sha !in s.cache.inUse;
    }
  }

  ghost predicate WasCancelled(maxCoders: nat, disk: map<Sha, Repo>, steps: seq<Step>, i: nat) {
    exists k :: CancelledHolding(maxCoders, disk, steps, k, i)
  }

  lemma CancelledBefore(maxCoders: nat, disk: map<Sha, Repo>, steps: seq<Step>, i: nat)
    requires steps != []
    ensures
      var n := |steps| - 1;
      (exists k :: CancelledHolding(maxCoders, disk, steps, k, i)) <==>
        CancelledHolding(maxCoders, disk, steps, n, i) || exists k :: CancelledHolding(maxCoders, disk, steps[..n], k, i)
  {
    var n := |steps| - 1;
    forall k: nat
      ensures k < n ==> (CancelledHolding(maxCoders, disk, steps, k, i) <==> CancelledHolding(maxCoders, disk, steps[..n], k, i))
    {
      if k < n {
        assert steps[..n][..k] == steps[..k];
      }
    }
  }

  /** `later` extends `earlier`: no task leaves, changes base or loses its strand mark. */
  ghost predicate Extends(earlier: seq<Task>, later: seq<Task>) {
    && |earlier| <= |later|
    && forall i :: 0 <= i < |earlier| ==>
         later[i].sha == earlier[i].sha && (earlier[i].stranded ==> later[i].stranded)
  }

  lemma StepExtends(s: State, step: Step)
    requires Next(s, step).Some?
    ensures Extends(s.tasks, Next(s, step).value.tasks)
  {
    if step.Act? {
      ActShape(s, step.task, step.action);
    }
  }

  lemma {:induction false} TasksGrow(maxCoders: nat, disk: map<Sha, Repo>, steps: seq<Step>, k: nat)
    requires k <= |steps| && Run(maxCoders, disk, steps).Some?
    ensures Run(maxCoders, disk, steps[..k]).Some?
    ensures Extends(Run(maxCoders, disk, steps[..k]).value.tasks, Run(maxCoders, disk, steps).value.tasks)
  {
    if k < |steps| {
      var n := |steps| - 1;
      assert steps[..n][..k] == steps[..k];
      TasksGrow(maxCoders, disk, steps[..n], k);
      StepExtends(Run(maxCoders, disk, steps[..n]).value, steps[n]);
    } else {
      assert steps[..k] == steps;
    }
  }

  /** A stranded hold is never given back: its base stays pinned in every later state. */
  lemma StrandedHoldIsForever(maxCoders: nat, disk: map<Sha, Repo>, steps: seq<Step>, k: nat, i: nat)
    requires k <= |steps| && Run(maxCoders, disk, steps).Some?
    requires Run(maxCoders, disk, steps[..k]).Some? && i < |Run(maxCoders, disk, steps[..k]).value.tasks|
    requires Run(maxCoders, disk, steps[..k]).value.tasks[i].stranded
    ensures Run(maxCoders, disk, steps[..k]).value.tasks[i].sha in Run(maxCoders, disk, steps).value.cache.inUse
  {
    TasksGrow(maxCoders, disk, steps, k);
    EveryScheduleKeepsInv(maxCoders, disk, steps);
    var s := Run(maxCoders, disk, steps).value;
    assert i in Where(s.tasks, HolderOf(s.tasks[i].sha));
  }

  lemma RunExtend(maxCoders: nat, disk: map<Sha, Repo>, steps: seq<Step>, step: Step)
    requires Run(maxCoders, disk, steps).Some?
    ensures Run(maxCoders, disk, steps + [step]) == Next(Run(maxCoders, disk, steps).value, step)
  {
    assert (steps + [step])[..|steps|] == steps;
  }

  /** A worker with one task, its one permit out, and this cache. */
  function Lone(t: Task, inflight: int, presence: Presence, cache: Cache): State {
    State(0, Waiting, [t], inflight, presence, cache)
  }

  /** That cache once `sha` is built and held. */
  function Held(sha: Sha): Cache {
    Cache(6, [sha], map[sha := 1], map[sha := Good])
  }

  /** One task whose attach times out: it falls back to a clone, its coder runs and
      processing returns, with its base still pinned. */
  lemma AttachTimeoutStrandsTheBase(sha: Sha, text: string) returns (steps: seq<Step>)
    ensures Run(1, map[], steps) == Some(Lone(Task(sha, text, Returned, true), 1, Working(text), Held(sha)))
  {
    steps := LoneUntilCoder(sha, text);
    steps := LoneStep(steps, Lone(Task(sha, text, Running(false), true), 1, Working(text), Held(sha)), CoderEnds);
  }

  lemma LoneUntilCoder(sha: Sha, text: string) returns (steps: seq<Step>)
    ensures Run(1, map[], steps) == Some(Lone(Task(sha, text, Running(false), true), 1, Working(text), Held(sha)))
  {
    steps := LoneUntilTimeout(sha, text);
    steps := LoneStep(steps, Lone(Task(sha, text, FallingBack, true), 1, Working(text), Held(sha)), Clone);
  }

  lemma LoneUntilTimeout(sha: Sha, text: string) returns (steps: seq<Step>)
    ensures Run(1, map[], steps) == Some(Lone(Task(sha, text, FallingBack, true), 1, Working(text), Held(sha)))
  {
    steps := LoneUntilPinned(sha, text);
    steps := LoneStep(steps, Lone(Task(sha, text, Attaching, false), 1, Working(text), Held(sha)), Timeout(map[]));
  }

  lemma LoneUntilPinned(sha: Sha, text: string) returns (steps: seq<Step>)
    ensures Run(1, map[], steps) == Some(Lone(Task(sha, text, Attaching, false), 1, Working(text), Held(sha)))
  {
    steps := LoneUntilPrepared(sha, text);
    FirstBase(sha);
    steps := LoneStep(steps, Lone(Task(sha, text, Preparing, false), 1, Working(text), Fresh(6, map[])), Pin(Env(true, true, map[])));
  }

  lemma FirstBase(sha: Sha)
    ensures GetOrMaterialize(Fresh(6, map[]), sha, Env(true, true, map[])) == (Held(sha), true)
  {
    assert Touched([], sha) == [sha];
  }

  lemma LoneUntilPrepared(sha: Sha, text: string) returns (steps: seq<Step>)
    ensures Run(1, map[], steps) == Some(Lone(Task(sha, text, Preparing, false), 1, Working(text), Fresh(6, map[])))
  {
    var empty := Fresh(6, map[]);
    steps := LoneClaim(sha, text);
    steps := LoneStep(steps, Lone(Task(sha, text, Spawned, false), 0, Idle, empty), Add);
    steps := LoneStep(steps, Lone(Task(sha, text, Counted, false), 1, Idle, empty), AnnounceWorking);
  }

  lemma LoneClaim(sha: Sha, text: string) returns (steps: seq<Step>)
    ensures Run(1, map[], steps) == Some(Lone(Task(sha, text, Spawned, false), 0, Idle, Fresh(6, map[])))
  {
    RunExtend(1, map[], [], Acquire);
    assert [] + [Acquire] == [Acquire];
    RunExtend(1, map[], [Acquire], Claim(sha, text));
    steps := [Acquire] + [Claim(sha, text)];
    assert [] + [Task(sha, text, Spawned, false)] == [Task(sha, text, Spawned, false)];
  }

  lemma LoneStep(steps: seq<Step>, s: State, a: Action) returns (more: seq<Step>)
    requires Run(1, map[], steps) == Some(s) && Next(s, Act(0, a)).Some? && |s.tasks| == 1
    ensures Run(1, map[], more) == Next(s, Act(0, a))
    ensures Run(1, map[], more).value.tasks == [Run(1, map[], more).value.tasks[0]]
  {
    RunExtend(1, map[], steps, Act(0, a));
    more := steps + [Act(0, a)];
  }
}
