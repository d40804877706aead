/** One work item, start to end: the worker's processing of it as one call, and the step
    machine's moves for it, which come to the same. */
module WorkerItem {
  import opened Wrappers
  import opened BaseCache
  import opened WorkerProtocol

  /** What the outside world decides for one item. `cut` is where the timeout fires. */
  datatype Cut = Never | BeforeHold | WhileAttaching
  datatype Draws = Draws(setup: bool, cut: Cut, env: Env, attached: bool, cloned: bool, coder: bool)
  datatype Outcome = Error | Coded(base: string)

  /** The item ends on the shared base: the cache call succeeded in time and the worktree
      was attached. */
  predicate OnShared(c: Cache, sha: Sha, d: Draws) {
    d.setup && d.cut.Never? && d.attached && GetOrMaterialize(c, sha, d.env).1
  }

  /** The cache after one item. */
  function Processed(c: Cache, sha: Sha, d: Draws): Cache {
    if !d.setup then c
    else if d.cut.BeforeHold? then Cancelled(c, sha, d.env.left)
    else
      var (after, got) := GetOrMaterialize(c, sha, d.env);
      if got && d.cut.Never? then Release(after, sha) else after
  }

  /** process_one: fast path under the timeout, full clone when that fails, then the
      coder, then cleanup. The caller's hold is balanced unless the timeout fired
      after the hold was taken; then it is never released. */
  method ProcessOne(cache: BaseCache, sha: Sha, d: Draws) returns (r: Outcome)
    requires Safe(cache.Model())
    modifies cache`inUse, cache`disk, cache.index
    ensures Safe(cache.Model()) && cache.Model() == Processed(old(cache.Model()), sha, d)
    ensures
      var got := d.setup && !d.cut.BeforeHold? && GetOrMaterialize(old(cache.Model()), sha, d.env).1;
      cache.inUse == if got && d.cut.WhileAttaching? then Hold(old(cache.inUse), sha) else old(cache.inUse)
    ensures
      var shared := OnShared(old(cache.Model()), sha, d);
      r == if !d.setup || !d.coder || !(shared || d.cloned) then Error
           else Coded(if !shared then "degraded" else if sha in old(cache.disk) then "hit" else "miss")
  {
    if !d.setup {
      return Error;
    }
    var existed := sha in cache.disk;
    var shared := false;
    if d.cut.BeforeHold? {
      if !(sha in cache.disk && cache.disk[sha] == Good) {
        cache.disk := if sha in d.env.left then cache.disk[sha := d.env.left[sha]] else cache.disk - {sha};
      }
    } else {
      GetKeepsSafe(cache.Model(), sha, d.env);
      GetOutcome(cache.Model(), sha, d.env);
      var got := cache.Get(sha, d.env);
      if got && !d.cut.WhileAttaching? {
        if d.attached {
          shared := true;
        } else {
          DropUndoesHold(old(cache.inUse), sha);
          ReleaseKeepsSafe(cache.Model(), sha);
          cache.ReleaseHold(sha);
        }
      }
    }
    if !shared && !d.cloned {
      return Error;
    }
    r := if !d.coder then Error
         else Coded(if !shared then "degraded" else if existed then "hit" else "miss");
    if shared {
      DropUndoesHold(old(cache.inUse), sha);
      ReleaseKeepsSafe(cache.Model(), sha);
      cache.ReleaseHold(sha);
    }
  }

  lemma DropUndoesHold(inUse: map<Sha, int>, sha: Sha)
    requires sha in inUse ==> inUse[sha] >= 1
    ensures Drop(Hold(inUse, sha), sha) == inUse
  {
  }

  /** A loop with a permit in hand can claim, which adds one task, or hand it back. */
  lemma HoldingLoopClaims(s: State, sha: Sha, text: string)
    requires s.loop.Holding?
    ensures Next(s, Claim(sha, text)) == Some(s.(loop := Waiting, tasks := s.tasks + [Task(sha, text, Spawned, false)]))
    ensures |Where(s.tasks + [Task(sha, text, Spawned, false)], Unfinished)| == |Where(s.tasks, Unfinished)| + 1
    ensures Next(s, NothingClaimed) == Some(s.(loop := Waiting, permits := s.permits + 1))
  {
    WhereAppend(s.tasks, Task(sha, text, Spawned, false), Unfinished);
  }

  /** Presence names the item of some claimed task, and the cache keeps the capacity the
      configuration sets, above the number of coders. */
  lemma {:induction false} PresenceNamesTask(maxCoders: nat, disk: map<Sha, Repo>, steps: seq<Step>)
    requires WorkerProtocol.Run(maxCoders, disk, steps).Some?
    ensures
      var s := WorkerProtocol.Run(maxCoders, disk, steps).value;
      && (s.presence.Working? ==> exists i :: 0 <= i < |s.tasks| && s.tasks[i].text == s.presence.task)
      && s.cache.cap == 2 * maxCoders + 4
  {
    if steps != [] {
      var n := |steps| - 1;
      PresenceNamesTask(maxCoders, disk, steps[..n]);
      EveryScheduleKeepsInv(maxCoders, disk, steps[..n]);
      NamesKept(WorkerProtocol.Run(maxCoders, disk, steps[..n]).value, steps[n]);
    }
  }

  lemma NamesKept(s: State, step: Step)
    requires Next(s, step).Some? && Safe(s.cache)
    requires s.presence.Working? ==> exists i :: 0 <= i < |s.tasks| && s.tasks[i].text == s.presence.task
    ensures
      var s' := Next(s, step).value;
      && (s'.presence.Working? ==> exists i :: 0 <= i < |s'.tasks| && s'.tasks[i].text == s'.presence.task)
      && s'.cache.cap == s.cache.cap
  {
    var s' := Next(s, step).value;
    if step.Act? {
      ActShape(s, step.task, step.action);
      if step.action.Pin? || step.action.FastPathError? {
        GetKeepsSafe(s.cache, s.tasks[step.task].sha, step.action.env);
      }
      if step.action.AnnounceWorking? {
        assert s'.tasks[step.task].text == s'.presence.task;
      }
    }
    if i :| 0 <= i < |s.tasks| && s.presence.Working? && s.tasks[i].text == s.presence.task {
      assert s'.tasks[i].text == s.tasks[i].text;
    }
  }

  // ---- The machine takes every item through ----

  /** One task and the cache, taken through a list of its own actions. */
  function Walk(t: Task, c: Cache, actions: seq<Action>): Option<(Task, Cache)>
    decreases |actions|
  {
    if actions == [] then Some((t, c))
    else
      var a := actions[0];
      match NextPc(t.pc, a, false)
      case None => None
      case Some(pc) =>
        if CacheAnswers(c, t.sha, a) then Walk(Moved(t, a, pc), CacheAfter(c, t, a), actions[1..]) else None
  }

  function Drive(s: State, i: nat, actions: seq<Action>): Option<State>
    decreases |actions|
  {
    if actions == [] then Some(s)
    else
      match Next(s, Act(i, actions[0]))
      case None => None
      case Some(s') => Drive(s', i, actions[1..])
  }

  /** Actions that touch nothing but their task and the cache. */
  predicate Private(a: Action) {
    !a.Add? && !a.AnnounceWorking? && !a.Sub? && !a.AnnounceIdle? && !a.Exit?
  }

  function Placed(s: State, i: nat, t: Task, c: Cache): State
    requires i < |s.tasks|
  {
    s.(tasks := s.tasks[i := t], cache := c)
  }

  lemma {:induction false} DriveIsWalk(s: State, i: nat, t: Task, c: Cache, actions: seq<Action>)
    requires i < |s.tasks| && forall k :: 0 <= k < |actions| ==> Private(actions[k])
    requires Walk(t, c, actions).Some?
    ensures
      var (t', c') := Walk(t, c, actions).value;
      Drive(Placed(s, i, t, c), i, actions) == Some(Placed(s, i, t', c'))
    decreases |actions|
  {
    if actions != [] {
      var a := actions[0];
      PrivateStep(s, i, t, c, a);
      DriveIsWalk(s, i, Moved(t, a, NextPc(t.pc, a, false).value), CacheAfter(c, t, a), actions[1..]);
    }
  }

  lemma PrivateStep(s: State, i: nat, t: Task, c: Cache, a: Action)
    requires i < |s.tasks| && Private(a) && NextPc(t.pc, a, false).Some? && CacheAnswers(c, t.sha, a)
    ensures
      Next(Placed(s, i, t, c), Act(i, a)) ==
        Some(Placed(s, i, Moved(t, a, NextPc(t.pc, a, false).value), CacheAfter(c, t, a)))
  {
    var pc := NextPc(t.pc, a, false).value;
    assert s.tasks[i := t][i := Moved(t, a, pc)] == s.tasks[i := Moved(t, a, pc)];
  }

  function Fallback(d: Draws): seq<Action> {
    if d.cloned then [Clone, CoderEnds] else [CloneError]
  }

  /** The actions of one item's processing; `got` says whether its cache call succeeds. */
  function ActionsOf(d: Draws, got: bool): seq<Action> {
    if !d.setup then [SetupError]
    else if d.cut.BeforeHold? then [Timeout(d.env.left)] + Fallback(d)
    else if !got then [FastPathError(d.env)] + Fallback(d)
    else if d.cut.WhileAttaching? then [Pin(d.env), Timeout(map[])] + Fallback(d)
    else if d.attached then [Pin(d.env), Attach, CoderEnds, ReleaseHold]
    else [Pin(d.env), AttachError, ReleaseFailed] + Fallback(d)
  }

  lemma WalkOn(t: Task, c: Cache, a: Action, rest: seq<Action>)
    requires NextPc(t.pc, a, false).Some? && CacheAnswers(c, t.sha, a)
    ensures Walk(t, c, [a] + rest) == Walk(Moved(t, a, NextPc(t.pc, a, false).value), CacheAfter(c, t, a), rest)
  {
    assert ([a] + rest)[1..] == rest;
  }

  lemma FallbackWalk(t: Task, c: Cache, d: Draws)
    requires t.pc.FallingBack?
    ensures Walk(t, c, Fallback(d)) == Some((t.(pc := Returned), c))
  {
    if d.cloned {
      assert Fallback(d) == [Clone] + ([CoderEnds] + []);
      WalkOn(t, c, Clone, [CoderEnds] + []);
      WalkOn(t.(pc := Running(false)), c, CoderEnds, []);
    } else {
      assert Fallback(d) == [CloneError] + [];
      WalkOn(t, c, CloneError, []);
    }
  }

  lemma ItemWalk(t: Task, c: Cache, d: Draws)
    requires t.pc.Preparing?
    ensures
      var got := GetOrMaterialize(c, t.sha, d.env).1;
      Walk(t, c, ActionsOf(d, got)) ==
        Some((t.(pc := Returned, stranded := t.stranded || (d.setup && d.cut.WhileAttaching? && got)), Processed(c, t.sha, d)))
  {
    var (held, got) := GetOrMaterialize(c, t.sha, d.env);
    if !d.setup {
      assert ActionsOf(d, got) == [SetupError] + [];
      WalkOn(t, c, SetupError, []);
    } else if d.cut.BeforeHold? {
      WalkOn(t, c, Timeout(d.env.left), Fallback(d));
      FallbackWalk(t.(pc := FallingBack), Cancelled(c, t.sha, d.env.left), d);
    } else if !got {
      WalkOn(t, c, FastPathError(d.env), Fallback(d));
      FallbackWalk(t.(pc := FallingBack), held, d);
    } else {
      HeldWalk(t, c, d);
    }
  }

  lemma HeldWalk(t: Task, c: Cache, d: Draws)
    requires t.pc.Preparing? && d.setup && !d.cut.BeforeHold? && GetOrMaterialize(c, t.sha, d.env).1
    ensures
      Walk(t, c, ActionsOf(d, true)) ==
        Some((t.(pc := Returned, stranded := t.stranded || d.cut.WhileAttaching?), Processed(c, t.sha, d)))
  {
    var held, rest := GetOrMaterialize(c, t.sha, d.env).0, ActionsOf(d, true)[1..];
    assert ActionsOf(d, true) == [Pin(d.env)] + rest;
    WalkOn(t, c, Pin(d.env), rest);
    var u := t.(pc := Attaching);
    if d.cut.WhileAttaching? {
      assert rest == [Timeout(map[])] + Fallback(d);
      CutWalk(u, held, d);
    } else if d.attached {
      assert rest == [Attach] + ([CoderEnds] + ([ReleaseHold] + []));
      AttachedWalk(u, held);
    } else {
      assert rest == [AttachError] + ([ReleaseFailed] + Fallback(d));
      UnattachedWalk(u, held, d);
    }
  }

  lemma CutWalk(t: Task, c: Cache, d: Draws)
    requires t.pc.Attaching?
    ensures Walk(t, c, [Timeout(map[])] + Fallback(d)) == Some((t.(pc := Returned, stranded := true), c))
  {
    WalkOn(t, c, Timeout(map[]), Fallback(d));
    FallbackWalk(t.(pc := FallingBack, stranded := true), c, d);
  }

  lemma AttachedWalk(t: Task, c: Cache)
    requires t.pc.Attaching?
    ensures Walk(t, c, [Attach] + ([CoderEnds] + ([ReleaseHold] + []))) == Some((t.(pc := Returned), Release(c, t.sha)))
  {
    WalkOn(t, c, Attach, [CoderEnds] + ([ReleaseHold] + []));
    WalkOn(t.(pc := Running(true)), c, CoderEnds, [ReleaseHold] + []);
    WalkOn(t.(pc := Cleaning), c, ReleaseHold, []);
  }

  lemma UnattachedWalk(t: Task, c: Cache, d: Draws)
    requires t.pc.Attaching?
    ensures Walk(t, c, [AttachError] + ([ReleaseFailed] + Fallback(d))) == Some((t.(pc := Returned), Release(c, t.sha)))
  {
    WalkOn(t, c, AttachError, [ReleaseFailed] + Fallback(d));
    WalkOn(t.(pc := AttachFailed), c, ReleaseFailed, Fallback(d));
    FallbackWalk(t.(pc := FallingBack), Release(c, t.sha), d);
  }

  /** Whatever the outside world decides for an item, the machine has the moves for it,
      in any state: they take its task through processing, leave the cache as process_one
      does, strand the hold exactly when the timeout cancels it, and touch nothing else. */
  lemma MachineProcesses(s: State, i: nat, d: Draws)
    requires i < |s.tasks| && s.tasks[i].pc.Preparing?
    ensures
      var t := s.tasks[i];
      var got := GetOrMaterialize(s.cache, t.sha, d.env).1;
      Drive(s, i, ActionsOf(d, got)) ==
        Some(s.(tasks := s.tasks[i := t.(pc := Returned, stranded := t.stranded || (d.setup && d.cut.WhileAttaching? && got))],
                cache := Processed(s.cache, t.sha, d)))
  {
    var t := s.tasks[i];
    var actions := ActionsOf(d, GetOrMaterialize(s.cache, t.sha, d.env).1);
    ItemWalk(t, s.cache, d);
    assert Placed(s, i, t, s.cache) == s;
    DriveIsWalk(s, i, t, s.cache, actions);
  }

  /** Before processing a task counts itself and announces its item; afterwards it counts
      itself out, announces Idle if it was the last, publishes, acks and frees its permit. */
  lemma TaskStartsAndFinishes(s: State, i: nat)
    requires i < |s.tasks|
    ensures s.tasks[i].pc.Spawned? ==>
      Drive(s, i, [Add, AnnounceWorking]) ==
        Some(s.(tasks := s.tasks[i := s.tasks[i].(pc := Preparing)],
                inflight := s.inflight + 1, presence := Working(s.tasks[i].text)))
    ensures s.tasks[i].pc.Returned? && s.inflight != 1 ==>
      Drive(s, i, [Sub] + Report()) ==
        Some(s.(tasks := s.tasks[i := s.tasks[i].(pc := Done)], inflight := s.inflight - 1, permits := s.permits + 1))
    ensures s.tasks[i].pc.Returned? && s.inflight == 1 ==>
      Drive(s, i, [Sub] + ([AnnounceIdle] + Report())) ==
        Some(s.(tasks := s.tasks[i := s.tasks[i].(pc := Done)], inflight := 0, permits := s.permits + 1, presence := Idle))
  {
    if s.tasks[i].pc.Spawned? {
      TaskStarts(s, i);
    } else if s.tasks[i].pc.Returned? && s.inflight != 1 {
      TaskFinishes(s, i);
    } else if s.tasks[i].pc.Returned? {
      LastTaskFinishes(s, i);
    }
  }

  function Report(): seq<Action> {
    [Publish, Ack, Exit]
  }

  lemma DriveOn(s: State, i: nat, a: Action, rest: seq<Action>)
    requires Next(s, Act(i, a)).Some?
    ensures Drive(s, i, [a] + rest) == Drive(Next(s, Act(i, a)).value, i, rest)
  {
    assert ([a] + rest)[1..] == rest;
  }

  lemma TaskStarts(s: State, i: nat)
    requires i < |s.tasks| && s.tasks[i].pc.Spawned?
    ensures
      Drive(s, i, [Add, AnnounceWorking]) ==
        Some(s.(tasks := s.tasks[i := s.tasks[i].(pc := Preparing)],
                inflight := s.inflight + 1, presence := Working(s.tasks[i].text)))
  {
    var t := s.tasks[i];
    var counted := s.(tasks := s.tasks[i := t.(pc := Counted)], inflight := s.inflight + 1);
    assert [Add, AnnounceWorking] == [Add] + ([AnnounceWorking] + []);
    DriveOn(s, i, Add, [AnnounceWorking] + []);
    DriveOn(counted, i, AnnounceWorking, []);
    assert counted.tasks[i := t.(pc := Preparing)] == s.tasks[i := t.(pc := Preparing)];
  }

  lemma CountedOut(s: State, i: nat)
    requires i < |s.tasks| && s.tasks[i].pc.Returned?
    ensures
      Next(s, Act(i, Sub)) ==
        Some(s.(tasks := s.tasks[i := s.tasks[i].(pc := if s.inflight == 1 then LastOut else Publishing)],
                inflight := s.inflight - 1))
  {
  }

  lemma TaskFinishes(s: State, i: nat)
    requires i < |s.tasks| && s.tasks[i].pc.Returned? && s.inflight != 1
    ensures
      Drive(s, i, [Sub] + Report()) ==
        Some(s.(tasks := s.tasks[i := s.tasks[i].(pc := Done)], inflight := s.inflight - 1, permits := s.permits + 1))
  {
    CountedOut(s, i);
    DriveOn(s, i, Sub, Report());
    TaskReports(s.(inflight := s.inflight - 1), i, s.tasks[i]);
  }

  lemma IdleAnnounced(s: State, i: nat, t: Task)
    requires i < |s.tasks|
    ensures
      Next(s.(tasks := s.tasks[i := t.(pc := LastOut)]), Act(i, AnnounceIdle)) ==
        Some(s.(tasks := s.tasks[i := t.(pc := Publishing)], presence := Idle))
  {
    assert s.tasks[i := t.(pc := LastOut)][i := t.(pc := Publishing)] == s.tasks[i := t.(pc := Publishing)];
  }

  lemma LastTaskFinishes(s: State, i: nat)
    requires i < |s.tasks| && s.tasks[i].pc.Returned? && s.inflight == 1
    ensures
      Drive(s, i, [Sub] + ([AnnounceIdle] + Report())) ==
        Some(s.(tasks := s.tasks[i := s.tasks[i].(pc := Done)], inflight := 0, permits := s.permits + 1, presence := Idle))
  {
    var t, out := s.tasks[i], s.(inflight := 0);
    CountedOut(s, i);
    DriveOn(s, i, Sub, [AnnounceIdle] + Report());
    IdleAnnounced(out, i, t);
    DriveOn(out.(tasks := s.tasks[i := t.(pc := LastOut)]), i, AnnounceIdle, Report());
    TaskReports(out.(presence := Idle), i, t);
  }

  lemma TaskReports(s: State, i: nat, t: Task)
    requires i < |s.tasks|
    ensures
      Drive(s.(tasks := s.tasks[i := t.(pc := Publishing)]), i, Report()) ==
        Some(s.(tasks := s.tasks[i := t.(pc := Done)], permits := s.permits + 1))
  {
    var publishing := s.(tasks := s.tasks[i := t.(pc := Publishing)]);
    var acking := s.(tasks := s.tasks[i := t.(pc := Acking)]);
    var exiting := s.(tasks := s.tasks[i := t.(pc := Exiting)]);
    assert Report() == [Publish] + ([Ack] + ([Exit] + []));
    assert publishing.tasks[i := t.(pc := Acking)] == acking.tasks;
    DriveOn(publishing, i, Publish, [Ack] + ([Exit] + []));
    assert acking.tasks[i := t.(pc := Exiting)] == exiting.tasks;
    DriveOn(acking, i, Ack, [Exit] + []);
    assert exiting.tasks[i := t.(pc := Done)] == s.tasks[i := t.(pc := Done)];
    DriveOn(exiting, i, Exit, []);
  }
}
