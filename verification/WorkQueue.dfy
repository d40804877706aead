/** Dispatchers, the work queue and workers: subscribe, dispatch, claim with
    redelivery, process, publish, ack, await, apply. */
module WorkQueue {
  import opened Wrappers
  import Decimal

  /** What identifies a work item: fan-out session and coder index. */
  datatype Key = Key(session: string, index: nat)

  const MAX_DELIVER := 3

  function ResultSubject(k: Key): string {
    "entheai.result." + k.session + "." + Decimal.Digits(k.index)
  }

  function ResultKey(k: Key): string {
    "result/" + k.session + "/" + Decimal.Digits(k.index)
  }

  function BaseKey(k: Key): string {
    "base/" + k.session + "/" + Decimal.Digits(k.index)
  }

  /** Position of the last `c` in `x`, or -1. */
  function LastIndexOf(x: string, c: char): int {
    if x == [] then -1
    else if x[|x| - 1] == c then |x| - 1
    else LastIndexOf(x[..|x| - 1], c)
  }

  lemma {:induction false} LastIndexOfJoin(s: string, c: char, d: string)
    requires c !in d
    ensures LastIndexOf(s + [c] + d, c) == |s|
  {
    var x := s + [c] + d;
    if d != [] {
      LastIndexOfJoin(s, c, d[..|d| - 1]);
      assert x[..|x| - 1] == s + [c] + d[..|d| - 1];
      assert x[|x| - 1] == d[|d| - 1];
    }
  }

  /** The last separator before the digits cuts a built name in only one way. */
  lemma LastPartUnique(s: string, t: string, c: char, m: nat, n: nat)
    requires !Decimal.IsDigit(c)
    requires s + [c] + Decimal.Digits(m) == t + [c] + Decimal.Digits(n)
    ensures s == t && m == n
  {
    var a, b := s + [c] + Decimal.Digits(m), t + [c] + Decimal.Digits(n);
    LastIndexOfJoin(s, c, Decimal.Digits(m));
    LastIndexOfJoin(t, c, Decimal.Digits(n));
    assert a[..|s|] == s && b[..|t|] == t;
    assert a[|s| + 1..] == Decimal.Digits(m) && b[|t| + 1..] == Decimal.Digits(n);
    Decimal.DigitsInjective(m, n);
  }

  lemma DropPrefix(p: string, s: string, t: string)
    requires p + s == p + t
    ensures s == t
  {
    assert (p + s)[|p|..] == s && (p + t)[|p|..] == t;
  }

  /** Distinct items get distinct result subjects and distinct result bundle keys,
      whatever characters the session holds, and no result key is a base key. */
  lemma BuildersInjective(j: Key, k: Key)
    ensures ResultSubject(j) == ResultSubject(k) <==> j == k
    ensures ResultKey(j) == ResultKey(k) <==> j == k
    ensures BaseKey(j) == BaseKey(k) <==> j == k
    ensures ResultKey(j) != BaseKey(k)
  {
    assert ResultKey(j)[0] == 'r' && BaseKey(k)[0] == 'b';
    if ResultSubject(j) == ResultSubject(k) {
      BuilderCut("entheai.result.", '.', j, k);
    }
    if ResultKey(j) == ResultKey(k) {
      BuilderCut("result/", '/', j, k);
    }
    if BaseKey(j) == BaseKey(k) {
      BuilderCut("base/", '/', j, k);
    }
  }

  /** The names as they are spelled: a prefix, the session, the index in decimal. */
  lemma NamesSpelled(session: string, index: nat)
    ensures ResultSubject(Key(session, index)) == "entheai.result." + session + "." + Decimal.Digits(index)
    ensures ResultKey(Key(session, index)) == "result/" + session + "/" + Decimal.Digits(index)
    ensures BaseKey(Key(session, index)) == "base/" + session + "/" + Decimal.Digits(index)
  {
  }

  lemma BuilderCut(p: string, c: char, j: Key, k: Key)
    requires !Decimal.IsDigit(c)
    requires p + j.session + [c] + Decimal.Digits(j.index) == p + k.session + [c] + Decimal.Digits(k.index)
    ensures j == k
  {
    LastPartUnique(p + j.session, p + k.session, c, j.index, k.index);
    DropPrefix(p, j.session, k.session);
  }

  // ---- The protocol ----

  /** A queued item: how often it was delivered, and whether it was acked. */
  datatype Entry = Entry(deliveries: nat, acked: bool)

  /** One worker run of a claimed item; `committed`: its delta bundle was uploaded. */
  datatype Phase = Processing | Returned | Published | Acked | Crashed

  datatype WorkerRun = WorkerRun(key: Key, phase: Phase, committed: bool)

  /** One `execute` call: its mailbox holds the runs whose result reached it. */
  datatype Stage = Subscribed | Waiting | Accepted(run: nat) | Applied(run: nat, bundleFrom: nat) | GaveUp

  datatype Executor = Executor(stage: Stage, mailbox: seq<nat>)

  /** `store`: object-store key to the run whose bundle lies there. */
  datatype State = State(
    executors: map<Key, Executor>, queue: map<Key, Entry>, runs: seq<WorkerRun>, store: map<string, nat>)

  /** `confirmed` and `sent` are the network's answers: an unconfirmed dispatch or
      upload was stored although its caller saw an error. */
  datatype Step =
    | Subscribe(key: Key)
    | Dispatch(key: Key, confirmed: bool)
    | Claim(key: Key)
    | Upload(run: nat, confirmed: bool)
    | Return(run: nat)
    | Publish(run: nat, sent: bool)
    | Ack(run: nat)
    | Crash(run: nat)
    | Accept(key: Key)
    | GiveUp(key: Key)
    | Apply(key: Key)

  function Init(): State {
    State(map[], map[], [], map[])
  }

  function SetStage(s: State, k: Key, stage: Stage): State
    requires k in s.executors
  {
    s.(executors := s.executors[k := s.executors[k].(stage := stage)])
  }

  function SetPhase(s: State, r: nat, phase: Phase): State
    requires r < |s.runs|
  {
    s.(runs := s.runs[r := s.runs[r].(phase := phase)])
  }

  predicate Listening(e: Executor) {
    e.stage.Subscribed? || e.stage.Waiting?
  }

  /** A message on the subject of `from` reaches every live subscription whose subject
      is the same string. */
  function Fanout(executors: map<Key, Executor>, from: Key, r: nat): map<Key, Executor> {
    map k | k in executors ::
      if Listening(executors[k]) && ResultSubject(k) == ResultSubject(from)
      then executors[k].(mailbox := executors[k].mailbox + [r])
      else executors[k]
  }

  predicate RunAt(s: State, r: nat, phase: Phase) {
    r < |s.runs| && s.runs[r].phase == phase
  }

  predicate ExecutorAt(s: State, k: Key, stage: Stage) {
    k in s.executors && s.executors[k].stage == stage
  }

  /** One step; None when it is not enabled. Each key is executed once. */
  function Next(s: State, step: Step): Option<State> {
    match step
    case Subscribe(k) =>
      if k in s.executors then None else Some(s.(executors := s.executors[k := Executor(Subscribed, [])]))
    case Dispatch(k, confirmed) =>
      if ExecutorAt(s, k, Subscribed)
      then Some(SetStage(s, k, if confirmed then Waiting else GaveUp).(queue := s.queue[k := Entry(0, false)]))
      else None
    case Claim(k) =>
      if k in s.queue && !s.queue[k].acked && s.queue[k].deliveries < MAX_DELIVER
      then Some(s.(queue := s.queue[k := Entry(s.queue[k].deliveries + 1, false)],
                   runs := s.runs + [WorkerRun(k, Processing, false)]))
      else None
    case Upload(r, confirmed) =>
      if RunAt(s, r, Processing)
      then Some(s.(store := s.store[ResultKey(s.runs[r].key) := r],
                   runs := s.runs[r := WorkerRun(s.runs[r].key, Returned, confirmed)]))
      else None
    case Return(r) => if RunAt(s, r, Processing) then Some(SetPhase(s, r, Returned)) else None
    case Publish(r, sent) =>
      if RunAt(s, r, Returned)
      then Some(SetPhase(s, r, Published).(
                  executors := if sent then Fanout(s.executors, s.runs[r].key, r) else s.executors))
      else None
    case Ack(r) =>
      if RunAt(s, r, Published) && s.runs[r].key in s.queue
      then Some(SetPhase(s, r, Acked).(
                  queue := s.queue[s.runs[r].key := s.queue[s.runs[r].key].(acked := true)]))
      else None
    case Crash(r) =>
      if r < |s.runs| && !s.runs[r].phase.Acked? then Some(SetPhase(s, r, Crashed)) else None
    case Accept(k) =>
      if ExecutorAt(s, k, Waiting) && s.executors[k].mailbox != []
      then Some(SetStage(s, k, Accepted(s.executors[k].mailbox[0])))
      else None
    case GiveUp(k) =>
      if k in s.executors && !s.executors[k].stage.Applied? then Some(SetStage(s, k, GaveUp)) else None
    case Apply(k) =>
      if k in s.executors && s.executors[k].stage.Accepted? && s.executors[k].stage.run < |s.runs|
         && s.runs[s.executors[k].stage.run].committed && ResultKey(k) in s.store
      then Some(SetStage(s, k, Applied(s.executors[k].stage.run, s.store[ResultKey(k)])))
      else None
  }

  function Run(steps: seq<Step>): Option<State> {
    if steps == [] then Some(Init())
    else
      match Run(steps[..|steps| - 1])
      case None => None
      case Some(s) => Next(s, steps[|steps| - 1])
  }

  // ---- Invariants ----

  /** Run `r` is a run of item `k` whose processing has ended. */
  ghost predicate EndedRunOf(s: State, r: nat, k: Key) {
    r < |s.runs| && s.runs[r].key == k && !s.runs[r].phase.Processing?
  }

  ghost predicate RunsOfQueued(s: State) {
    && (forall k :: k in s.queue ==> k in s.executors && !s.executors[k].stage.Subscribed?)
    && (forall r :: 0 <= r < |s.runs| ==>
         s.runs[r].key in s.queue && (s.runs[r].committed ==> !s.runs[r].phase.Processing?))
  }

  ghost predicate ExecutorInv(s: State, k: Key)
    requires k in s.executors
  {
    var e := s.executors[k];
    && (forall m :: 0 <= m < |e.mailbox| ==> EndedRunOf(s, e.mailbox[m], k))
    && (e.stage.Subscribed? ==> e.mailbox == [])
    && (e.stage.Accepted? || e.stage.Applied? ==> EndedRunOf(s, e.stage.run, k))
    && (e.stage.Applied? ==> s.runs[e.stage.run].committed && EndedRunOf(s, e.stage.bundleFrom, k))
  }

  ghost predicate StoreInv(s: State) {
    && (forall k: Key :: ResultKey(k) in s.store ==> EndedRunOf(s, s.store[ResultKey(k)], k))
    && (forall r :: 0 <= r < |s.runs| && s.runs[r].committed ==> ResultKey(s.runs[r].key) in s.store)
  }

  ghost predicate AckInv(s: State) {
    forall k :: k in s.queue && s.queue[k].acked ==>
      exists r :: 0 <= r < |s.runs| && s.runs[r].key == k && s.runs[r].phase.Acked?
  }

  ghost function RunsOf(s: State, k: Key): set<nat> {
    set r: nat | r < |s.runs| && s.runs[r].key == k
  }

  ghost predicate DeliveryInv(s: State) {
    forall k :: k in s.queue ==> s.queue[k].deliveries == |RunsOf(s, k)| <= MAX_DELIVER
  }

  ghost predicate Inv(s: State) {
    && RunsOfQueued(s)
    && (forall k :: k in s.executors ==> ExecutorInv(s, k))
    && StoreInv(s)
    && AckInv(s)
    && DeliveryInv(s)
  }

  /** `after` has the runs of `before`, possibly further along, and maybe one more. */
  ghost predicate RunsAdvance(before: State, after: State) {
    && |before.runs| <= |after.runs|
    && forall r :: 0 <= r < |before.runs| ==>
         && after.runs[r].key == before.runs[r].key
         && (!before.runs[r].phase.Processing? ==> !after.runs[r].phase.Processing?)
         && (before.runs[r].committed ==> after.runs[r].committed)
         && (before.runs[r].phase.Acked? ==> after.runs[r].phase.Acked?)
  }

  lemma StepAdvancesRuns(s: State, step: Step)
    requires RunsOfQueued(s) && Next(s, step).Some?
    ensures RunsAdvance(s, Next(s, step).value)
  {
  }

  lemma QueuedKept(s: State, step: Step)
    requires RunsOfQueued(s) && Next(s, step).Some?
    ensures RunsOfQueued(Next(s, step).value)
  {
  }

  lemma AcksKept(s: State, step: Step)
    requires AckInv(s) && RunsOfQueued(s) && Next(s, step).Some?
    ensures AckInv(Next(s, step).value)
  {
    var s' := Next(s, step).value;
    StepAdvancesRuns(s, step);
    forall k | k in s'.queue && s'.queue[k].acked
      ensures exists r :: 0 <= r < |s'.runs| && s'.runs[r].key == k && s'.runs[r].phase.Acked?
    {
      if k in s.queue && s.queue[k].acked {
        var r :| 0 <= r < |s.runs| && s.runs[r].key == k && s.runs[r].phase.Acked?;
        assert s'.runs[r].key == k;
      } else {
        assert step.Ack? && s'.runs[step.run].key == k;
      }
    }
  }

  lemma RunsAfterClaim(s: State, c: Key, k: Key)
    requires Next(s, Claim(c)).Some?
    ensures RunsOf(Next(s, Claim(c)).value, k) == if c == k then RunsOf(s, k) + {|s.runs|} else RunsOf(s, k)
    ensures |RunsOf(Next(s, Claim(c)).value, k)| == |RunsOf(s, k)| + if c == k then 1 else 0
  {
    assert RunsOf(Next(s, Claim(c)).value, k) == if c == k then RunsOf(s, k) + {|s.runs|} else RunsOf(s, k);
  }

  lemma RunsAfterOther(s: State, step: Step, k: Key)
    requires RunsOfQueued(s) && Next(s, step).Some? && !step.Claim?
    ensures RunsOf(Next(s, step).value, k) == RunsOf(s, k)
  {
    StepAdvancesRuns(s, step);
    assert |Next(s, step).value.runs| == |s.runs|;
  }

  lemma DeliveriesKept(s: State, step: Step)
    requires DeliveryInv(s) && RunsOfQueued(s) && Next(s, step).Some?
    ensures DeliveryInv(Next(s, step).value)
  {
    var s' := Next(s, step).value;
    forall k | k in s'.queue
      ensures s'.queue[k].deliveries == |RunsOf(s', k)| <= MAX_DELIVER
    {
      if step.Claim? {
        RunsAfterClaim(s, step.key, k);
      } else {
        RunsAfterOther(s, step, k);
      }
      if k in s.queue {
        assert s'.queue[k].deliveries == s.queue[k].deliveries + if step == Claim(k) then 1 else 0;
      } else {
        assert step.Dispatch? && RunsOf(s, k) == {};
      }
    }
  }

  lemma StoreKept(s: State, step: Step)
    requires StoreInv(s) && RunsOfQueued(s) && Next(s, step).Some?
    ensures StoreInv(Next(s, step).value)
  {
    var s' := Next(s, step).value;
    StepAdvancesRuns(s, step);
    if step.Upload? {
      forall k: Key | ResultKey(k) in s'.store
        ensures EndedRunOf(s', s'.store[ResultKey(k)], k)
      {
        BuildersInjective(k, s.runs[step.run].key);
      }
    }
  }

  lemma EndedRunKept(s: State, step: Step)
    requires RunsOfQueued(s) && Next(s, step).Some?
    ensures forall r, k :: EndedRunOf(s, r, k) ==> EndedRunOf(Next(s, step).value, r, k)
  {
    StepAdvancesRuns(s, step);
  }

  /** Only the item's own executor hears a result, and only a result of an ended run. */
  lemma PublishKeepsExecutor(s: State, r: nat, sent: bool, k: Key)
    requires Inv(s) && Next(s, Publish(r, sent)).Some? && k in s.executors
    ensures k in Next(s, Publish(r, sent)).value.executors
    ensures ExecutorInv(Next(s, Publish(r, sent)).value, k)
  {
    assert ExecutorInv(s, k);
    StepAdvancesRuns(s, Publish(r, sent));
    EndedRunKept(s, Publish(r, sent));
    BuildersInjective(k, s.runs[r].key);
    assert s.runs[r].key in s.queue;
  }

  /** The steps of the executor itself. */
  lemma OwnStepKeepsExecutor(s: State, step: Step, k: Key)
    requires Inv(s) && Next(s, step).Some? && k in Next(s, step).value.executors
    requires step in {Subscribe(k), Accept(k), GiveUp(k), Apply(k), Dispatch(k, true), Dispatch(k, false)}
    ensures ExecutorInv(Next(s, step).value, k)
  {
    if k in s.executors {
      assert ExecutorInv(s, k);
    }
  }

  lemma ExecutorKept(s: State, step: Step, k: Key)
    requires Inv(s) && Next(s, step).Some? && k in Next(s, step).value.executors
    ensures ExecutorInv(Next(s, step).value, k)
  {
    var s' := Next(s, step).value;
    if step.Publish? {
      PublishKeepsExecutor(s, step.run, step.sent, k);
    } else if step in {Subscribe(k), Accept(k), GiveUp(k), Apply(k), Dispatch(k, true), Dispatch(k, false)} {
      OwnStepKeepsExecutor(s, step, k);
    } else {
      assert k in s.executors && s'.executors[k] == s.executors[k];
      assert ExecutorInv(s, k);
      StepAdvancesRuns(s, step);
      EndedRunKept(s, step);
    }
  }

  lemma {:induction false} EveryRunKeepsInv(steps: seq<Step>)
    requires Run(steps).Some?
    ensures Inv(Run(steps).value)
  {
    if steps != [] {
      var n := |steps| - 1;
      EveryRunKeepsInv(steps[..n]);
      var s := Run(steps[..n]).value;
      QueuedKept(s, steps[n]);
      AcksKept(s, steps[n]);
      DeliveriesKept(s, steps[n]);
      StoreKept(s, steps[n]);
      forall k | k in Next(s, steps[n]).value.executors
        ensures ExecutorInv(Next(s, steps[n]).value, k)
      {
        ExecutorKept(s, steps[n], k);
      }
    }
  }

  // ---- Main results, over every run ----

  /** A result an executor accepts, and the bundle it then applies, come from ended
      worker runs of its own item; a bundle is only applied for a committed result. */
  lemma AcceptedResultIsOwn(steps: seq<Step>, k: Key)
    requires Run(steps).Some? && k in Run(steps).value.executors
    ensures
      var s := Run(steps).value;
      var stage := s.executors[k].stage;
      && (stage.Accepted? || stage.Applied? ==> EndedRunOf(s, stage.run, k))
      && (stage.Applied? ==> s.runs[stage.run].committed && EndedRunOf(s, stage.bundleFrom, k))
  {
    EveryRunKeepsInv(steps);
    assert ExecutorInv(Run(steps).value, k);
  }

  /** A sent result is put in the mailbox of its own item's executor, if that one still
      listens, and reaches nobody else. */
  lemma SentResultReachesItsExecutor(steps: seq<Step>, r: nat, k: Key)
    requires Run(steps).Some? && k in Run(steps).value.executors
    requires Next(Run(steps).value, Publish(r, true)).Some?
    ensures
      var s := Run(steps).value;
      var before, after := s.executors[k], Next(s, Publish(r, true)).value.executors[k];
      && s.runs[r].key in s.executors
      && (k == s.runs[r].key && Listening(before) ==> after == before.(mailbox := before.mailbox + [r]))
      && (k != s.runs[r].key || !Listening(before) ==> after == before)
  {
    EveryRunKeepsInv(steps);
    var s := Run(steps).value;
    assert s.runs[r].key in s.queue;
    BuildersInjective(k, s.runs[r].key);
  }

  /** An item is delivered at most three times, and is up for delivery exactly while it was
      delivered less often and is not acked. */
  lemma DeliveredAtMostThrice(steps: seq<Step>, k: Key)
    requires Run(steps).Some? && k in Run(steps).value.queue
    ensures
      var s := Run(steps).value;
      && |RunsOf(s, k)| <= 3
      && (Next(s, Claim(k)).Some? <==> !s.queue[k].acked && |RunsOf(s, k)| < 3)
  {
    EveryRunKeepsInv(steps);
  }

  /** The first result that reached a waiting executor is the one it accepts, and none is
      awaited before the item is dispatched. */
  lemma FirstResultIsAccepted(s: State, k: Key)
    requires k in s.executors
    ensures Next(s, Accept(k)).Some? <==> s.executors[k].stage.Waiting? && s.executors[k].mailbox != []
    ensures Next(s, Accept(k)).Some? ==>
      Next(s, Accept(k)).value == SetStage(s, k, Accepted(s.executors[k].mailbox[0]))
  {
  }

  /** What the network did not confirm has happened all the same: the item of a failed
      dispatch is queued although its executor gives up, and the bundle of a failed upload
      is stored although its run is not committed. */
  lemma UnconfirmedStepsCount(s: State, k: Key, r: nat, confirmed: bool)
    ensures Next(s, Dispatch(k, confirmed)).Some? ==>
      var s' := Next(s, Dispatch(k, confirmed)).value;
      && k in s'.queue && s'.queue[k] == Entry(0, false) && k in s'.executors
      && s'.executors[k].stage == if confirmed then Waiting else GaveUp
    ensures Next(s, Upload(r, confirmed)).Some? ==>
      var s' := Next(s, Upload(r, confirmed)).value;
      && r < |s'.runs| && s'.runs[r].phase.Returned? && (s'.runs[r].committed <==> confirmed)
      && ResultKey(s'.runs[r].key) in s'.store && s'.store[ResultKey(s'.runs[r].key)] == r
    ensures Next(s, Return(r)).Some? ==>
      r < |s.runs| && Next(s, Return(r)).value == s.(runs := s.runs[r := s.runs[r].(phase := Returned)])
  {
  }

  /** What can go wrong at any time: a run may crash until it has acked, an executor may
      give up until it has applied, and a result that is not sent reaches nobody. */
  lemma Interruptions(s: State, r: nat, k: Key)
    ensures Next(s, Crash(r)).Some? <==> r < |s.runs| && !s.runs[r].phase.Acked?
    ensures Next(s, Crash(r)).Some? ==> Next(s, Crash(r)).value == s.(runs := s.runs[r := s.runs[r].(phase := Crashed)])
    ensures Next(s, GiveUp(k)).Some? <==> k in s.executors && !s.executors[k].stage.Applied?
    ensures Next(s, GiveUp(k)).Some? ==> Next(s, GiveUp(k)).value == SetStage(s, k, GaveUp)
    ensures Next(s, Publish(r, false)).Some? ==>
      r < |s.runs| && Next(s, Publish(r, false)).value == s.(runs := s.runs[r := s.runs[r].(phase := Published)])
  {
  }

  /** What is applied for a committed result is the bundle that lies in the store by then,
      which a redelivered run may have replaced. */
  lemma StoredBundleIsApplied(s: State, k: Key)
    ensures Next(s, Apply(k)).Some? <==>
      && k in s.executors && s.executors[k].stage.Accepted? && s.executors[k].stage.run < |s.runs|
      && s.runs[s.executors[k].stage.run].committed && ResultKey(k) in s.store
    ensures Next(s, Apply(k)).Some? ==>
      Next(s, Apply(k)).value == SetStage(s, k, Applied(s.executors[k].stage.run, s.store[ResultKey(k)]))
  {
  }

  function Drive(s: State, steps: seq<Step>): Option<State>
    decreases |steps|
  {
    if steps == [] then Some(s)
    else
      match Next(s, steps[0])
      case None => None
      case Some(s') => Drive(s', steps[1..])
  }

  lemma DriveOn(s: State, step: Step, rest: seq<Step>)
    requires Next(s, step).Some?
    ensures Drive(s, [step] + rest) == Drive(Next(s, step).value, rest)
  {
    assert ([step] + rest)[1..] == rest;
  }

  /** `s` with one more item: its executor, its queue entry, its one run, its bundle. */
  function Placed(s: State, k: Key, e: Executor, q: Entry, run: WorkerRun, stored: bool): State {
    State(s.executors[k := e], s.queue[k := q], s.runs + [run],
          if stored then s.store[ResultKey(k) := |s.runs|] else s.store)
  }

  function Errand(k: Key, r: nat): seq<Step> {
    [Subscribe(k)] + ([Dispatch(k, true)] + ([Claim(k)] + ([Upload(r, true)] +
    ([Publish(r, true)] + ([Ack(r)] + ([Accept(k)] + ([Apply(k)] + [])))))))
  }

  /** From any state the protocol can carry a new item through: its worker run uploads,
      publishes and acks, and its executor applies that very run's bundle. */
  lemma ItemIsCarriedThrough(s: State, k: Key)
    requires k !in s.executors && k !in s.queue
    ensures
      var r := |s.runs|;
      Drive(s, Errand(k, r)) ==
        Some(Placed(s, k, Executor(Applied(r, r), [r]), Entry(1, true), WorkerRun(k, Acked, true), true))
  {
    var r := |s.runs|;
    var report := [Publish(r, true)] + ([Ack(r)] + ([Accept(k)] + ([Apply(k)] + [])));
    var claimed := Placed(s, k, Executor(Waiting, []), Entry(1, false), WorkerRun(k, Processing, false), false);
    ItemIsClaimed(s, k, [Upload(r, true)] + report);
    BundleIsUploaded(s, k);
    DriveOn(claimed, Upload(r, true), report);
    ResultIsApplied(s, k);
  }

  lemma ItemIsClaimed(s: State, k: Key, rest: seq<Step>)
    requires k !in s.executors && k !in s.queue
    ensures Drive(s, [Subscribe(k)] + ([Dispatch(k, true)] + ([Claim(k)] + rest))) ==
      Drive(Placed(s, k, Executor(Waiting, []), Entry(1, false), WorkerRun(k, Processing, false), false), rest)
  {
    var subscribed := s.(executors := s.executors[k := Executor(Subscribed, [])]);
    var queued := s.(executors := s.executors[k := Executor(Waiting, [])], queue := s.queue[k := Entry(0, false)]);
    DriveOn(s, Subscribe(k), [Dispatch(k, true)] + ([Claim(k)] + rest));
    assert subscribed.executors[k := Executor(Waiting, [])] == queued.executors;
    DriveOn(subscribed, Dispatch(k, true), [Claim(k)] + rest);
    assert queued.queue[k := Entry(1, false)] == s.queue[k := Entry(1, false)];
    DriveOn(queued, Claim(k), rest);
  }

  lemma BundleIsUploaded(s: State, k: Key)
    ensures
      Next(Placed(s, k, Executor(Waiting, []), Entry(1, false), WorkerRun(k, Processing, false), false), Upload(|s.runs|, true)) ==
        Some(Placed(s, k, Executor(Waiting, []), Entry(1, false), WorkerRun(k, Returned, true), true))
  {
    assert (s.runs + [WorkerRun(k, Processing, false)])[|s.runs| := WorkerRun(k, Returned, true)] ==
      s.runs + [WorkerRun(k, Returned, true)];
  }

  /** Nobody else hears the result. */
  lemma OnlyOwnHears(s: State, k: Key, r: nat)
    ensures Fanout(s.executors[k := Executor(Waiting, [])], k, r) == s.executors[k := Executor(Waiting, [r])]
  {
    var executors, heard := s.executors[k := Executor(Waiting, [])], s.executors[k := Executor(Waiting, [r])];
    forall j | j in executors
      ensures Fanout(executors, k, r)[j] == heard[j]
    {
      BuildersInjective(j, k);
      assert [] + [r] == [r];
    }
    assert Fanout(executors, k, r).Keys == heard.Keys;
  }

  lemma ResultIsPublished(s: State, k: Key)
    ensures
      var r := |s.runs|;
      Next(Placed(s, k, Executor(Waiting, []), Entry(1, false), WorkerRun(k, Returned, true), true), Publish(r, true)) ==
        Some(Placed(s, k, Executor(Waiting, [r]), Entry(1, false), WorkerRun(k, Published, true), true))
  {
    OnlyOwnHears(s, k, |s.runs|);
    assert (s.runs + [WorkerRun(k, Returned, true)])[|s.runs| := WorkerRun(k, Published, true)] ==
      s.runs + [WorkerRun(k, Published, true)];
  }

  lemma ItemIsAcked(s: State, k: Key)
    ensures
      var r := |s.runs|;
      Next(Placed(s, k, Executor(Waiting, [r]), Entry(1, false), WorkerRun(k, Published, true), true), Ack(r)) ==
        Some(Placed(s, k, Executor(Waiting, [r]), Entry(1, true), WorkerRun(k, Acked, true), true))
  {
    assert (s.runs + [WorkerRun(k, Published, true)])[|s.runs| := WorkerRun(k, Acked, true)] ==
      s.runs + [WorkerRun(k, Acked, true)];
    assert s.queue[k := Entry(1, false)][k := Entry(1, true)] == s.queue[k := Entry(1, true)];
  }

  lemma ResultIsTaken(s: State, k: Key, q: Entry, run: WorkerRun)
    requires run.committed
    ensures
      var r := |s.runs|;
      var waiting := Placed(s, k, Executor(Waiting, [r]), q, run, true);
      var accepted := Placed(s, k, Executor(Accepted(r), [r]), q, run, true);
      && Next(waiting, Accept(k)) == Some(accepted)
      && Next(accepted, Apply(k)) == Some(Placed(s, k, Executor(Applied(r, r), [r]), q, run, true))
  {
    var r := |s.runs|;
    assert s.executors[k := Executor(Waiting, [r])][k := Executor(Accepted(r), [r])] == s.executors[k := Executor(Accepted(r), [r])];
    assert s.executors[k := Executor(Accepted(r), [r])][k := Executor(Applied(r, r), [r])] ==
      s.executors[k := Executor(Applied(r, r), [r])];
  }

  lemma ResultIsApplied(s: State, k: Key)
    ensures
      var r := |s.runs|;
      Drive(Placed(s, k, Executor(Waiting, []), Entry(1, false), WorkerRun(k, Returned, true), true),
            [Publish(r, true)] + ([Ack(r)] + ([Accept(k)] + ([Apply(k)] + [])))) ==
        Some(Placed(s, k, Executor(Applied(r, r), [r]), Entry(1, true), WorkerRun(k, Acked, true), true))
  {
    var r, last := |s.runs|, WorkerRun(k, Acked, true);
    ResultIsPublished(s, k);
    DriveOn(Placed(s, k, Executor(Waiting, []), Entry(1, false), WorkerRun(k, Returned, true), true), Publish(r, true),
            [Ack(r)] + ([Accept(k)] + ([Apply(k)] + [])));
    ItemIsAcked(s, k);
    DriveOn(Placed(s, k, Executor(Waiting, [r]), Entry(1, false), WorkerRun(k, Published, true), true), Ack(r),
            [Accept(k)] + ([Apply(k)] + []));
    ResultIsTaken(s, k, Entry(1, true), last);
    DriveOn(Placed(s, k, Executor(Waiting, [r]), Entry(1, true), last, true), Accept(k), [Apply(k)] + []);
    DriveOn(Placed(s, k, Executor(Accepted(r), [r]), Entry(1, true), last, true), Apply(k), []);
  }

  ghost predicate Took(steps: seq<Step>, step: Step) {
    exists i :: 0 <= i < |steps| && steps[i] == step
  }

  /** What a run's phase says about the steps taken: processing ended before its result
      was published, and an ack comes only after the attempt to publish. */
  ghost predicate PhaseExplained(steps: seq<Step>, s: State, r: nat)
    requires r < |s.runs|
  {
    var phase := s.runs[r].phase;
    && (phase.Returned? || phase.Published? || phase.Acked? ==>
         Took(steps, Return(r)) || Took(steps, Upload(r, true)) || Took(steps, Upload(r, false)))
    && (phase.Published? || phase.Acked? ==> Took(steps, Publish(r, true)) || Took(steps, Publish(r, false)))
    && Took(steps, Claim(s.runs[r].key))
    && Took(steps, Subscribe(s.runs[r].key))
  }

  lemma TookExtends(steps: seq<Step>, step: Step)
    requires steps != [] && Took(steps[..|steps| - 1], step)
    ensures Took(steps, step)
  {
    var i :| 0 <= i < |steps| - 1 && steps[..|steps| - 1][i] == step;
    assert steps[i] == step;
  }

  lemma {:induction false} SubscribedWasSubscribed(steps: seq<Step>, k: Key)
    requires Run(steps).Some? && k in Run(steps).value.executors
    ensures Took(steps, Subscribe(k))
  {
    var n := |steps| - 1;
    if steps[n] == Subscribe(k) {
      assert steps[n] == Subscribe(k);
    } else {
      SubscribedWasSubscribed(steps[..n], k);
      TookExtends(steps, Subscribe(k));
    }
  }

  lemma {:induction false} PhasesExplained(steps: seq<Step>, r: nat)
    requires Run(steps).Some? && r < |Run(steps).value.runs|
    ensures PhaseExplained(steps, Run(steps).value, r)
  {
    EveryRunKeepsInv(steps);
    var n := |steps| - 1;
    var s, s' := Run(steps[..n]).value, Run(steps).value;
    assert s'.runs[r].key in s'.queue;
    SubscribedWasSubscribed(steps, s'.runs[r].key);
    assert Took(steps, steps[n]);
    if r < |s.runs| {
      PhasesExplained(steps[..n], r);
      EveryRunKeepsInv(steps[..n]);
      PhaseStaysExplained(steps, s, r);
    }
  }

  lemma PhaseStaysExplained(steps: seq<Step>, s: State, r: nat)
    requires steps != [] && r < |s.runs| && RunsOfQueued(s)
    requires PhaseExplained(steps[..|steps| - 1], s, r) && Next(s, steps[|steps| - 1]).Some?
    ensures r < |Next(s, steps[|steps| - 1]).value.runs|
    ensures PhaseExplained(steps, Next(s, steps[|steps| - 1]).value, r)
  {
    var last := steps[|steps| - 1];
    assert Took(steps, last) by {
      assert steps[|steps| - 1] == last;
    }
    StepAdvancesRuns(s, last);
    TookMonotone(steps);
    PhaseStep(s, last, r);
  }

  lemma TookMonotone(steps: seq<Step>)
    requires steps != []
    ensures forall step :: Took(steps[..|steps| - 1], step) ==> Took(steps, step)
  {
    forall step | Took(steps[..|steps| - 1], step)
      ensures Took(steps, step)
    {
      TookExtends(steps, step);
    }
  }

  lemma PhaseStep(s: State, step: Step, r: nat)
    requires Next(s, step).Some? && r < |s.runs|
    ensures
      var p, q := s.runs[r].phase, Next(s, step).value.runs[r].phase;
      && (q.Returned? ==> p.Returned? || step in {Return(r), Upload(r, true), Upload(r, false)})
      && (q.Published? ==> p.Published? || (p.Returned? && step in {Publish(r, true), Publish(r, false)}))
      && (q.Acked? ==> p.Acked? || (p.Published? && step == Ack(r)))
  {
  }

  /** When a result is published, its item had been subscribed to and claimed, and its
      processing had ended: no result can precede its subscription. */
  lemma PublishFollowsSubscribe(steps: seq<Step>, j: nat, r: nat, sent: bool)
    requires j < |steps| && Run(steps).Some? && steps[j] == Publish(r, sent)
    ensures Run(steps[..j]).Some? && r < |Run(steps[..j]).value.runs|
    ensures
      var k, done := Run(steps[..j]).value.runs[r].key, steps[..j];
      && Took(done, Subscribe(k)) && Took(done, Claim(k))
      && (Took(done, Return(r)) || Took(done, Upload(r, true)) || Took(done, Upload(r, false)))
  {
    StepWasEnabled(steps, j);
    PhasesExplained(steps[..j], r);
  }

  /** When an item is acked, the run that acks it had ended processing and its result
      publish had been attempted. */
  lemma AckFollowsPublish(steps: seq<Step>, j: nat, r: nat)
    requires j < |steps| && Run(steps).Some? && steps[j] == Ack(r)
    ensures Run(steps[..j]).Some? && r < |Run(steps[..j]).value.runs|
    ensures
      var done := steps[..j];
      && (Took(done, Publish(r, true)) || Took(done, Publish(r, false)))
      && (Took(done, Return(r)) || Took(done, Upload(r, true)) || Took(done, Upload(r, false)))
  {
    StepWasEnabled(steps, j);
    PhasesExplained(steps[..j], r);
  }

  lemma StepWasEnabled(steps: seq<Step>, j: nat)
    requires j < |steps| && Run(steps).Some?
    ensures Run(steps[..j]).Some? && Next(Run(steps[..j]).value, steps[j]).Some?
  {
    PrefixRuns(steps, j + 1);
    assert steps[..j + 1][..j] == steps[..j];
  }

  lemma {:induction false} PrefixRuns(steps: seq<Step>, j: nat)
    requires j <= |steps| && Run(steps).Some?
    ensures Run(steps[..j]).Some?
  {
    if j < |steps| {
      assert steps[..|steps| - 1][..j] == steps[..j];
      PrefixRuns(steps[..|steps| - 1], j);
    } else {
      assert steps[..j] == steps;
    }
  }
}
