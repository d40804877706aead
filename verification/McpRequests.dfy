/** The MCP client's request table: JSON-RPC 2.0 responses matched to requests by id,
    under timeouts, write failures, end of stream and late or duplicate replies. */
module McpRequests {
  import opened Wrappers
  import opened CappedReader

  type Value = string  // a JSON value, serialised

  /** A JSON-RPC message as the reader sees it: an unsigned id if it carries one, an
      error object (with its message text, if any) and a result, each optional. */
  datatype Message = Message(id: Option<nat>, error: Option<Option<string>>, result: Option<Value>)

  /** What is routed to a waiting request. */
  datatype Reply = Ok(value: Value) | Err(message: string)

  datatype Input = Msg(message: Message) | End

  function ReplyOf(m: Message): Option<Reply> {
    match m.error
    case Some(text) => Some(Err(if text.Some? then text.value else "unknown mcp error"))
    case None => if m.result.Some? then Some(Ok(m.result.value)) else None
  }

  /** What `input` says to request `id`. */
  function ReplyTo(input: Input, id: nat): Option<Reply> {
    match input
    case End => Some(Err("closed"))
    case Msg(m) => if m.id == Some(id) then ReplyOf(m) else None
  }

  // ---- The table shared by the reader task and the callers ----

  /** `pending`: request id to the caller waiting on it. `sent`: what each caller's
      one-shot channel holds. */
  datatype Table = Table(pending: map<nat, nat>, sent: map<nat, Reply>)

  function Deliver(t: Table, input: Input): Table {
    match input
    case End => Table(map[], t.sent + Closing(t.pending.Values))
    case Msg(m) =>
      if m.id.None? || ReplyOf(m).None? || m.id.value !in t.pending then t
      else Table(t.pending - {m.id.value}, t.sent[t.pending[m.id.value] := ReplyOf(m).value])
  }

  function Closing(callers: set<nat>): map<nat, Reply> {
    map k | k in callers :: Err("closed")
  }

  function DeliverAll(t: Table, inputs: seq<Input>): Table
    decreases |inputs|
  {
    if inputs == [] then t else DeliverAll(Deliver(t, inputs[0]), inputs[1..])
  }

  /** What a read line contributes: oversized, blank and unparsable lines nothing. */
  function Heard(outcomes: seq<Outcome>, parse: seq<Byte> -> Option<Message>): seq<Input> {
    if outcomes == [] then []
    else
      var rest := Heard(outcomes[1..], parse);
      match outcomes[0]
      case Line(text) => if parse(text).Some? then [Msg(parse(text).value)] + rest else rest
      case TooLong => rest
      case Eof => [End] + rest
      case IoError => [End] + rest
  }

  /** What is heard of one outcome, and that outcomes are heard one after the other. */
  lemma {:induction false} HeardInOrder(a: seq<Outcome>, b: seq<Outcome>, parse: seq<Byte> -> Option<Message>)
    ensures Heard(a + b, parse) == Heard(a, parse) + Heard(b, parse)
    ensures forall text ::
      Heard([Line(text)], parse) == if parse(text).Some? then [Msg(parse(text).value)] else []
    ensures Heard([TooLong], parse) == [] && Heard([Eof], parse) == Heard([IoError], parse) == [End]
  {
    if a == [] {
      assert a + b == b;
    } else {
      HeardInOrder(a[1..], b, parse);
      assert (a + b)[1..] == a[1..] + b;
    }
  }

  lemma {:induction false} DeliveredInOrder(t: Table, a: seq<Input>, b: seq<Input>)
    ensures DeliverAll(t, a + b) == DeliverAll(DeliverAll(t, a), b)
    ensures forall input :: DeliverAll(t, [input]) == Deliver(t, input)
    decreases |a|
  {
    if a == [] {
      assert a + b == b;
    } else {
      DeliveredInOrder(Deliver(t, a[0]), a[1..], b);
      assert (a + b)[1..] == a[1..] + b;
    }
  }

  class Router {
    var pending: map<nat, nat>
    var sent: map<nat, Reply>

    ghost function Model(): Table
      reads this
    {
      Table(pending, sent)
    }

    constructor ()
      ensures Model() == Table(map[], map[])
    {
      pending, sent := map[], map[];
    }

    method Route(m: Message)
      modifies this
      ensures Model() == Deliver(old(Model()), Msg(m))
    {
      if m.id.None? {
        return;
      }
      var outcome := ReplyOf(m);
      if outcome.None? {
        return;
      }
      if m.id.value in pending {
        sent := sent[pending[m.id.value] := outcome.value];
        pending := pending - {m.id.value};
      }
    }

    method Drain()
      modifies this
      ensures Model() == Deliver(old(Model()), End)
    {
      var ids := pending.Keys;
      ghost var closed: set<nat> := {};
      while ids != {}
        invariant pending == old(pending) && ids <= pending.Keys
        invariant closed == set id | id in pending.Keys - ids :: pending[id]
        invariant sent == old(sent) + Closing(closed)
        decreases ids
      {
        var id :| id in ids;
        sent := sent[pending[id] := Err("closed")];
        closed := closed + {pending[id]};
        ids := ids - {id};
      }
      assert closed == pending.Values;
      pending := map[];
    }

    /** The reader task: whatever the chunking, it delivers exactly the messages on
        the newline-separated lines of the stream, in order, then closes the rest. */
    method ReaderLoop(r: Source, maxBytes: nat, parse: seq<Byte> -> Option<Message>)
      requires r.Valid()
      modifies this, r
      ensures Model() == DeliverAll(old(Model()), Heard(Expected(Split(old(r.Rest())), maxBytes, r.broken), parse))
    {
      ReadAllIsSplit(r.Rest(), maxBytes, r.broken);
      while true
        invariant r.Valid()
        invariant
          DeliverAll(Model(), Heard(ReadAllSpec(r.Rest(), maxBytes, r.broken), parse)) ==
          DeliverAll(old(Model()), Heard(ReadAllSpec(old(r.Rest()), maxBytes, r.broken), parse))
        decreases |r.Rest()|
      {
        ghost var before := r.Rest();
        ghost var peak;
        var o: Outcome;
        o, peak := ReadCappedLine(r, maxBytes);
        ReadAllStep(before, maxBytes, r.broken);
        if o.Eof? || o.IoError? {
          break;
        }
        if o.Line? {
          var message := parse(o.text);
          if message.Some? {
            Route(message.value);
          }
        }
      }
      Drain();
    }
  }

  // ---- Callers and the reader, interleaved ----

  datatype Final = Value(value: Value) | Rpc(message: string) | Io | Timeout | Closed

  /** Where one call of `request` stands. Its id and channel are its own. */
  datatype Pc =
    | Allocated             // id taken, not in the table yet
    | Writing               // in the table, request being written
    | WriteFailed           // write failed; about to leave the table
    | Awaiting              // waiting on its channel under the timeout
    | TimedOut              // timeout fired; about to leave the table
    | Abandoned             // caller went away before it was in the table
    | Dropped               // caller went away later; its entry stays
    | Finished(final: Final)

  /** `since`: how much of the stream had been routed when the caller registered. */
  datatype Caller = Caller(id: nat, pc: Pc, since: nat)

  datatype State = State(nextId: nat, callers: seq<Caller>, table: Table, log: seq<Input>, ended: bool)

  datatype Move =
    | Register | WriteDone | WriteError | LeaveAfterWrite
    | Receive | ReceiveClosed | TimeoutFires | LeaveAfterTimeout | Drop

  /** A new call, one move of call `i`, or one input routed by the reader. */
  datatype Step = Begin | Call(i: nat, move: Move) | Hear(input: Input)

  function Init(): State {
    State(1, [], Table(map[], map[]), [], false)
  }

  function FinalOf(r: Reply): Final {
    match r
    case Ok(v) => Value(v)
    case Err(m) => Rpc(m)
  }

  /** The program point a move takes caller `i` to; None when not enabled. */
  function NextPc(s: State, i: nat, move: Move): Option<Pc>
    requires i < |s.callers|
  {
    var pc := s.callers[i].pc;
    match move
    case Register => if pc.Allocated? then Some(Writing) else None
    case WriteDone => if pc.Writing? then Some(Awaiting) else None
    case WriteError => if pc.Writing? then Some(WriteFailed) else None
    case LeaveAfterWrite => if pc.WriteFailed? then Some(Finished(Io)) else None
    case Receive => if pc.Awaiting? && i in s.table.sent then Some(Finished(FinalOf(s.table.sent[i]))) else None
    case ReceiveClosed =>
      if pc.Awaiting? && i !in s.table.sent && i !in s.table.pending.Values then Some(Finished(Closed)) else None
    case TimeoutFires => if pc.Awaiting? && i !in s.table.sent then Some(TimedOut) else None
    case LeaveAfterTimeout => if pc.TimedOut? then Some(Finished(Timeout)) else None
    case Drop =>
      if pc.Allocated? then Some(Abandoned)
      else if pc.Writing? || pc.WriteFailed? || pc.Awaiting? || pc.TimedOut? then Some(Dropped)
      else None
  }

  /** What a move does to the shared table. */
  function TableAfter(t: Table, i: nat, id: nat, move: Move): Table {
    match move
    case Register => t.(pending := t.pending[id := i])
    case LeaveAfterWrite => t.(pending := t.pending - {id})
    case LeaveAfterTimeout => t.(pending := t.pending - {id})
    case _ => t
  }

  function Next(s: State, step: Step): Option<State> {
    match step
    case Begin => Some(s.(nextId := s.nextId + 1, callers := s.callers + [Caller(s.nextId, Allocated, 0)]))
    case Hear(input) =>
      if s.ended then None
      else Some(s.(table := Deliver(s.table, input), log := s.log + [input], ended := input.End?))
    case Call(i, move) =>
      if i >= |s.callers| || NextPc(s, i, move).None? then None
      else
        var c := s.callers[i];
        var c' := c.(pc := NextPc(s, i, move).value, since := if move.Register? then |s.log| else c.since);
        Some(s.(callers := s.callers[i := c'], table := TableAfter(s.table, i, c.id, move)))
  }

  function Run(steps: seq<Step>): Option<State> {
    if steps == [] then Some(Init())
    else
      match Run(steps[..|steps| - 1])
      case None => None
      case Some(s) => Next(s, steps[|steps| - 1])
  }

  // ---- What a caller is entitled to ----

  /** The first thing the stream says to request `id`. */
  function FirstReply(log: seq<Input>, id: nat): Option<Reply> {
    if log == [] then None
    else
      var before := FirstReply(log[..|log| - 1], id);
      if before.Some? then before else ReplyTo(log[|log| - 1], id)
  }

  /** What the stream has said to a caller since it registered. */
  function Answer(s: State, c: Caller): Option<Reply> {
    if c.since <= |s.log| then FirstReply(s.log[c.since..], c.id) else None
  }

  predicate Registered(c: Caller) {
    match c.pc
    case Allocated => false
    case Abandoned => false
    case Finished(_) => false
    case _ => true
  }

  /** What the machine keeps for caller `k`. */
  ghost predicate CallerInv(s: State, k: nat)
    requires k < |s.callers|
  {
    var c := s.callers[k];
    && c.id == k + 1
    && c.since <= |s.log|
    && (c.pc.Allocated? || c.pc.Abandoned? ==> c.id !in s.table.pending && k !in s.table.sent)
    && (Registered(c) ==>
         && (k in s.table.sent <==> Answer(s, c).Some?)
         && (k in s.table.sent ==> s.table.sent[k] == Answer(s, c).value)
         && (c.id in s.table.pending <==> Answer(s, c).None?))
    && (c.pc.Finished? ==>
         && c.id !in s.table.pending
         && !c.pc.final.Closed?
         && (c.pc.final.Value? || c.pc.final.Rpc? ==>
              Answer(s, c).Some? && c.pc.final == FinalOf(Answer(s, c).value)))
  }

  ghost predicate Inv(s: State) {
    && s.nextId == |s.callers| + 1
    && (forall id :: id in s.table.pending ==> 1 <= id <= |s.callers| && s.table.pending[id] == id - 1)
    && (forall k :: k in s.table.sent ==> k < |s.callers|)
    && (forall k: nat :: k < |s.callers| ==> CallerInv(s, k))
  }

  lemma AnswerExtends(s: State, input: Input, c: Caller)
    requires c.since <= |s.log|
    ensures
      var s' := s.(log := s.log + [input]);
      Answer(s', c) == if Answer(s, c).Some? then Answer(s, c) else ReplyTo(input, c.id)
  {
    var tail := (s.log + [input])[c.since..];
    assert tail == s.log[c.since..] + [input];
    assert tail[..|tail| - 1] == s.log[c.since..];
  }

  /** Delivering one input, seen from caller `k`'s entry. */
  lemma DeliverSeen(t: Table, input: Input, id: nat, k: nat)
    requires forall j :: j in t.pending ==> (t.pending[j] == k <==> j == id)
    ensures
      var t' := Deliver(t, input);
      && (id in t'.pending <==> id in t.pending && ReplyTo(input, id).None?)
      && (id in t.pending && ReplyTo(input, id).Some? ==> k in t'.sent && t'.sent[k] == ReplyTo(input, id).value)
      && (id !in t.pending || ReplyTo(input, id).None? ==>
           (k in t'.sent <==> k in t.sent) && (k in t.sent ==> t'.sent[k] == t.sent[k]))
  {
    if id in t.pending {
      assert t.pending[id] in t.pending.Values;
    }
  }

  lemma HearKeepsCaller(s: State, input: Input, k: nat)
    requires Inv(s) && !s.ended && k < |s.callers|
    ensures CallerInv(Next(s, Hear(input)).value, k)
  {
    assert CallerInv(s, k);
    AnswerExtends(s, input, s.callers[k]);
    DeliverSeen(s.table, input, k + 1, k);
  }

  lemma HearKeepsInv(s: State, input: Input)
    requires Inv(s) && !s.ended
    ensures Inv(Next(s, Hear(input)).value)
  {
    forall k: nat | k < |s.callers|
      ensures CallerInv(Next(s, Hear(input)).value, k)
    {
      HearKeepsCaller(s, input, k);
    }
    assert forall k :: k in Deliver(s.table, input).sent ==> k in s.table.sent || k in s.table.pending.Values;
  }

  lemma BeginKeepsInv(s: State)
    requires Inv(s)
    ensures Inv(Next(s, Begin).value)
  {
    var s' := Next(s, Begin).value;
    forall k: nat | k < |s'.callers|
      ensures CallerInv(s', k)
    {
      if k < |s.callers| {
        assert CallerInv(s, k);
      }
    }
  }

  lemma CallKeepsInv(s: State, i: nat, move: Move)
    requires Inv(s) && Next(s, Call(i, move)).Some?
    ensures Inv(Next(s, Call(i, move)).value)
  {
    var s' := Next(s, Call(i, move)).value;
    assert CallerInv(s, i);
    MoverKeepsInv(s, i, move);
    forall k: nat | k < |s'.callers| && k != i
      ensures CallerInv(s', k)
    {
      assert CallerInv(s, k);
    }
  }

  lemma MoverKeepsInv(s: State, i: nat, move: Move)
    requires Inv(s) && Next(s, Call(i, move)).Some? && CallerInv(s, i)
    ensures CallerInv(Next(s, Call(i, move)).value, i)
  {
    if move.Register? {
      assert s.log[|s.log|..] == [];
    }
    if s.callers[i].id in s.table.pending {
      assert s.table.pending[s.callers[i].id] in s.table.pending.Values;
    }
  }

  lemma {:induction false} EveryRunKeepsInv(steps: seq<Step>)
    requires Run(steps).Some?
    ensures Inv(Run(steps).value)
  {
    if steps != [] {
      var n := |steps| - 1;
      EveryRunKeepsInv(steps[..n]);
      var s := Run(steps[..n]).value;
      match steps[n]
      case Begin => BeginKeepsInv(s);
      case Hear(input) => HearKeepsInv(s, input);
      case Call(i, move) => CallKeepsInv(s, i, move);
    }
  }

  // ---- Main results, over every run ----

  lemma {:induction false} FirstReplyWitness(log: seq<Input>, id: nat) returns (j: nat)
    requires FirstReply(log, id).Some?
    ensures j < |log| && ReplyTo(log[j], id) == FirstReply(log, id)
    ensures forall l :: 0 <= l < j ==> ReplyTo(log[l], id).None?
  {
    var n := |log| - 1;
    if FirstReply(log[..n], id).Some? {
      j := FirstReplyWitness(log[..n], id);
    } else {
      j := n;
      NoReplyMeansSilence(log[..n], id);
    }
  }

  lemma {:induction false} NoReplyMeansSilence(log: seq<Input>, id: nat)
    requires FirstReply(log, id).None?
    ensures forall l :: 0 <= l < |log| ==> ReplyTo(log[l], id).None?
  {
    if log != [] {
      NoReplyMeansSilence(log[..|log| - 1], id);
    }
  }

  /** The message answers `id` with `result` `v`, and reports no `error`. */
  predicate Carries(m: Message, id: nat, v: Value) {
    m.id == Some(id) && m.error.None? && m.result == Some(v)
  }

  /** A value or an RPC error reaches a request only from the first input after its
      registration that answers its id; a value only from a message with that id
      that carries it as `result` and carries no `error`. */
  lemma AnswerComesFromStream(steps: seq<Step>, i: nat) returns (j: nat)
    requires Run(steps).Some? && i < |Run(steps).value.callers|
    requires
      var pc := Run(steps).value.callers[i].pc;
      pc.Finished? && (pc.final.Value? || pc.final.Rpc?)
    ensures
      var s := Run(steps).value;
      var c := s.callers[i];
      && c.since <= j < |s.log|
      && (forall l :: c.since <= l < j ==> ReplyTo(s.log[l], c.id).None?)
      && (c.pc.final.Value? ==> s.log[j].Msg? && Carries(s.log[j].message, c.id, c.pc.final.value))
      && (c.pc.final.Rpc? ==> (s.log[j].End? || (s.log[j].message.id == Some(c.id) && s.log[j].message.error.Some?)))
  {
    EveryRunKeepsInv(steps);
    var s := Run(steps).value;
    assert CallerInv(s, i);
    var c := s.callers[i];
    var k := FirstReplyWitness(s.log[c.since..], c.id);
    j := c.since + k;
    assert forall l :: c.since <= l < j ==> s.log[l] == s.log[c.since..][l - c.since];
  }

  /** The pending map is exactly the registered calls the stream has not answered. */
  lemma PendingIsUnanswered(steps: seq<Step>, id: nat)
    requires Run(steps).Some?
    ensures
      var s := Run(steps).value;
      id in s.table.pending <==>
        exists i :: 0 <= i < |s.callers| && s.callers[i].id == id && Registered(s.callers[i]) && Answer(s, s.callers[i]).None?
  {
    EveryRunKeepsInv(steps);
    var s := Run(steps).value;
    if id in s.table.pending {
      assert CallerInv(s, id - 1);
      var c := s.callers[id - 1];
      assert c.id == id && Registered(c) && Answer(s, c).None?;
    }
    forall i: nat | i < |s.callers| && s.callers[i].id == id && Registered(s.callers[i]) && Answer(s, s.callers[i]).None?
      ensures id in s.table.pending
    {
      assert CallerInv(s, i);
    }
  }

  /** Ids are never reused. */
  lemma IdsDistinct(steps: seq<Step>, i: nat, j: nat)
    requires Run(steps).Some? && i < j < |Run(steps).value.callers|
    ensures Run(steps).value.callers[i].id != Run(steps).value.callers[j].id
  {
    EveryRunKeepsInv(steps);
    assert CallerInv(Run(steps).value, i) && CallerInv(Run(steps).value, j);
  }

  /** No request ever ends with `Closed`: a sender is only dropped unused by the call
      that owns it. */
  lemma NeverClosed(steps: seq<Step>, i: nat)
    requires Run(steps).Some? && i < |Run(steps).value.callers|
    ensures Run(steps).value.callers[i].pc != Finished(Closed)
  {
    EveryRunKeepsInv(steps);
    assert CallerInv(Run(steps).value, i);
  }

  /** A call resolves once: its final result survives every further step. */
  lemma {:induction false} FinishedIsFinal(steps: seq<Step>, k: nat, i: nat)
    requires k <= |steps| && Run(steps).Some?
    requires Run(steps[..k]).Some? && i < |Run(steps[..k]).value.callers|
    requires Run(steps[..k]).value.callers[i].pc.Finished?
    ensures i < |Run(steps).value.callers|
    ensures Run(steps).value.callers[i] == Run(steps[..k]).value.callers[i]
  {
    if k < |steps| {
      var n := |steps| - 1;
      assert steps[..n][..k] == steps[..k];
      FinishedIsFinal(steps[..n], k, i);
    } else {
      assert steps[..k] == steps;
    }
  }

  /** A message for an id nobody waits on (late, duplicate or made up) changes
      nothing but the record of what was heard. */
  lemma StrayMessageChangesNothing(s: State, m: Message)
    requires !s.ended && (m.id.None? || m.id.value !in s.table.pending)
    ensures Next(s, Hear(Msg(m))) == Some(s.(log := s.log + [Msg(m)]))
  {
  }

  /** An answered caller that is still waiting can only take its answer: the timeout
      no longer fires and the channel is not closed under it. */
  lemma AnsweredCallerReceives(steps: seq<Step>, i: nat)
    requires Run(steps).Some? && i < |Run(steps).value.callers|
    requires Run(steps).value.callers[i].pc.Awaiting?
    ensures
      var s := Run(steps).value;
      var a := Answer(s, s.callers[i]);
      && (a.Some? ==> NextPc(s, i, Receive) == Some(Finished(FinalOf(a.value))) && NextPc(s, i, TimeoutFires).None?)
      && (a.None? ==> NextPc(s, i, Receive).None? && NextPc(s, i, TimeoutFires).Some?)
      && NextPc(s, i, ReceiveClosed).None?
  {
    EveryRunKeepsInv(steps);
    var s := Run(steps).value;
    assert CallerInv(s, i);
    if Answer(s, s.callers[i]).None? {
      assert s.table.pending[s.callers[i].id] in s.table.pending.Values;
    }
  }

  /** After end of stream nothing more is routed: a call registered from then on ends
      with a write error or a timeout, never with an answer. */
  lemma LateRegistrationOnlyTimesOut(steps: seq<Step>, i: nat)
    requires Run(steps).Some? && i < |Run(steps).value.callers| && Run(steps).value.ended
    requires Run(steps).value.callers[i].since == |Run(steps).value.log|
    ensures
      var s := Run(steps).value;
      && (s.callers[i].pc.Finished? ==> s.callers[i].pc.final.Io? || s.callers[i].pc.final.Timeout?)
      && (forall input :: Next(s, Hear(input)).None?)
  {
    EveryRunKeepsInv(steps);
    var s := Run(steps).value;
    assert CallerInv(s, i);
    assert s.log[|s.log|..] == [];
  }

  /** A response reaches its request: while the stream is open, a message with the id of
      a waiting, unanswered call lets it receive the result, or the error's text, which
      takes precedence. With neither, the call goes on waiting. */
  lemma ResponseIsDelivered(steps: seq<Step>, i: nat, m: Message)
    requires Run(steps).Some? && !Run(steps).value.ended && i < |Run(steps).value.callers|
    requires
      var s := Run(steps).value;
      s.callers[i].pc.Awaiting? && Answer(s, s.callers[i]).None? && m.id == Some(s.callers[i].id)
    ensures Next(Run(steps).value, Hear(Msg(m))).Some?
    ensures
      var s' := Next(Run(steps).value, Hear(Msg(m))).value;
      NextPc(s', i, Receive) ==
        match m.error
        case Some(Some(text)) => Some(Finished(Rpc(text)))
        case Some(None) => Some(Finished(Rpc("unknown mcp error")))
        case None => if m.result.Some? then Some(Finished(Value(m.result.value))) else None
  {
    EveryRunKeepsInv(steps);
    var s := Run(steps).value;
    assert CallerInv(s, i);
  }

  function Drive(s: State, steps: seq<Step>): Option<State>
    decreases |steps|
  {
    if steps == [] then Some(s)
    else
      match Next(s, steps[0])
      case None => None
      case Some(s') => Drive(s', steps[1..])
  }

  lemma DriveOn(s: State, step: Step, rest: seq<Step>)
    requires Next(s, step).Some?
    ensures Drive(s, [step] + rest) == Drive(Next(s, step).value, rest)
  {
    assert ([step] + rest)[1..] == rest;
  }

  /** A state with one more caller, and this table. */
  function Joined(s: State, pc: Pc, since: nat, table: Table): State {
    s.(nextId := s.nextId + 1, callers := s.callers + [Caller(s.nextId, pc, since)], table := table)
  }

  /** In any state that can be reached a new call can be made and sent; its entry is then
      in the table under its id, and it waits for what the stream says from now on. A
      failed write, or silence, takes the entry out again and ends the call. */
  lemma CallsRunTheirCourse(steps: seq<Step>)
    requires Run(steps).Some?
    ensures
      var s, n := Run(steps).value, |Run(steps).value.callers|;
      var entered := s.table.(pending := s.table.pending[s.nextId := n]);
      && Drive(s, [Begin] + ([Call(n, Register)] + ([Call(n, WriteDone)] + []))) ==
           Some(Joined(s, Awaiting, |s.log|, entered))
      && Drive(s, [Begin] + ([Call(n, Register)] + ([Call(n, WriteError)] + ([Call(n, LeaveAfterWrite)] + [])))) ==
           Some(Joined(s, Finished(Io), |s.log|, s.table))
      && Drive(Joined(s, Awaiting, |s.log|, entered), [Call(n, TimeoutFires)] + ([Call(n, LeaveAfterTimeout)] + [])) ==
           Some(Joined(s, Finished(Timeout), |s.log|, s.table))
  {
    EveryRunKeepsInv(steps);
    var s := Run(steps).value;
    CallIsSent(s);
    WriteFails(s);
    SilenceTimesOut(s);
  }

  /** The new caller's own move, when it does not register. */
  lemma JoinedMoves(s: State, pc: Pc, since: nat, table: Table, move: Move)
    requires !move.Register? && NextPc(Joined(s, pc, since, table), |s.callers|, move).Some?
    ensures
      var n := |s.callers|;
      Next(Joined(s, pc, since, table), Call(n, move)) ==
        Some(Joined(s, NextPc(Joined(s, pc, since, table), n, move).value, since, TableAfter(table, n, s.nextId, move)))
  {
    var n := |s.callers|;
    var c, c' := Caller(s.nextId, pc, since), Caller(s.nextId, NextPc(Joined(s, pc, since, table), n, move).value, since);
    assert (s.callers + [c])[n := c'] == s.callers + [c'];
  }

  lemma CallIsSent(s: State)
    ensures
      var n := |s.callers|;
      var entered := s.table.(pending := s.table.pending[s.nextId := n]);
      Drive(s, [Begin] + ([Call(n, Register)] + ([Call(n, WriteDone)] + []))) == Some(Joined(s, Awaiting, |s.log|, entered))
  {
    var n := |s.callers|;
    var entered := s.table.(pending := s.table.pending[s.nextId := n]);
    Registers(s, [Call(n, WriteDone)] + []);
    JoinedMoves(s, Writing, |s.log|, entered, WriteDone);
    DriveOn(Joined(s, Writing, |s.log|, entered), Call(n, WriteDone), []);
  }

  lemma Registers(s: State, rest: seq<Step>)
    ensures
      var n := |s.callers|;
      Drive(s, [Begin] + ([Call(n, Register)] + rest)) ==
        Drive(Joined(s, Writing, |s.log|, s.table.(pending := s.table.pending[s.nextId := n])), rest)
  {
    var n := |s.callers|;
    var c, c' := Caller(s.nextId, Allocated, 0), Caller(s.nextId, Writing, |s.log|);
    DriveOn(s, Begin, [Call(n, Register)] + rest);
    assert (s.callers + [c])[n := c'] == s.callers + [c'];
    DriveOn(Joined(s, Allocated, 0, s.table), Call(n, Register), rest);
  }

  lemma WriteFails(s: State)
    requires s.nextId !in s.table.pending
    ensures
      var n := |s.callers|;
      Drive(s, [Begin] + ([Call(n, Register)] + ([Call(n, WriteError)] + ([Call(n, LeaveAfterWrite)] + [])))) ==
        Some(Joined(s, Finished(Io), |s.log|, s.table))
  {
    var n := |s.callers|;
    var entered := s.table.(pending := s.table.pending[s.nextId := n]);
    var leave := [Call(n, LeaveAfterWrite)] + [];
    Registers(s, [Call(n, WriteError)] + leave);
    JoinedMoves(s, Writing, |s.log|, entered, WriteError);
    DriveOn(Joined(s, Writing, |s.log|, entered), Call(n, WriteError), leave);
    JoinedMoves(s, WriteFailed, |s.log|, entered, LeaveAfterWrite);
    DriveOn(Joined(s, WriteFailed, |s.log|, entered), Call(n, LeaveAfterWrite), []);
    assert s.table.pending[s.nextId := n] - {s.nextId} == s.table.pending;
  }

  lemma SilenceTimesOut(s: State)
    requires s.nextId !in s.table.pending && |s.callers| !in s.table.sent
    ensures
      var n := |s.callers|;
      var entered := s.table.(pending := s.table.pending[s.nextId := n]);
      Drive(Joined(s, Awaiting, |s.log|, entered), [Call(n, TimeoutFires)] + ([Call(n, LeaveAfterTimeout)] + [])) ==
        Some(Joined(s, Finished(Timeout), |s.log|, s.table))
  {
    var n := |s.callers|;
    var entered := s.table.(pending := s.table.pending[s.nextId := n]);
    var leave := [Call(n, LeaveAfterTimeout)] + [];
    JoinedMoves(s, Awaiting, |s.log|, entered, TimeoutFires);
    DriveOn(Joined(s, Awaiting, |s.log|, entered), Call(n, TimeoutFires), leave);
    JoinedMoves(s, TimedOut, |s.log|, entered, LeaveAfterTimeout);
    DriveOn(Joined(s, TimedOut, |s.log|, entered), Call(n, LeaveAfterTimeout), []);
    assert s.table.pending[s.nextId := n] - {s.nextId} == s.table.pending;
  }

  /** End of stream fails every waiting call with the RPC error "closed". */
  lemma EndAnswersEveryone(steps: seq<Step>, i: nat)
    requires Run(steps).Some? && !Run(steps).value.ended && i < |Run(steps).value.callers|
    requires
      var s := Run(steps).value;
      s.callers[i].pc.Awaiting? && Answer(s, s.callers[i]).None?
    ensures
      var s' := Next(Run(steps).value, Hear(End)).value;
      && s'.table.pending == map[]
      && NextPc(s', i, Receive) == Some(Finished(Rpc("closed")))
  {
    EveryRunKeepsInv(steps);
    var s := Run(steps).value;
    assert CallerInv(s, i);
    assert s.table.pending[s.callers[i].id] in s.table.pending.Values;
  }
}
