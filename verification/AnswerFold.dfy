/** The two folds over an agent run's event stream: which text is the final answer,
    and which tool call each tool result belongs to. */
module AnswerFold {
  import opened Wrappers

  /** A tool's JSON response: an object's fields, or any other value, as text. */
  datatype Json = Object(fields: map<string, string>) | Other(text: string)

  datatype Part =
    | Text(text: string)
    | Call(name: string, args: string, callId: Option<string>)
    | Response(tool: string, response: Json, responseId: Option<string>)
    | Media

  /** One event: its content, if any, and whether it is a streamed delta. */
  datatype Event = Event(parts: Option<seq<Part>>, partial: bool)

  /** One item of the stream: an event, or an error or idle timeout, which ends it. */
  datatype Item = Ev(event: Event) | Failed(error: string)

  /** A tool result on record. A missing call id is replaced by a fresh one: None here. */
  datatype Evidence = Evidence(callId: Option<string>, tool: string, args: string, result: Json, allowed: bool)

  datatype Turn = Assistant(text: string) | Function(result: Json)

  datatype Outcome<+T> = Done(value: T) | Error(error: string)

  /** An error or denial: an object whose only key is `error`. */
  predicate IsDenial(response: Json) {
    response.Object? && |response.fields| == 1 && "error" in response.fields
  }

  // ---- Reading one event ----

  function Concat(parts: seq<Part>): string {
    if parts == [] then "" else Concat(parts[..|parts| - 1]) + TextOf(parts[|parts| - 1])
  }

  function TextOf(p: Part): string {
    if p.Text? then p.text else ""
  }

  predicate HasCalls(parts: seq<Part>) {
    parts != [] && (parts[|parts| - 1].Call? || HasCalls(parts[..|parts| - 1]))
  }

  predicate HasResponses(parts: seq<Part>) {
    parts != [] && (parts[|parts| - 1].Response? || HasResponses(parts[..|parts| - 1]))
  }

  /** A complete turn that calls a tool or carries a tool's result. */
  predicate Boundary(e: Event) {
    e.parts.Some? && !e.partial && (HasCalls(e.parts.value) || HasResponses(e.parts.value))
  }

  /** A complete turn of nothing but non-empty text. */
  predicate PureText(e: Event) {
    e.parts.Some? && !e.partial && !Boundary(e) && Concat(e.parts.value) != ""
  }

  function Delta(e: Event): string {
    if e.parts.Some? && e.partial then Concat(e.parts.value) else ""
  }

  // ---- What the answer should be, said about the whole stream ----

  /** The events after the last boundary. */
  function LastRound(es: seq<Event>): seq<Event> {
    if es == [] then []
    else if Boundary(es[|es| - 1]) then []
    else LastRound(es[..|es| - 1]) + [es[|es| - 1]]
  }

  /** The last pure-text turn, or "" when there is none. */
  function LastPureText(es: seq<Event>): string {
    if es == [] then ""
    else if PureText(es[|es| - 1]) then Concat(es[|es| - 1].parts.value)
    else LastPureText(es[..|es| - 1])
  }

  /** All streamed deltas, in order. */
  function Deltas(es: seq<Event>): string {
    if es == [] then "" else Deltas(es[..|es| - 1]) + Delta(es[|es| - 1])
  }

  /** The last pure-text turn of the last round, else that round's deltas. */
  function Answer(es: seq<Event>): string {
    var round := LastRound(es);
    if LastPureText(round) != "" then LastPureText(round) else Deltas(round)
  }

  /** All parts of complete events, in order. */
  function CompleteParts(es: seq<Event>): seq<Part> {
    if es == [] then []
    else
      var e := es[|es| - 1];
      CompleteParts(es[..|es| - 1]) + PartsRead(e)
  }

  function PartsRead(e: Event): seq<Part> {
    if e.parts.Some? && !e.partial then e.parts.value else []
  }

  /** Arguments for a response with id `id` after `before`: those of the nearest earlier
      part that names the id, if that is a call; a response in between used them up. */
  function ArgsFor(before: seq<Part>, id: string): string {
    if before == [] then ""
    else
      var p := before[|before| - 1];
      if p.Call? && p.callId == Some(id) then p.args
      else if p.Response? && p.responseId == Some(id) then ""
      else ArgsFor(before[..|before| - 1], id)
  }

  function EvidenceFor(before: seq<Part>, p: Part): Evidence
    requires p.Response?
  {
    Evidence(p.responseId, p.tool, if p.responseId.Some? then ArgsFor(before, p.responseId.value) else "",
             p.response, !IsDenial(p.response))
  }

  /** One record per response, in order. */
  function EvidenceOf(parts: seq<Part>): seq<Evidence> {
    if parts == [] then []
    else
      var before, p := parts[..|parts| - 1], parts[|parts| - 1];
      if p.Response? then EvidenceOf(before) + [EvidenceFor(before, p)] else EvidenceOf(before)
  }

  // ---- The first fold: run_with_events ----

  /** The pending map agrees with looking back through the parts. */
  ghost predicate PendingIs(pending: map<string, (string, string)>, parts: seq<Part>) {
    forall id :: ArgsFor(parts, id) == if id in pending then pending[id].1 else ""
  }

  lemma PendingStep(pending: map<string, (string, string)>, parts: seq<Part>, p: Part)
    requires PendingIs(pending, parts)
    ensures p.Call? && p.callId.Some? ==> PendingIs(pending[p.callId.value := (p.name, p.args)], parts + [p])
    ensures p.Response? && p.responseId.Some? ==> PendingIs(pending - {p.responseId.value}, parts + [p])
    ensures (p.Call? && p.callId.None?) || (p.Response? && p.responseId.None?) || p.Text? || p.Media? ==>
      PendingIs(pending, parts + [p])
  {
    assert (parts + [p])[..|parts|] == parts;
  }

  /** The results a turn hands back, as transcript rows. */
  function ResultTurns(parts: seq<Part>): seq<Turn> {
    if parts == [] then []
    else
      var before, p := ResultTurns(parts[..|parts| - 1]), parts[|parts| - 1];
      if p.Response? then before + [Function(p.response)] else before
  }

  /** The rows a run adds to the transcript before the fallback. */
  function TurnsOf(es: seq<Event>): seq<Turn> {
    if es == [] then []
    else
      var e := es[|es| - 1];
      TurnsOf(es[..|es| - 1]) + TurnRows(e)
  }

  function TurnRows(e: Event): seq<Turn> {
    if PureText(e) then [Assistant(Concat(e.parts.value))]
    else if e.parts.Some? && !e.partial then ResultTurns(e.parts.value)
    else []
  }

  /** The row the fallback adds when the answer was only streamed. */
  function FallbackTurn(es: seq<Event>): seq<Turn> {
    if LastPureText(LastRound(es)) == "" && Answer(es) != "" then [Assistant(Answer(es))] else []
  }

  /** One complete turn's calls and responses, part by part. */
  method ReadParts(parts: seq<Part>, pending: map<string, (string, string)>, evidence: seq<Evidence>, turns: seq<Turn>,
                   ghost seen: seq<Part>)
      returns (pending': map<string, (string, string)>, evidence': seq<Evidence>, turns': seq<Turn>)
    requires PendingIs(pending, seen) && evidence == EvidenceOf(seen)
    ensures PendingIs(pending', seen + parts) && evidence' == EvidenceOf(seen + parts)
    ensures turns' == turns + ResultTurns(parts)
  {
    pending', evidence', turns' := pending, evidence, turns;
    assert seen + parts[..0] == seen;
    for i := 0 to |parts|
      invariant PendingIs(pending', seen + parts[..i])
      invariant evidence' == EvidenceOf(seen + parts[..i])
      invariant turns' == turns + ResultTurns(parts[..i])
    {
      var p := parts[i];
      ghost var before := seen + parts[..i];
      assert seen + parts[..i + 1] == before + [p];
      assert (before + [p])[..|before|] == before;
      assert parts[..i + 1][..i] == parts[..i];
      PendingStep(pending', before, p);
      match p
      case Call(name, args, id) =>
        if id.Some? {
          pending' := pending'[id.value := (name, args)];
        }
      case Response(tool, response, id) =>
        var args := "";
        if id.Some? {
          if id.value in pending' {
            args := pending'[id.value].1;
          }
          pending' := pending' - {id.value};
        }
        evidence' := evidence' + [Evidence(id, tool, args, response, !IsDenial(response))];
        turns' := turns' + [Function(response)];
      case Text(_) =>
      case Media =>
    }
    assert parts[..|parts|] == parts;
  }

  /** The events of a stream up to its first failure. */
  function EventsUntilFailure(items: seq<Item>): seq<Event> {
    if items == [] || items[0].Failed? then [] else [items[0].event] + EventsUntilFailure(items[1..])
  }

  function FirstFailure(items: seq<Item>): Option<string> {
    if items == [] then None
    else if items[0].Failed? then Some(items[0].error)
    else FirstFailure(items[1..])
  }

  lemma AnswerStep(es: seq<Event>, e: Event)
    ensures Boundary(e) ==> LastRound(es + [e]) == []
    ensures !Boundary(e) ==> LastRound(es + [e]) == LastRound(es) + [e]
    ensures !Boundary(e) ==> Deltas(LastRound(es + [e])) == Deltas(LastRound(es)) + Delta(e)
    ensures !Boundary(e) ==>
      LastPureText(LastRound(es + [e])) == if PureText(e) then Concat(e.parts.value) else LastPureText(LastRound(es))
    ensures LastPureText(es + [e]) == if PureText(e) then Concat(e.parts.value) else LastPureText(es)
  {
    assert (es + [e])[..|es|] == es;
    assert (LastRound(es) + [e])[..|LastRound(es)|] == LastRound(es);
  }

  lemma RecordStep(es: seq<Event>, e: Event)
    ensures CompleteParts(es + [e]) == CompleteParts(es) + PartsRead(e)
    ensures TurnsOf(es + [e]) == TurnsOf(es) + TurnRows(e)
  {
    assert (es + [e])[..|es|] == es;
  }

  /** What one event does to the candidate answer and the streamed text. */
  method ReadText(e: Event, answer: string, streamed: string, ghost es: seq<Event>)
      returns (answer': string, streamed': string)
    requires answer == LastPureText(LastRound(es)) && (answer == "" ==> streamed == Deltas(LastRound(es)))
    ensures answer' == LastPureText(LastRound(es + [e]))
    ensures answer' == "" ==> streamed' == Deltas(LastRound(es + [e]))
  {
    AnswerStep(es, e);
    answer', streamed' := answer, streamed;
    if e.parts.Some? {
      var text := Concat(e.parts.value);
      if e.partial {
        streamed' := streamed + text;
      } else if HasCalls(e.parts.value) || HasResponses(e.parts.value) {
        answer', streamed' := "", "";
      } else if text != "" {
        answer', streamed' := text, "";
      }
    }
  }

  /** What one event adds to the evidence and the transcript. */
  method ReadRecords(e: Event, pending: map<string, (string, string)>, evidence: seq<Evidence>, turns: seq<Turn>,
                     ghost es: seq<Event>)
      returns (pending': map<string, (string, string)>, evidence': seq<Evidence>, turns': seq<Turn>)
    requires PendingIs(pending, CompleteParts(es)) && evidence == EvidenceOf(CompleteParts(es)) && turns == TurnsOf(es)
    ensures PendingIs(pending', CompleteParts(es + [e]))
    ensures evidence' == EvidenceOf(CompleteParts(es + [e])) && turns' == TurnsOf(es + [e])
  {
    RecordStep(es, e);
    pending', evidence', turns' := pending, evidence, turns;
    if e.parts.Some? && !e.partial {
      if PureText(e) {
        turns' := turns' + [Assistant(Concat(e.parts.value))];
        PureHasNoResults(e.parts.value);
      }
      pending', evidence', turns' := ReadParts(e.parts.value, pending', evidence', turns', CompleteParts(es));
    } else {
      assert CompleteParts(es) + [] == CompleteParts(es);
    }
  }

  lemma UntilFailureStep(items: seq<Item>, k: nat, es: seq<Event>)
    requires k < |items| && EventsUntilFailure(items) == es + EventsUntilFailure(items[k..])
    ensures items[k].Failed? ==> FirstFailure(items[k..]) == Some(items[k].error)
    ensures items[k].Ev? ==> FirstFailure(items[k..]) == FirstFailure(items[k + 1..])
    ensures items[k].Ev? ==> EventsUntilFailure(items) == es + [items[k].event] + EventsUntilFailure(items[k + 1..])
  {
    var rest := items[k..];
    assert rest[0] == items[k] && rest[1..] == items[k + 1..];
    if items[k].Ev? {
      Associate(es, [items[k].event], EventsUntilFailure(rest[1..]));
    }
  }

  lemma Associate<T>(a: seq<T>, b: seq<T>, c: seq<T>)
    ensures a + (b + c) == a + b + c
  {
  }

  /** The fold that drives the TUI: answer, evidence and transcript of one run. */
  method RunWithEvents(items: seq<Item>) returns (r: Outcome<(string, seq<Evidence>, seq<Turn>)>)
    ensures FirstFailure(items).Some? ==> r == Error(FirstFailure(items).value)
    ensures FirstFailure(items).None? ==>
      var es := EventsUntilFailure(items);
      r == Done((Answer(es), EvidenceOf(CompleteParts(es)), TurnsOf(es) + FallbackTurn(es)))
  {
    var answer, streamed := "", "";
    var pending: map<string, (string, string)> := map[];
    var evidence: seq<Evidence> := [];
    var transcript: seq<Turn> := [];
    var k := 0;
    ghost var es: seq<Event> := [];
    while k < |items|
      invariant 0 <= k <= |items|
      invariant FirstFailure(items) == FirstFailure(items[k..])
      invariant EventsUntilFailure(items) == es + EventsUntilFailure(items[k..])
      invariant answer == LastPureText(LastRound(es))
      invariant answer == "" ==> streamed == Deltas(LastRound(es))
      invariant PendingIs(pending, CompleteParts(es))
      invariant evidence == EvidenceOf(CompleteParts(es)) && transcript == TurnsOf(es)
    {
      UntilFailureStep(items, k, es);
      if items[k].Failed? {
        return Error(items[k].error);
      }
      var e := items[k].event;
      answer, streamed := ReadText(e, answer, streamed, es);
      pending, evidence, transcript := ReadRecords(e, pending, evidence, transcript, es);
      es := es + [e];
      k := k + 1;
    }
    assert EventsUntilFailure(items) == es;
    assert TurnsOf(es) + [] == TurnsOf(es);
    if answer == "" && streamed != "" {
      answer := streamed;
      transcript := transcript + [Assistant(streamed)];
    }
    return Done((answer, evidence, transcript));
  }

  lemma {:induction false} PureHasNoResults(parts: seq<Part>)
    requires !HasResponses(parts)
    ensures ResultTurns(parts) == []
  {
    if parts != [] {
      PureHasNoResults(parts[..|parts| - 1]);
    }
  }

  // ---- The second fold: run_to_text ----

  /** What run_to_text returns: it never forgets a pure-text turn. */
  function PlainAnswer(es: seq<Event>): string {
    if LastPureText(es) != "" then LastPureText(es) else Deltas(LastRound(es))
  }

  /** What one event does to the text and the streamed text. */
  method ReadPlain(e: Event, text: string, streamed: string, ghost es: seq<Event>)
      returns (text': string, streamed': string)
    requires text == LastPureText(es) && (text == "" ==> streamed == Deltas(LastRound(es)))
    ensures text' == LastPureText(es + [e])
    ensures text' == "" ==> streamed' == Deltas(LastRound(es + [e]))
  {
    AnswerStep(es, e);
    text', streamed' := text, streamed;
    if e.parts.Some? {
      var joined := Concat(e.parts.value);
      if e.partial {
        streamed' := streamed + joined;
      } else if HasCalls(e.parts.value) || HasResponses(e.parts.value) {
        streamed' := "";
      } else if joined != "" {
        text', streamed' := joined, "";
      }
    }
  }

  method RunToText(items: seq<Item>) returns (r: Outcome<string>)
    ensures FirstFailure(items).Some? ==> r == Error(FirstFailure(items).value)
    ensures FirstFailure(items).None? ==> r == Done(PlainAnswer(EventsUntilFailure(items)))
  {
    var text, streamed := "", "";
    var k := 0;
    ghost var es: seq<Event> := [];
    while k < |items|
      invariant 0 <= k <= |items|
      invariant FirstFailure(items) == FirstFailure(items[k..])
      invariant EventsUntilFailure(items) == es + EventsUntilFailure(items[k..])
      invariant text == LastPureText(es)
      invariant text == "" ==> streamed == Deltas(LastRound(es))
    {
      UntilFailureStep(items, k, es);
      if items[k].Failed? {
        return Error(items[k].error);
      }
      text, streamed := ReadPlain(items[k].event, text, streamed, es);
      es := es + [items[k].event];
      k := k + 1;
    }
    assert EventsUntilFailure(items) == es;
    return Done(if text == "" && streamed != "" then streamed else text);
  }

  // ---- What the readings mean ----

  /** The text of a turn is its text parts, in order; every other part adds nothing. */
  lemma {:induction false} ConcatInOrder(a: seq<Part>, b: seq<Part>)
    ensures Concat(a + b) == Concat(a) + Concat(b)
    ensures forall p: Part :: Concat([p]) == if p.Text? then p.text else ""
  {
    assert forall p: Part :: [p][..0] == [];
    if b == [] {
      assert a + b == a;
    } else {
      var n := |b| - 1;
      ConcatInOrder(a, b[..n]);
      assert (a + b)[..|a + b| - 1] == a + b[..n];
      Associate(Concat(a), Concat(b[..n]), TextOf(b[n]));
    }
  }

  lemma {:induction false} CallsAndResponses(parts: seq<Part>)
    ensures HasCalls(parts) <==> exists i :: 0 <= i < |parts| && parts[i].Call?
    ensures HasResponses(parts) <==> exists i :: 0 <= i < |parts| && parts[i].Response?
  {
    if parts != [] {
      var n := |parts| - 1;
      CallsAndResponses(parts[..n]);
      assert forall i :: 0 <= i < n ==> parts[..n][i] == parts[i];
    }
  }

  /** A boundary is a complete turn with a call or a response in it; a pure-text turn is
      a complete one with text and neither; a denial has `error` as its one key. */
  lemma TurnKinds(e: Event, j: Json)
    ensures Boundary(e) <==>
      e.parts.Some? && !e.partial && exists i :: 0 <= i < |e.parts.value| && (e.parts.value[i].Call? || e.parts.value[i].Response?)
    ensures PureText(e) <==>
      e.parts.Some? && !e.partial && Concat(e.parts.value) != "" &&
      forall i :: 0 <= i < |e.parts.value| ==> !e.parts.value[i].Call? && !e.parts.value[i].Response?
    ensures IsDenial(j) <==> j.Object? && j.fields.Keys == {"error"}
  {
    if e.parts.Some? {
      CallsAndResponses(e.parts.value);
    }
    if j.Object? {
      DenialKeys(j.fields);
    }
  }

  lemma DenialKeys(fields: map<string, string>)
    ensures |fields| == 1 && "error" in fields <==> fields.Keys == {"error"}
  {
    if |fields| == 1 && "error" in fields {
      var others := fields.Keys - {"error"};
      assert fields.Keys == others + {"error"};
      assert |others| == 0;
    }
  }

  /** Deltas add up in order, and only a partial event has any. */
  lemma {:induction false} DeltasInOrder(a: seq<Event>, b: seq<Event>)
    ensures Deltas(a + b) == Deltas(a) + Deltas(b)
    ensures forall e: Event :: Deltas([e]) == if e.parts.Some? && e.partial then Concat(e.parts.value) else ""
  {
    assert forall e: Event :: [e][..0] == [];
    if b == [] {
      assert a + b == a;
    } else {
      var n := |b| - 1;
      DeltasInOrder(a, b[..n]);
      assert (a + b)[..|a + b| - 1] == a + b[..n];
      Associate(Deltas(a), Deltas(b[..n]), Delta(b[n]));
    }
  }

  /** The events are those before the first failure, all of them if there is none, and
      that failure is the one reported. */
  lemma {:induction false} StreamEndsAtFailure(items: seq<Item>)
    ensures
      var es := EventsUntilFailure(items);
      && |es| <= |items|
      && (forall i :: 0 <= i < |es| ==> items[i] == Ev(es[i]))
      && (|es| < |items| ==> items[|es|].Failed?)
      && FirstFailure(items) == if |es| < |items| then Some(items[|es|].error) else None
  {
    if items != [] && items[0].Ev? {
      StreamEndsAtFailure(items[1..]);
    }
  }

  function Responses(parts: seq<Part>): nat {
    if parts == [] then 0 else Responses(parts[..|parts| - 1]) + if parts[|parts| - 1].Response? then 1 else 0
  }

  /** One record per response, in order, with that response's id, tool and result, the
      arguments of its call, and disallowed exactly for a bare `error` object. */
  lemma {:induction false} EvidenceAt(parts: seq<Part>, i: nat)
    requires i < |parts| && parts[i].Response?
    ensures |EvidenceOf(parts)| == Responses(parts) > Responses(parts[..i])
    ensures
      var p, r := parts[i], EvidenceOf(parts)[Responses(parts[..i])];
      && r.callId == p.responseId && r.tool == p.tool && r.result == p.response
      && r.args == (if p.responseId.Some? then ArgsFor(parts[..i], p.responseId.value) else "")
      && (!r.allowed <==> p.response.Object? && p.response.fields.Keys == {"error"})
  {
    var n := |parts| - 1;
    EvidenceCount(parts[..n]);
    if i < n {
      EvidenceAt(parts[..n], i);
      assert parts[..n][..i] == parts[..i];
    } else {
      TurnKinds(Event(None, false), parts[n].response);
    }
  }

  lemma {:induction false} EvidenceCount(parts: seq<Part>)
    ensures |EvidenceOf(parts)| == Responses(parts)
  {
    if parts != [] {
      EvidenceCount(parts[..|parts| - 1]);
    }
  }

  /** The parts read are those of the complete events, in order. */
  lemma {:induction false} PartsInOrder(a: seq<Event>, b: seq<Event>)
    ensures CompleteParts(a + b) == CompleteParts(a) + CompleteParts(b)
    ensures forall e: Event :: CompleteParts([e]) == if e.parts.Some? && !e.partial then e.parts.value else []
  {
    assert forall e: Event :: [e][..0] == [];
    if b == [] {
      assert a + b == a;
    } else {
      var n := |b| - 1;
      PartsInOrder(a, b[..n]);
      assert (a + b)[..|a + b| - 1] == a + b[..n];
      Associate(CompleteParts(a), CompleteParts(b[..n]), PartsRead(b[n]));
    }
  }

  /** The texts of the assistant's rows, and of a stream's pure-text turns. */
  function Said(turns: seq<Turn>): seq<string> {
    if turns == [] then []
    else
      var before, last := Said(turns[..|turns| - 1]), turns[|turns| - 1];
      if last.Assistant? then before + [last.text] else before
  }

  function Spoken(es: seq<Event>): seq<string> {
    if es == [] then []
    else
      var before, e := Spoken(es[..|es| - 1]), es[|es| - 1];
      if PureText(e) then before + [Concat(e.parts.value)] else before
  }

  lemma {:induction false} SaidConcat(a: seq<Turn>, b: seq<Turn>)
    ensures Said(a + b) == Said(a) + Said(b)
  {
    if b == [] {
      assert a + b == a;
    } else {
      SaidConcat(a, b[..|b| - 1]);
      assert (a + b)[..|a + b| - 1] == a + b[..|b| - 1];
    }
  }

  lemma {:induction false} ResultsSayNothing(parts: seq<Part>)
    ensures Said(ResultTurns(parts)) == []
  {
    if parts != [] {
      var before, p := ResultTurns(parts[..|parts| - 1]), parts[|parts| - 1];
      ResultsSayNothing(parts[..|parts| - 1]);
      if p.Response? {
        SaidConcat(before, [Function(p.response)]);
      }
    }
  }

  /** The assistant's rows are the pure-text turns, in order. */
  lemma {:induction false} SaidIsSpoken(es: seq<Event>)
    ensures Said(TurnsOf(es)) == Spoken(es)
  {
    if es != [] {
      var n := |es| - 1;
      SaidIsSpoken(es[..n]);
      SaidConcat(TurnsOf(es[..n]), TurnRows(es[n]));
      if PureText(es[n]) {
        assert TurnRows(es[n])[..0] == [];
      } else if es[n].parts.Some? {
        ResultsSayNothing(es[n].parts.value);
      }
    }
  }

  lemma {:induction false} LastSpoken(es: seq<Event>)
    ensures LastPureText(es) != "" ==> LastPureText(es) in Spoken(es)
  {
    if es != [] {
      LastSpoken(es[..|es| - 1]);
    }
  }

  /** The answer is always on record, and nothing else is added to the rows. */
  lemma AnswerIsOnRecord(es: seq<Event>)
    ensures Answer(es) != "" ==> Answer(es) in Said(TurnsOf(es) + FallbackTurn(es))
    ensures Said(TurnsOf(es) + FallbackTurn(es)) ==
      Spoken(es) + if Answer(es) != "" && LastPureText(LastRound(es)) == "" then [Answer(es)] else []
  {
    SaidIsSpoken(es);
    SaidConcat(TurnsOf(es), FallbackTurn(es));
    RoundTextIsLastText(es);
    LastSpoken(es);
    assert FallbackTurn(es) != [] ==> FallbackTurn(es)[..0] == [];
  }

  // ---- Main results ----

  lemma {:induction false} NoPureTextMeansNone(es: seq<Event>)
    ensures LastPureText(es) == "" <==> forall i :: 0 <= i < |es| ==> !PureText(es[i])
  {
    if es != [] {
      var before := es[..|es| - 1];
      NoPureTextMeansNone(before);
      assert forall i :: 0 <= i < |before| ==> before[i] == es[i];
    }
  }

  lemma Snoc(es: seq<Event>)
    requires es != []
    ensures es == es[..|es| - 1] + [es[|es| - 1]]
  {
  }

  lemma RoundTextStep(es: seq<Event>, e: Event)
    requires LastPureText(LastRound(es)) != "" ==> LastPureText(es) == LastPureText(LastRound(es))
    ensures LastPureText(LastRound(es + [e])) != "" ==> LastPureText(es + [e]) == LastPureText(LastRound(es + [e]))
  {
    AnswerStep(es, e);
  }

  /** The last round's last pure text is the stream's last pure text, if it has one. */
  lemma {:induction false} RoundTextIsLastText(es: seq<Event>)
    ensures LastPureText(LastRound(es)) != "" ==> LastPureText(es) == LastPureText(LastRound(es))
  {
    if es != [] {
      RoundTextIsLastText(es[..|es| - 1]);
      RoundTextStep(es[..|es| - 1], es[|es| - 1]);
      Snoc(es);
    }
  }

  /** The two folds give the same text exactly when the last pure-text turn comes after
      the last call/result turn, or there is none at all, or it happens to read like the
      text streamed after that turn. */
  lemma FoldsAgreeIff(es: seq<Event>)
    ensures PlainAnswer(es) == Answer(es) <==>
      LastPureText(LastRound(es)) != "" || LastPureText(es) == "" || LastPureText(es) == Deltas(LastRound(es))
  {
    RoundTextIsLastText(es);
  }

  /** run_to_text returns the last pure-text turn of the whole stream, and without any what
      was streamed since the last call/result turn (before `from`). */
  lemma PlainAnswerExact(es: seq<Event>, i: nat, from: nat)
    requires from <= |es| && (from == 0 || Boundary(es[from - 1]))
    requires forall j :: from <= j < |es| ==> !Boundary(es[j])
    ensures i < |es| && PureText(es[i]) && (forall j :: i < j < |es| ==> !PureText(es[j])) ==>
      PlainAnswer(es) == Concat(es[i].parts.value)
    ensures (forall j :: 0 <= j < |es| ==> !PureText(es[j])) ==> PlainAnswer(es) == Deltas(es[from..])
  {
    NoPureTextMeansNone(es);
    RoundAfterBoundary(es, from);
    if i < |es| && PureText(es[i]) && forall j :: i < j < |es| ==> !PureText(es[j]) {
      LastPureIsThere(es, i);
    }
  }

  lemma {:induction false} LastPureIsThere(es: seq<Event>, i: nat)
    requires i < |es| && PureText(es[i]) && forall j :: i < j < |es| ==> !PureText(es[j])
    ensures LastPureText(es) == Concat(es[i].parts.value) != ""
  {
    if i < |es| - 1 {
      LastPureIsThere(es[..|es| - 1], i);
    }
  }

  /** Whatever came before: text spoken just before a call turn is what run_to_text
      returns, and run_with_events returns nothing. */
  lemma SpokenThenCalled(es: seq<Event>, spoken: Event, call: Event)
    requires PureText(spoken) && Boundary(call)
    ensures PlainAnswer(es + [spoken] + [call]) == Concat(spoken.parts.value) != ""
    ensures Answer(es + [spoken] + [call]) == ""
  {
    AnswerStep(es, spoken);
    AnswerStep(es + [spoken], call);
  }

  /** There are such turns, for every text and every call. */
  lemma SuchTurnsExist(text: string, name: string, args: string)
    requires text != ""
    ensures PureText(Event(Some([Text(text)]), false)) && Concat([Text(text)]) == text
    ensures Boundary(Event(Some([Call(name, args, None)]), false))
  {
    var parts := [Text(text)];
    assert parts[..0] == [];
    assert Concat(parts) == Concat([]) + text == text;
    assert !HasCalls(parts[..0]) && !HasResponses(parts[..0]);
    assert !HasCalls(parts) && !HasResponses(parts);
  }

  /** A pure-text turn with no later pure-text, call or result turn is the answer. */
  lemma {:induction false} LastTextIsAnswer(es: seq<Event>, i: nat)
    requires i < |es| && PureText(es[i])
    requires forall j :: i < j < |es| ==> !PureText(es[j]) && !Boundary(es[j])
    ensures Answer(es) == Concat(es[i].parts.value) != ""
    ensures LastPureText(LastRound(es)) == Concat(es[i].parts.value)
  {
    var n := |es| - 1;
    AnswerStep(es[..n], es[n]);
    assert es[..n] + [es[n]] == es;
    if i < n {
      LastTextIsAnswer(es[..n], i);
    }
  }

  lemma {:induction false} RoundAfterBoundary(es: seq<Event>, from: nat)
    requires from <= |es| && (from == 0 || Boundary(es[from - 1]))
    requires forall j :: from <= j < |es| ==> !Boundary(es[j])
    ensures LastRound(es) == es[from..]
  {
    if from < |es| {
      var n := |es| - 1;
      RoundAfterBoundary(es[..n], from);
      assert es[from..] == es[..n][from..] + [es[n]];
    }
  }

  /** With no pure-text turn after the last call/result turn (before `from`), the answer
      is what was streamed since, and text streamed or spoken earlier never returns. */
  lemma StreamIsAnswer(es: seq<Event>, from: nat)
    requires from <= |es| && (from == 0 || Boundary(es[from - 1]))
    requires forall j :: from <= j < |es| ==> !PureText(es[j]) && !Boundary(es[j])
    ensures Answer(es) == Deltas(es[from..])
  {
    RoundAfterBoundary(es, from);
    NoPureTextMeansNone(es[from..]);
  }

  function ResultsIn(turns: seq<Turn>): seq<Json> {
    if turns == [] then []
    else
      var before, last := ResultsIn(turns[..|turns| - 1]), turns[|turns| - 1];
      if last.Function? then before + [last.result] else before
  }

  function ResultsOf(evidence: seq<Evidence>): seq<Json> {
    seq(|evidence|, i requires 0 <= i < |evidence| => evidence[i].result)
  }

  lemma {:induction false} ResultsInConcat(a: seq<Turn>, b: seq<Turn>)
    ensures ResultsIn(a + b) == ResultsIn(a) + ResultsIn(b)
  {
    if b == [] {
      assert a + b == a;
    } else {
      ResultsInConcat(a, b[..|b| - 1]);
      assert (a + b)[..|a + b| - 1] == a + b[..|b| - 1];
    }
  }

  lemma ResultsOfAppend(evidence: seq<Evidence>, e: Evidence)
    ensures ResultsOf(evidence + [e]) == ResultsOf(evidence) + [e.result]
  {
  }

  lemma {:induction false} EvidenceConcat(seen: seq<Part>, parts: seq<Part>)
    ensures ResultsOf(EvidenceOf(seen + parts)) == ResultsOf(EvidenceOf(seen)) + ResultsIn(ResultTurns(parts))
  {
    if parts == [] {
      assert seen + parts == seen;
    } else {
      var init, p := parts[..|parts| - 1], parts[|parts| - 1];
      EvidenceConcat(seen, init);
      EvidenceStep(seen + init, p);
      ResultTurnsStep(init, p);
      assert parts == init + [p];
      Associate(seen, init, [p]);
      if p.Response? {
        Associate(ResultsOf(EvidenceOf(seen)), ResultsIn(ResultTurns(init)), [p.response]);
      }
    }
  }

  lemma EvidenceStep(before: seq<Part>, p: Part)
    ensures p.Response? ==> ResultsOf(EvidenceOf(before + [p])) == ResultsOf(EvidenceOf(before)) + [p.response]
    ensures !p.Response? ==> EvidenceOf(before + [p]) == EvidenceOf(before)
  {
    assert (before + [p])[..|before|] == before;
    if p.Response? {
      ResultsOfAppend(EvidenceOf(before), EvidenceFor(before, p));
    }
  }

  lemma ResultTurnsStep(parts: seq<Part>, p: Part)
    ensures p.Response? ==> ResultsIn(ResultTurns(parts + [p])) == ResultsIn(ResultTurns(parts)) + [p.response]
    ensures !p.Response? ==> ResultTurns(parts + [p]) == ResultTurns(parts)
  {
    assert (parts + [p])[..|parts|] == parts;
    if p.Response? {
      ResultsInConcat(ResultTurns(parts), [Function(p.response)]);
    }
  }

  /** The two memories of a run agree: the transcript's function rows are the evidence's
      results, in order. */
  lemma {:induction false} TranscriptMatchesEvidence(es: seq<Event>)
    ensures ResultsIn(TurnsOf(es)) == ResultsOf(EvidenceOf(CompleteParts(es)))
  {
    if es != [] {
      var n := |es| - 1;
      var e, seen := es[n], CompleteParts(es[..n]);
      TranscriptMatchesEvidence(es[..n]);
      ResultsInConcat(TurnsOf(es[..n]), TurnRows(e));
      if e.parts.Some? && !e.partial {
        EvidenceConcat(seen, e.parts.value);
        if PureText(e) {
          PureHasNoResults(e.parts.value);
        }
      } else {
        assert seen + [] == seen;
      }
    }
  }

  /** A response gets the arguments of call `i` when no part in between names its id. */
  lemma {:induction false} ArgsOfNearestCall(before: seq<Part>, id: string, i: nat)
    requires i < |before| && before[i].Call? && before[i].callId == Some(id)
    requires forall j :: i < j < |before| ==> !Names(before[j], id)
    ensures ArgsFor(before, id) == before[i].args
  {
    if i < |before| - 1 {
      assert !Names(before[|before| - 1], id);
      ArgsOfNearestCall(before[..|before| - 1], id, i);
    }
  }

  predicate Names(p: Part, id: string) {
    (p.Call? && p.callId == Some(id)) || (p.Response? && p.responseId == Some(id))
  }

  /** A response to a call already answered, or never made, gets no arguments. */
  lemma {:induction false} NoArgsWithoutCall(before: seq<Part>, id: string, from: nat)
    requires from <= |before|
    requires from == 0 || (before[from - 1].Response? && before[from - 1].responseId == Some(id))
    requires forall j :: from <= j < |before| ==> !Names(before[j], id)
    ensures ArgsFor(before, id) == ""
  {
    if before != [] && from < |before| {
      assert !Names(before[|before| - 1], id);
      NoArgsWithoutCall(before[..|before| - 1], id, from);
    }
  }
}
