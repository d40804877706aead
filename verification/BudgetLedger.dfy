/** The persistent daily request meter and the pulse that spends from it. */
module BudgetLedger {
  import opened Wrappers
  import CivilDate

  const LIMIT := 0x1_0000_0000
  type U32 = n: int | 0 <= n < LIMIT

  /** Release-build `u32` addition: it wraps. */
  function Add32(a: U32, b: U32): U32 {
    if a + b < LIMIT then a + b else a + b - LIMIT
  }

  datatype LedgerState = LedgerState(date: string, counts: map<string, U32>)

  type Caps = map<string, U32>

  /** The ledger as of `today`: another day's counts, or an unreadable file, start afresh. */
  function Load(file: Option<LedgerState>, today: string): LedgerState {
    if file.Some? && file.value.date == today then file.value else LedgerState(today, map[])
  }

  function Used(s: LedgerState, source: string): U32 {
    if source in s.counts then s.counts[source] else 0
  }

  /** How writing the file ends; a failure is only logged. `Kept`: it was not opened.
      `Cut`: opening emptied it and the write stopped short, so it no longer parses. */
  datatype Write = Saved | Kept | Cut

  /** One call of `try_spend`: the UTC date it reads off the clock, what it asks for,
      and how the write of the file ends. */
  datatype Spend = Spend(today: string, source: string, n: U32, write: Write)

  /** The file after a write of `state`. */
  function Written(file: Option<LedgerState>, state: LedgerState, write: Write): Option<LedgerState> {
    match write
    case Saved => Some(state)
    case Kept => file
    case Cut => None
  }

  function SpendOnce(caps: Caps, file: Option<LedgerState>, e: Spend): (Option<LedgerState>, bool) {
    if e.source !in caps then (file, false)
    else
      var state := Load(file, e.today);
      var total := Add32(Used(state, e.source), e.n);
      if total > caps[e.source] then (file, false)
      else (Written(file, state.(counts := state.counts[e.source := total]), e.write), true)
  }

  class Ledger {
    const caps: Caps
    var file: Option<LedgerState>

    constructor (caps: Caps, file: Option<LedgerState>)
      ensures this.caps == caps && this.file == file
    {
      this.caps := caps;
      this.file := file;
    }

    method TrySpend(e: Spend) returns (ok: bool)
      modifies this
      ensures (file, ok) == SpendOnce(caps, old(file), e)
    {
      if e.source !in caps {
        return false;
      }
      var state := Load(file, e.today);
      var used := if e.source in state.counts then state.counts[e.source] else 0;
      if Add32(used, e.n) > caps[e.source] {
        return false;
      }
      state := state.(counts := state.counts[e.source := Add32(used, e.n)]);
      match e.write {
        case Saved => file := Some(state);
        case Kept =>
        case Cut => file := None;
      }
      return true;
    }
  }

  // ---- Runs of spends ----

  function Run(caps: Caps, file: Option<LedgerState>, events: seq<Spend>): Option<LedgerState> {
    if events == [] then file
    else SpendOnce(caps, Run(caps, file, events[..|events| - 1]), events[|events| - 1]).0
  }

  /** Whether the last call of a run was granted. */
  predicate Granted(caps: Caps, file: Option<LedgerState>, events: seq<Spend>)
    requires events != []
  {
    SpendOnce(caps, Run(caps, file, events[..|events| - 1]), events[|events| - 1]).1
  }

  /** Requests granted to `source` on the UTC date `date`; with `savedOnly`, those whose
      write succeeded. */
  function Accepted(caps: Caps, file: Option<LedgerState>, events: seq<Spend>, date: string, source: string, savedOnly: bool): nat {
    if events == [] then 0
    else
      var e := events[|events| - 1];
      Accepted(caps, file, events[..|events| - 1], date, source, savedOnly)
      + (if Granted(caps, file, events) && e.today == date && e.source == source && (e.write.Saved? || !savedOnly) then e.n else 0)
  }

  /** What the file says was spent by `source` on `date`. */
  function Recorded(file: Option<LedgerState>, date: string, source: string): U32 {
    Used(Load(file, date), source)
  }

  function Cap(caps: Caps, source: string): U32 {
    if source in caps then caps[source] else 0
  }

  /** Once a run has left `date`, it does not come back to it. */
  ghost predicate NotYetLeft(events: seq<Spend>, date: string) {
    forall i, j :: 0 <= i < j < |events| && events[i].today == date ==> events[j].today == date
  }

  /** The dates of a run follow a calendar: none is ever returned to. */
  ghost predicate DatesForward(events: seq<Spend>) {
    forall k :: 0 <= k < |events| ==> NotYetLeft(events[..k], events[k].today)
  }

  /** A clock that does not run backwards stamps such dates. */
  lemma ForwardClockForwardDates(secs: seq<nat>, events: seq<Spend>)
    requires |secs| == |events|
    requires forall i :: 0 <= i < |events| ==> events[i].today == CivilDate.DateText(secs[i])
    requires forall i, j :: 0 <= i < j < |secs| ==> secs[i] <= secs[j]
    ensures DatesForward(events)
  {
    forall i, j, k | 0 <= i < j < k < |events| && events[i].today == events[k].today
      ensures events[j].today == events[k].today
    {
      CivilDate.SameDateTextIffSameDay(secs[i], secs[k]);
      CivilDate.SameDateTextIffSameDay(secs[j], secs[k]);
      assert secs[i] <= secs[j] <= secs[k];
    }
  }

  /** The run does not come back to the date of the file it starts from either. */
  ghost predicate OpensForward(file: Option<LedgerState>, events: seq<Spend>) {
    file.Some? ==>
      forall i, j :: 0 <= i < j < |events| && events[j].today == file.value.date ==> events[i].today == file.value.date
  }

  /** The most the file can hold of `source`: its cap, or more if it opened with more. */
  function Ceiling(caps: Caps, file: Option<LedgerState>, source: string): U32 {
    var opening := if file.Some? then Used(file.value, source) else 0;
    if opening > Cap(caps, source) then opening else Cap(caps, source)
  }

  /** No request to `source` is so large that adding it to a full budget leaves `u32`. */
  ghost predicate FitsU32(caps: Caps, file: Option<LedgerState>, events: seq<Spend>, source: string) {
    forall i :: 0 <= i < |events| && events[i].source == source ==> Ceiling(caps, file, source) + events[i].n < LIMIT
  }

  /** One granted spend moves the record of its own date and source by `n` if it is
      saved; a cut write clears every record, and a saved one those of other dates. */
  lemma SpendRecords(caps: Caps, file: Option<LedgerState>, e: Spend, date: string, source: string)
    requires e.source == source ==> Recorded(file, e.today, source) + e.n < LIMIT
    ensures
      var (after, ok) := SpendOnce(caps, file, e);
      var before, now := Recorded(file, date, source), Recorded(after, date, source);
      && (!ok || e.write.Kept? ==> now == before)
      && (ok && e.write.Cut? ==> now == 0)
      && (ok && e.write.Saved? ==>
           now == if date != e.today then 0 else before + if source == e.source then e.n else 0)
      && (ok && source == e.source ==> Recorded(file, e.today, source) + e.n <= Cap(caps, source))
  {
  }

  /** The run has not been to another date after `date`, which its file may have opened. */
  ghost predicate StillOpen(file: Option<LedgerState>, events: seq<Spend>, date: string) {
    && NotYetLeft(events, date)
    && (file.Some? && file.value.date == date ==> forall i :: 0 <= i < |events| ==> events[i].today == date)
  }

  /** A run up to its last call. */
  lemma EarlierRun(file: Option<LedgerState>, events: seq<Spend>)
    requires events != [] && DatesForward(events) && OpensForward(file, events)
    ensures
      var before, today := events[..|events| - 1], events[|events| - 1].today;
      && DatesForward(before) && OpensForward(file, before)
      && StillOpen(file, before, today) && StillOpen(file, events, today)
  {
    var n := |events| - 1;
    assert forall k :: 0 <= k < n ==> events[..n][..k] == events[..k];
  }

  /** Granted calls on `date` whose write was cut. */
  function Cuts(caps: Caps, file: Option<LedgerState>, events: seq<Spend>, date: string): nat {
    if events == [] then 0
    else
      var e := events[|events| - 1];
      Cuts(caps, file, events[..|events| - 1], date)
      + (if Granted(caps, file, events) && e.today == date && e.write.Cut? then 1 else 0)
  }

  /** With dates going forward, whatever file a run starts from and however its writes
      end: until a write of the current date is cut, the record of every source grows by
      exactly the saved spend, which never takes it past the cap; and each cut write lets
      at most one more cap be spent. */
  lemma {:induction false} RecordIsSavedSpend(caps: Caps, file: Option<LedgerState>, events: seq<Spend>, date: string, source: string)
    requires DatesForward(events) && OpensForward(file, events) && FitsU32(caps, file, events, source)
    requires StillOpen(file, events, date)
    ensures
      SpendBounded(Cap(caps, source), Recorded(file, date, source), Recorded(Run(caps, file, events), date, source),
                   Accepted(caps, file, events, date, source, true), Cuts(caps, file, events, date))
  {
    if events != [] {
      var n := |events| - 1;
      var e, before := events[n], events[..n];
      EarlierRun(file, events);
      RecordIsSavedSpend(caps, file, before, date, source);
      if e.today != date {
        RecordIsSavedSpend(caps, file, before, e.today, source);
        SpendRecords(caps, Run(caps, file, before), e, date, source);
        NothingElsewhere(caps, file, before, date, source);
      } else {
        SameDaySpend(caps, file, events, date, source);
      }
    }
  }

  /** `spent` saved under `cap` since the record stood at `opening`, with `cuts` cut writes. */
  ghost predicate SpendBounded(cap: nat, opening: nat, record: nat, spent: nat, cuts: nat) {
    && (cuts == 0 ==> record == opening + spent && (spent == 0 || record <= cap))
    && (cuts > 0 ==> record <= cap && spent <= cap * cuts + record)
  }

  lemma SameDaySpend(caps: Caps, file: Option<LedgerState>, events: seq<Spend>, date: string, source: string)
    requires events != [] && events[|events| - 1].today == date && FitsU32(caps, file, events, source)
    requires
      var before := events[..|events| - 1];
      SpendBounded(Cap(caps, source), Recorded(file, date, source), Recorded(Run(caps, file, before), date, source),
                   Accepted(caps, file, before, date, source, true), Cuts(caps, file, before, date))
    ensures
      SpendBounded(Cap(caps, source), Recorded(file, date, source), Recorded(Run(caps, file, events), date, source),
                   Accepted(caps, file, events, date, source, true), Cuts(caps, file, events, date))
  {
    var n := |events| - 1;
    var e, before := events[n], events[..n];
    SpendRecords(caps, Run(caps, file, before), e, date, source);
    BoundedSteps(Cap(caps, source), Recorded(file, date, source), Recorded(Run(caps, file, before), date, source),
                 Accepted(caps, file, before, date, source, true), Cuts(caps, file, before, date), e.n);
  }

  lemma BoundedSteps(cap: nat, opening: nat, record: nat, spent: nat, cuts: nat, n: nat)
    requires SpendBounded(cap, opening, record, spent, cuts)
    ensures record + n <= cap ==> SpendBounded(cap, opening, record + n, spent + n, cuts)
    ensures SpendBounded(cap, opening, 0, spent, cuts + 1)
  {
    OneMoreCut(cap, cuts);
  }

  lemma WithinCaps(cap: nat, opening: nat, record: nat, spent: nat, cuts: nat)
    requires SpendBounded(cap, opening, record, spent, cuts)
    ensures cuts == 0 ==> spent == 0 || opening + spent <= cap
    ensures spent <= cap * (cuts + 1)
  {
    OneMoreCut(cap, cuts);
  }

  lemma OneMoreCut(cap: nat, cuts: nat)
    ensures cap * (cuts + 1) == cap * cuts + cap
  {
  }

  lemma {:induction false} NothingElsewhere(caps: Caps, file: Option<LedgerState>, events: seq<Spend>, date: string, source: string)
    requires forall i :: 0 <= i < |events| ==> events[i].today != date
    ensures Accepted(caps, file, events, date, source, true) == 0 && Cuts(caps, file, events, date) == 0
  {
    if events != [] {
      NothingElsewhere(caps, file, events[..|events| - 1], date, source);
    }
  }

  /** Granted spend is saved spend plus what was granted although its write failed. */
  lemma {:induction false} AcceptedSplits(caps: Caps, file: Option<LedgerState>, events: seq<Spend>, date: string, source: string)
    ensures
      Accepted(caps, file, events, date, source, false) ==
        Accepted(caps, file, events, date, source, true) + Lost(caps, file, events, date, source)
  {
    if events != [] {
      AcceptedSplits(caps, file, events[..|events| - 1], date, source);
    }
  }

  /** Requests granted although the file could not be written. */
  function Lost(caps: Caps, file: Option<LedgerState>, events: seq<Spend>, date: string, source: string): nat {
    if events == [] then 0
    else
      var e := events[|events| - 1];
      Lost(caps, file, events[..|events| - 1], date, source)
      + (if Granted(caps, file, events) && e.today == date && e.source == source && !e.write.Saved? then e.n else 0)
  }

  lemma {:induction false} SavedLosesNothing(caps: Caps, file: Option<LedgerState>, events: seq<Spend>, date: string, source: string)
    requires forall i :: 0 <= i < |events| ==> events[i].write.Saved?
    ensures Lost(caps, file, events, date, source) == 0 && Cuts(caps, file, events, date) == 0
  {
    if events != [] {
      SavedLosesNothing(caps, file, events[..|events| - 1], date, source);
    }
  }

  /** When every write succeeds, saved spend is all the spend there is. */
  lemma SavedIsAll(caps: Caps, file: Option<LedgerState>, events: seq<Spend>, date: string, source: string)
    requires forall i :: 0 <= i < |events| ==> events[i].write.Saved?
    ensures Accepted(caps, file, events, date, source, false) == Accepted(caps, file, events, date, source, true)
    ensures Cuts(caps, file, events, date) == 0
  {
    AcceptedSplits(caps, file, events, date, source);
    SavedLosesNothing(caps, file, events, date, source);
  }

  /** Whatever file a run starts from, on every UTC date, past or current: what is spent
      and saved of a source never takes its record past the cap while no write of that
      date is cut, and stays within one cap more for each write that is. */
  lemma {:induction false} NoDateOverspends(caps: Caps, file: Option<LedgerState>, events: seq<Spend>, date: string, source: string)
    requires DatesForward(events) && OpensForward(file, events) && FitsU32(caps, file, events, source)
    ensures
      var spent, cuts := Accepted(caps, file, events, date, source, true), Cuts(caps, file, events, date);
      && (cuts == 0 ==> spent == 0 || Recorded(file, date, source) + spent <= Cap(caps, source))
      && spent <= Cap(caps, source) * (cuts + 1)
  {
    if events != [] {
      var n := |events| - 1;
      EarlierRun(file, events);
      if events[n].today == date {
        RecordIsSavedSpend(caps, file, events, date, source);
        WithinCaps(Cap(caps, source), Recorded(file, date, source), Recorded(Run(caps, file, events), date, source),
                   Accepted(caps, file, events, date, source, true), Cuts(caps, file, events, date));
      } else {
        NoDateOverspends(caps, file, events[..n], date, source);
      }
    }
  }

  /** A refused request leaves the file, and so every record, as it was. */
  lemma RefusalChangesNothing(caps: Caps, file: Option<LedgerState>, e: Spend)
    requires !SpendOnce(caps, file, e).1
    ensures SpendOnce(caps, file, e).0 == file
  {
  }

  /** The cap is a hard stop for requests of size `n` exactly when a full budget plus
      `n` still fits in `u32`; otherwise the wrapped sum lets a request through. */
  lemma HardStopIffFits(cap: U32, n: U32)
    ensures (forall used: U32 :: used <= cap && Add32(used, n) <= cap ==> used + n <= cap) <==> cap + n < 0x1_0000_0000
  {
    if cap + n >= LIMIT {
      assert Add32(cap, n) <= cap && cap + n > cap;
    }
  }

  // ---- Which failed writes break the cap ----

  // Three sources share the file, so a cut write for one also wipes the others' records.

  /** Requests to `source` on `date`, granted or not. */
  function TotalFor(events: seq<Spend>, date: string, source: string): nat {
    if events == [] then 0
    else
      var before, e := TotalFor(events[..|events| - 1], date, source), events[|events| - 1];
      if e.today == date && e.source == source then before + e.n else before
  }

  /** The write of call `i` loses spend of `source` on `date`, the record having opened
      at `opening` and all calls being granted: it kept the old file after such a request
      above zero, or it was cut, for any source, with something spent. */
  predicate Loses(opening: nat, events: seq<Spend>, i: nat, date: string, source: string)
    requires i < |events|
  {
    && events[i].today == date
    && match events[i].write
       case Saved => false
       case Kept => events[i].source == source && events[i].n > 0
       case Cut => opening + TotalFor(events[..i + 1], date, source) > 0
  }

  ghost predicate LosesAnywhere(opening: nat, events: seq<Spend>, date: string, source: string) {
    exists i :: 0 <= i < |events| && Loses(opening, events, i, date, source)
  }

  predicate AsksFor(e: Spend, date: string, source: string) {
    e.today == date && e.source == source && e.n > 0
  }

  /** The source is asked for more on the date after a write that loses spend of it. */
  ghost predicate LossMatters(opening: nat, events: seq<Spend>, date: string, source: string) {
    exists i, j :: 0 <= i < j < |events| && Loses(opening, events, i, date, source) && AsksFor(events[j], date, source)
  }

  /** Whatever the caps, what the file opened with and what is granted stay within the
      source's cap together, unless the file opened above it. */
  ghost predicate HardStop(file: Option<LedgerState>, events: seq<Spend>, date: string, source: string) {
    forall caps: Caps :: source in caps && Recorded(file, date, source) <= caps[source] ==>
      Recorded(file, date, source) + Accepted(caps, file, events, date, source, false) <= caps[source]
  }

  lemma LossSteps(opening: nat, events: seq<Spend>, date: string, source: string)
    requires events != []
    ensures
      var n := |events| - 1;
      var before := events[..n];
      && (LosesAnywhere(opening, events, date, source) <==>
           LosesAnywhere(opening, before, date, source) || Loses(opening, events, n, date, source))
      && (LossMatters(opening, events, date, source) <==>
           LossMatters(opening, before, date, source) ||
           (LosesAnywhere(opening, before, date, source) && AsksFor(events[n], date, source)))
  {
    var n := |events| - 1;
    forall i: nat | i < n
      ensures Loses(opening, events[..n], i, date, source) <==> Loses(opening, events, i, date, source)
    {
      assert events[..n][..i + 1] == events[..i + 1];
    }
  }

  lemma {:induction false} AcceptedWithinTotal(caps: Caps, file: Option<LedgerState>, events: seq<Spend>, date: string, source: string)
    ensures Accepted(caps, file, events, date, source, false) <= TotalFor(events, date, source)
  {
    if events != [] {
      AcceptedWithinTotal(caps, file, events[..|events| - 1], date, source);
    }
  }

  /** Before the first call of a date nothing of it was asked for or granted, nothing of
      it was lost, and its record can only be the file's own. */
  lemma {:induction false} NothingYet(caps: Caps, file: Option<LedgerState>, events: seq<Spend>, date: string, source: string)
    requires forall i :: 0 <= i < |events| ==> events[i].today != date
    requires file.Some? && file.value.date == date ==> events == []
    ensures Accepted(caps, file, events, date, source, false) == TotalFor(events, date, source) == Standing(0, events, date, source) == 0
    ensures !LosesAnywhere(Recorded(file, date, source), events, date, source)
    ensures events != [] ==> Recorded(file, date, source) == 0
    ensures Recorded(Run(caps, file, events), date, source) == Recorded(file, date, source)
  {
    if events != [] {
      var n := |events| - 1;
      NothingYet(caps, file, events[..n], date, source);
      OtherDate(caps, Run(caps, file, events[..n]), events[n], date, source);
    }
  }

  lemma OtherDate(caps: Caps, file: Option<LedgerState>, e: Spend, date: string, source: string)
    requires e.today != date
    ensures Recorded(SpendOnce(caps, file, e).0, date, source) in {0, Recorded(file, date, source)}
  {
  }

  /** The record of `source` on `date` when every request is granted. */
  function Standing(opening: nat, events: seq<Spend>, date: string, source: string): nat {
    if events == [] then opening
    else
      var before, e := Standing(opening, events[..|events| - 1], date, source), events[|events| - 1];
      if e.today != date then before
      else
        match e.write
        case Saved => if e.source == source then before + e.n else before
        case Kept => before
        case Cut => 0
  }

  /** The least cap under which every request to `source` on `date` is granted. */
  function Peak(opening: nat, events: seq<Spend>, date: string, source: string): nat {
    if events == [] then opening
    else
      var e, before := events[|events| - 1], Peak(opening, events[..|events| - 1], date, source);
      var asked := Standing(opening, events[..|events| - 1], date, source) + e.n;
      if e.today == date && e.source == source && asked > before then asked else before
  }

  lemma {:induction false} PeakBelowTotal(opening: nat, events: seq<Spend>, date: string, source: string)
    ensures
      var most := opening + TotalFor(events, date, source);
      && Standing(opening, events, date, source) <= most
      && opening <= Peak(opening, events, date, source) <= most
      && (LosesAnywhere(opening, events, date, source) ==> Standing(opening, events, date, source) < most)
      && (LossMatters(opening, events, date, source) ==> Peak(opening, events, date, source) < most)
  {
    if events != [] {
      PeakBelowTotal(opening, events[..|events| - 1], date, source);
      LossSteps(opening, events, date, source);
      assert events[..|events| - 1 + 1] == events;
    }
  }

  /** One more call on the date, after a run that stayed within the cap. */
  lemma StopsToday(caps: Caps, file: Option<LedgerState>, events: seq<Spend>, date: string, source: string)
    requires events != [] && events[|events| - 1].today == date && source in caps
    requires Recorded(file, date, source) + TotalFor(events, date, source) < LIMIT
    requires
      var opening, n := Recorded(file, date, source), |events| - 1;
      var before := events[..n];
      && opening + Accepted(caps, file, before, date, source, false) <= caps[source]
      && (LosesAnywhere(opening, before, date, source) ==> !AsksFor(events[n], date, source))
      && (!LosesAnywhere(opening, before, date, source) ==>
           Recorded(Run(caps, file, before), date, source) == opening + Accepted(caps, file, before, date, source, false))
    ensures Recorded(file, date, source) + Accepted(caps, file, events, date, source, false) <= caps[source]
    ensures !LosesAnywhere(Recorded(file, date, source), events, date, source) ==>
      Recorded(Run(caps, file, events), date, source) ==
        Recorded(file, date, source) + Accepted(caps, file, events, date, source, false)
  {
    var n := |events| - 1;
    LossSteps(Recorded(file, date, source), events, date, source);
    AcceptedWithinTotal(caps, file, events[..n], date, source);
    AcceptedWithinTotal(caps, file, events, date, source);
    SpendRecords(caps, Run(caps, file, events[..n]), events[n], date, source);
    assert events[..n + 1] == events;
  }

  lemma {:induction false} StopsUnlessLossMatters(caps: Caps, file: Option<LedgerState>, events: seq<Spend>, date: string, source: string)
    requires DatesForward(events) && OpensForward(file, events) && source in caps
    requires Recorded(file, date, source) <= caps[source]
    requires Recorded(file, date, source) + TotalFor(events, date, source) < LIMIT
    requires !LossMatters(Recorded(file, date, source), events, date, source)
    ensures Recorded(file, date, source) + Accepted(caps, file, events, date, source, false) <= caps[source]
    ensures StillOpen(file, events, date) && !LosesAnywhere(Recorded(file, date, source), events, date, source) ==>
      Recorded(Run(caps, file, events), date, source) ==
        Recorded(file, date, source) + Accepted(caps, file, events, date, source, false)
  {
    if events != [] {
      var n := |events| - 1;
      EarlierRun(file, events);
      LossSteps(Recorded(file, date, source), events, date, source);
      StopsUnlessLossMatters(caps, file, events[..n], date, source);
      if events[n].today == date {
        StopsToday(caps, file, events, date, source);
      } else if StillOpen(file, events, date) {
        NothingYet(caps, file, events, date, source);
      }
    }
  }

  /** Caps under which every other source is always granted, up to wrap-around. */
  ghost predicate OthersUnlimited(caps: Caps, events: seq<Spend>, source: string) {
    forall i :: 0 <= i < |events| && events[i].source != source ==>
      events[i].source in caps && caps[events[i].source] == LIMIT - 1
  }

  lemma GrantedToday(caps: Caps, file: Option<LedgerState>, e: Spend, source: string)
    requires e.source in caps
    requires
      if e.source == source then Recorded(file, e.today, source) + e.n <= caps[source]
      else caps[e.source] == LIMIT - 1
    ensures
      var (after, ok) := SpendOnce(caps, file, e);
      var before := Recorded(file, e.today, source);
      && ok
      && Recorded(after, e.today, source) ==
           match e.write
           case Saved => (if e.source == source then before + e.n else before)
           case Kept => before
           case Cut => 0
  {
  }

  lemma {:induction false} PeakGrantsAll(caps: Caps, file: Option<LedgerState>, events: seq<Spend>, date: string, source: string)
    requires DatesForward(events) && OpensForward(file, events)
    requires source in caps && Peak(Recorded(file, date, source), events, date, source) <= caps[source]
    requires OthersUnlimited(caps, events, source)
    ensures Accepted(caps, file, events, date, source, false) == TotalFor(events, date, source)
    ensures StillOpen(file, events, date) ==>
      Recorded(Run(caps, file, events), date, source) == Standing(Recorded(file, date, source), events, date, source)
  {
    if events != [] {
      var n := |events| - 1;
      EarlierRun(file, events);
      PeakGrantsAll(caps, file, events[..n], date, source);
      if events[n].today == date {
        GrantedToday(caps, Run(caps, file, events[..n]), events[n], source);
      } else if StillOpen(file, events, date) {
        NothingYet(caps, file, events, date, source);
      }
    }
  }

  /** Whatever the file opens with, however many sources share it and whatever other
      dates the run visits: the cap of a source on a date is a hard stop against failing
      writes if and only if the source is asked for nothing more on that date after a
      write that lost spend of it. */
  lemma HardStopIffNoLossMatters(file: Option<LedgerState>, events: seq<Spend>, date: string, source: string)
    requires DatesForward(events) && OpensForward(file, events)
    requires Recorded(file, date, source) + TotalFor(events, date, source) < LIMIT
    ensures HardStop(file, events, date, source) <==> !LossMatters(Recorded(file, date, source), events, date, source)
  {
    var opening := Recorded(file, date, source);
    if LossMatters(opening, events, date, source) {
      PeakBelowTotal(opening, events, date, source);
      var caps := PeakCaps(events, source, Peak(opening, events, date, source));
      PeakGrantsAll(caps, file, events, date, source);
      assert opening + Accepted(caps, file, events, date, source, false) > caps[source];
    } else {
      forall caps: Caps | source in caps && opening <= caps[source]
        ensures opening + Accepted(caps, file, events, date, source, false) <= caps[source]
      {
        StopsUnlessLossMatters(caps, file, events, date, source);
      }
    }
  }

  ghost function PeakCaps(events: seq<Spend>, source: string, peak: U32): (caps: Caps)
    ensures source in caps && caps[source] == peak && OthersUnlimited(caps, events, source)
  {
    var others := set i | 0 <= i < |events| :: events[i].source;
    map s | s in others + {source} :: if s == source then peak else LIMIT - 1
  }

  // ---- One pulse of the engine ----

  /** The caps the engine builds: WorldMonitor's is clamped to 50 whatever is configured. */
  function EngineCaps(valyu: U32, worldmonitor: U32, dogfood: U32): Caps {
    map["valyu" := valyu, "worldmonitor" := (if worldmonitor < 50 then worldmonitor else 50), "dogfood" := dogfood]
  }

  /** What a run leaves behind: the file, the answers in order, and the granted requests
      and refused sources as a report lists them. */
  datatype Log = Log(file: Option<LedgerState>, answers: seq<bool>, spent: seq<(string, U32)>, exhausted: seq<string>)

  function LogOf(caps: Caps, file: Option<LedgerState>, events: seq<Spend>): Log {
    if events == [] then Log(file, [], [], [])
    else Answered(caps, LogOf(caps, file, events[..|events| - 1]), events[|events| - 1])
  }

  function Answered(caps: Caps, log: Log, e: Spend): Log {
    var (after, ok) := SpendOnce(caps, log.file, e);
    Log(after, log.answers + [ok],
        if ok then log.spent + [(e.source, e.n)] else log.spent,
        if ok then log.exhausted else log.exhausted + [e.source])
  }

  lemma {:induction false} LogIsRun(caps: Caps, file: Option<LedgerState>, events: seq<Spend>)
    ensures LogOf(caps, file, events).file == Run(caps, file, events)
    ensures |LogOf(caps, file, events).answers| == |events|
  {
    if events != [] {
      LogIsRun(caps, file, events[..|events| - 1]);
    }
  }

  lemma LogAppend(caps: Caps, file: Option<LedgerState>, events: seq<Spend>, e: Spend, log: Log)
    requires LogOf(caps, file, events) == log
    ensures LogOf(caps, file, events + [e]) == Answered(caps, log, e)
  {
    assert (events + [e])[..|events|] == events;
  }

  function Count(answers: seq<bool>, answer: bool): nat {
    if answers == [] then 0
    else
      var before, last := Count(answers[..|answers| - 1], answer), answers[|answers| - 1];
      if last == answer then before + 1 else before
  }

  /** The log is the run's: call `i` has the answer the ledger gave it, the granted calls
      are listed as spent and the sources of the refused ones as exhausted, each in order,
      and nothing else is listed. */
  lemma {:induction false} LogExact(caps: Caps, file: Option<LedgerState>, events: seq<Spend>, i: nat)
    requires i < |events|
    ensures
      var log, e := LogOf(caps, file, events), events[i];
      && |log.answers| == |events| && |log.spent| == Count(log.answers, true) && |log.exhausted| == Count(log.answers, false)
      && log.answers[i] == SpendOnce(caps, Run(caps, file, events[..i]), e).1
      && Count(log.answers[..i], log.answers[i]) < Count(log.answers, log.answers[i])
      && (log.answers[i] ==> log.spent[Count(log.answers[..i], true)] == (e.source, e.n))
      && (!log.answers[i] ==> log.exhausted[Count(log.answers[..i], false)] == e.source)
  {
    LogCounts(caps, file, events);
    if i < |events| - 1 {
      LogExact(caps, file, events[..|events| - 1], i);
      LogKeeps(caps, file, events, i);
    } else {
      LogLast(caps, file, events);
      assert LogOf(caps, file, events).answers[..i] == LogOf(caps, file, events[..i]).answers;
    }
  }

  lemma LogLast(caps: Caps, file: Option<LedgerState>, events: seq<Spend>)
    requires events != []
    ensures
      var n := |events| - 1;
      var before, log, e := LogOf(caps, file, events[..n]), LogOf(caps, file, events), events[n];
      var ok := SpendOnce(caps, Run(caps, file, events[..n]), e).1;
      && log.answers == before.answers + [ok] && |before.answers| == n
      && Count(log.answers, ok) == Count(before.answers, ok) + 1
      && |before.spent| == Count(before.answers, true) && |before.exhausted| == Count(before.answers, false)
      && (ok ==> log.spent == before.spent + [(e.source, e.n)])
      && (!ok ==> log.exhausted == before.exhausted + [e.source])
  {
    var n := |events| - 1;
    LogIsRun(caps, file, events[..n]);
    LogCounts(caps, file, events[..n]);
    assert LogOf(caps, file, events).answers[..n] == LogOf(caps, file, events[..n]).answers;
  }

  /** What is logged stays. */
  lemma LogKeeps(caps: Caps, file: Option<LedgerState>, events: seq<Spend>, i: nat)
    requires i < |events| - 1
    ensures
      var n := |events| - 1;
      var before, log := LogOf(caps, file, events[..n]), LogOf(caps, file, events);
      && before.answers <= log.answers && before.spent <= log.spent && before.exhausted <= log.exhausted
      && |before.answers| == n && before.answers[..i] == log.answers[..i] && events[..n][..i] == events[..i]
      && (forall answer: bool :: Count(before.answers, answer) <= Count(log.answers, answer))
  {
    var n := |events| - 1;
    LogCounts(caps, file, events[..n]);
    assert LogOf(caps, file, events).answers[..n] == LogOf(caps, file, events[..n]).answers;
  }

  lemma {:induction false} LogCounts(caps: Caps, file: Option<LedgerState>, events: seq<Spend>)
    ensures
      var log := LogOf(caps, file, events);
      |log.answers| == |events| && |log.spent| == Count(log.answers, true) && |log.exhausted| == Count(log.answers, false)
  {
    if events != [] {
      var n := |events| - 1;
      LogCounts(caps, file, events[..n]);
      assert LogOf(caps, file, events).answers[..n] == LogOf(caps, file, events[..n]).answers;
    }
  }

  /** On a fresh ledger the engine grants exactly the requests within the configured caps,
      WorldMonitor's within 50 as well, and none to any other source. */
  lemma EngineGrants(valyu: U32, worldmonitor: U32, dogfood: U32, e: Spend)
    ensures
      SpendOnce(EngineCaps(valyu, worldmonitor, dogfood), None, e).1 <==>
        || (e.source == "valyu" && e.n <= valyu)
        || (e.source == "worldmonitor" && e.n <= worldmonitor && e.n <= 50)
        || (e.source == "dogfood" && e.n <= dogfood)
  {
  }

  function SumFor(spent: seq<(string, U32)>, source: string): nat {
    if spent == [] then 0
    else
      var last := spent[|spent| - 1];
      SumFor(spent[..|spent| - 1], source) + if last.0 == source then last.1 else 0
  }

  lemma SumForAppend(spent: seq<(string, U32)>, x: (string, U32), source: string)
    ensures SumFor(spent + [x], source) == SumFor(spent, source) + if x.0 == source then x.1 else 0
  {
    assert (spent + [x])[..|spent|] == spent;
  }

  datatype Report = Report(requestsSpent: seq<(string, U32)>, budgetExhausted: seq<string>, keyless: seq<string>)

  class CurrentEngine {
    const ledger: Ledger
    const worldmonitor: bool  // whether a client (an API key) is there
    const valyu: bool
    const dogfood: bool
    const topics: seq<string>

    constructor (ledger: Ledger, worldmonitor: bool, valyu: bool, dogfood: bool, topics: seq<string>)
      ensures this.ledger == ledger && this.worldmonitor == worldmonitor
      ensures this.valyu == valyu && this.dogfood == dogfood && this.topics == topics
    {
      this.ledger, this.worldmonitor, this.valyu, this.dogfood, this.topics := ledger, worldmonitor, valyu, dogfood, topics;
    }

    /** `events` are the attempts since the ledger read `file`, `answers` what it said to
        each, and the lists report the answers. */
    ghost predicate Tracks(file: Option<LedgerState>, events: seq<Spend>, answers: seq<bool>,
                           spent: seq<(string, U32)>, exhausted: seq<string>)
      reads ledger
    {
      LogOf(ledger.caps, file, events) == Log(ledger.file, answers, spent, exhausted)
    }

    /** Try to spend `n` on `source`, and report the answer. */
    method Attempt(source: string, n: U32, k: nat, clock: nat -> string, writes: nat -> Write,
                   spent: seq<(string, U32)>, exhausted: seq<string>,
                   ghost file: Option<LedgerState>, ghost events: seq<Spend>, ghost answers: seq<bool>)
        returns (ok: bool, spent': seq<(string, U32)>, exhausted': seq<string>, ghost events': seq<Spend>)
      requires k == |events| && Tracks(file, events, answers, spent, exhausted)
      modifies ledger
      ensures events' == events + [Spend(clock(k), source, n, writes(k))]
      ensures Tracks(file, events', answers + [ok], spent', exhausted')
    {
      var e := Spend(clock(k), source, n, writes(k));
      events' := events + [e];
      LogAppend(ledger.caps, file, events, e, Log(ledger.file, answers, spent, exhausted));
      ok := ledger.TrySpend(e);
      spent' := if ok then spent + [(source, n)] else spent;
      exhausted' := if ok then exhausted else exhausted + [source];
    }

    /** All answers but the last were grants, and a topic is left unasked only after a
        refusal. */
    ghost predicate StopsAtRefusal(answers: seq<bool>) {
      && |answers| <= |topics|
      && (forall i :: 0 <= i < |answers| - 1 ==> answers[i])
      && (|answers| < |topics| ==> answers != [] && !answers[|answers| - 1])
    }

    /** One request per topic, until the budget refuses one, if there is a client. */
    method PulseTopics(k: nat, clock: nat -> string, writes: nat -> Write,
                       spent: seq<(string, U32)>, exhausted: seq<string>,
                       ghost file: Option<LedgerState>, ghost events: seq<Spend>, ghost answers: seq<bool>)
        returns (asked: nat, spent': seq<(string, U32)>, exhausted': seq<string>, ghost events': seq<Spend>, ghost more: seq<bool>)
      requires k == |events| && Tracks(file, events, answers, spent, exhausted)
      modifies ledger
      ensures Tracks(file, events', answers + more, spent', exhausted')
      ensures |more| == asked && |events'| == |events| + asked && events <= events'
      ensures forall i :: |events| <= i < |events'| ==> events'[i] == Spend(clock(i), "valyu", 1, writes(i))
      ensures if valyu then StopsAtRefusal(more) else more == []
    {
      asked, spent', exhausted', events', more := 0, spent, exhausted, events, [];
      assert answers + [] == answers;
      if !valyu {
        return;
      }
      var ok := true;
      while ok && asked < |topics|
        invariant Tracks(file, events', answers + more, spent', exhausted')
        invariant asked <= |topics| && |events'| == |events| + asked && events <= events'
        invariant forall i :: |events| <= i < |events'| ==> events'[i] == Spend(clock(i), "valyu", 1, writes(i))
        invariant |more| == asked && (ok || asked > 0)
        invariant forall i :: 0 <= i < asked ==> more[i] == (ok || i < asked - 1)
        decreases ok, |topics| - asked
      {
        ok, spent', exhausted', events' := Attempt("valyu", 1, k + asked, clock, writes, spent', exhausted', file, events', answers + more);
        assert answers + more + [ok] == answers + (more + [ok]);
        more := more + [ok];
        asked := asked + 1;
      }
    }

    /** A source that is asked for `n` requests at once, if it has a client. */
    method PulseOnce(present: bool, source: string, n: U32, k: nat, clock: nat -> string, writes: nat -> Write,
                     spent: seq<(string, U32)>, exhausted: seq<string>,
                     ghost file: Option<LedgerState>, ghost events: seq<Spend>, ghost answers: seq<bool>)
        returns (spent': seq<(string, U32)>, exhausted': seq<string>, ghost events': seq<Spend>, ghost answers': seq<bool>)
      requires k == |events| && Tracks(file, events, answers, spent, exhausted)
      modifies ledger
      ensures Tracks(file, events', answers', spent', exhausted')
      ensures answers <= answers' && |answers'| - |answers| == |events'| - |events|
      ensures events' == if present then events + [Spend(clock(k), source, n, writes(k))] else events
    {
      spent', exhausted', events', answers' := spent, exhausted, events, answers;
      if present {
        var ok;
        ok, spent', exhausted', events' := Attempt(source, n, k, clock, writes, spent, exhausted, file, events, answers);
        answers' := answers + [ok];
      }
    }

    /** One pulse, with the readings of the clock and the outcomes of the writes in the
        order they are used: WorldMonitor's three requests at once, Valyu topic by topic,
        Dogfood's two at once. `events` lists the attempts made and `answers` what the
        ledger answered, `topical` to Valyu's. The report is exactly those answers. */
    method Pulse(clock: nat -> string, writes: nat -> Write)
        returns (report: Report, ghost events: seq<Spend>, ghost answers: seq<bool>, ghost topical: seq<bool>)
      modifies ledger
      ensures Tracks(old(ledger.file), events, answers, report.requestsSpent, report.budgetExhausted)
      ensures if valyu then StopsAtRefusal(topical) else topical == []
      ensures
        var w, d := if worldmonitor then 1 else 0, if dogfood then 1 else 0;
        && |events| == |answers| == w + |topical| + d
        && answers[w..w + |topical|] == topical
        && (w == 1 ==> events[0] == Spend(clock(0), "worldmonitor", 3, writes(0)))
        && (forall i :: w <= i < w + |topical| ==> events[i] == Spend(clock(i), "valyu", 1, writes(i)))
        && (d == 1 ==> var last := |events| - 1; events[last] == Spend(clock(last), "dogfood", 2, writes(last)))
      ensures report.keyless ==
        (if worldmonitor then [] else ["worldmonitor"]) + (if valyu || topics == [] then [] else ["valyu"])
    {
      var keyless := if worldmonitor then [] else ["worldmonitor"];
      var k := if worldmonitor then 1 else 0;
      ghost var file := ledger.file;
      var spent, exhausted;
      spent, exhausted, events, answers :=
        PulseOnce(worldmonitor, "worldmonitor", 3, 0, clock, writes, [], [], file, [], []);
      var asked;
      asked, spent, exhausted, events, topical := PulseTopics(k, clock, writes, spent, exhausted, file, events, answers);
      if !valyu && topics != [] {
        keyless := keyless + ["valyu"];
      }
      ghost var before := answers + topical;
      spent, exhausted, events, answers :=
        PulseOnce(dogfood, "dogfood", 2, k + asked, clock, writes, spent, exhausted, file, events, before);
      assert answers[..|before|] == before;
      report := Report(spent, exhausted, keyless);
    }
  }

  /** Pulses in a row are one run: what is proved of runs holds across pulses and
      restarts, since only the file carries over. */
  lemma {:induction false} RunsCompose(caps: Caps, file: Option<LedgerState>, events: seq<Spend>, more: seq<Spend>)
    ensures Run(caps, Run(caps, file, events), more) == Run(caps, file, events + more)
  {
    var all := events + more;
    if more == [] {
      assert all == events;
    } else {
      RunsCompose(caps, file, events, more[..|more| - 1]);
      assert all[..|all| - 1] == events + more[..|more| - 1];
    }
  }

  /** What a report says was spent on a source is what the run was granted for it. */
  lemma {:induction false} ReportSumsGrants(caps: Caps, file: Option<LedgerState>, events: seq<Spend>, date: string, source: string)
    requires forall i :: 0 <= i < |events| ==> events[i].today == date
    ensures SumFor(LogOf(caps, file, events).spent, source) == Accepted(caps, file, events, date, source, false)
  {
    if events != [] {
      var n := |events| - 1;
      var e, log := events[n], LogOf(caps, file, events[..n]);
      ReportSumsGrants(caps, file, events[..n], date, source);
      LogIsRun(caps, file, events[..n]);
      SumForAppend(log.spent, (e.source, e.n), source);
    }
  }

  /** Over a run within one UTC date whose writes succeed, the report's total for each
      source is the increase of its record, and never takes it past the cap. */
  lemma {:induction false} ReportIsLedgerIncrease(caps: Caps, file: Option<LedgerState>, events: seq<Spend>, date: string, source: string)
    requires forall i :: 0 <= i < |events| ==> events[i].today == date && events[i].write.Saved?
    requires FitsU32(caps, file, events, source)
    ensures
      var before, after := Recorded(file, date, source), Recorded(Run(caps, file, events), date, source);
      var total := SumFor(LogOf(caps, file, events).spent, source);
      after == before + total && (total == 0 || after <= Cap(caps, source))
  {
    if events != [] {
      var n := |events| - 1;
      var e, log := events[n], LogOf(caps, file, events[..n]);
      ReportIsLedgerIncrease(caps, file, events[..n], date, source);
      LogIsRun(caps, file, events[..n]);
      SpendRecords(caps, Run(caps, file, events[..n]), e, date, source);
      SumForAppend(log.spent, (e.source, e.n), source);
    }
  }

  /** Over any run of pulses with a forward clock, whatever the configuration says, on
      any UTC date: WorldMonitor's saved requests stay within 50, and 50 more for each
      write of that date that was cut; when every write succeeds, 50 is all it is asked. */
  lemma WorldMonitorWithinMandate(
    valyu: U32, worldmonitor: U32, dogfood: U32, file: Option<LedgerState>, events: seq<Spend>, date: string)
    requires DatesForward(events) && OpensForward(file, events)
    requires file.Some? ==> Used(file.value, "worldmonitor") + 3 < LIMIT
    requires forall i :: 0 <= i < |events| && events[i].source == "worldmonitor" ==> events[i].n == 3
    ensures
      var caps := EngineCaps(valyu, worldmonitor, dogfood);
      && Accepted(caps, file, events, date, "worldmonitor", true) <= 50 * (Cuts(caps, file, events, date) + 1)
      && ((forall i :: 0 <= i < |events| ==> events[i].write.Saved?) ==>
           Accepted(caps, file, events, date, "worldmonitor", false) <= 50)
  {
    var caps := EngineCaps(valyu, worldmonitor, dogfood);
    NoDateOverspends(caps, file, events, date, "worldmonitor");
    TimesOrder(Cap(caps, "worldmonitor"), 50, Cuts(caps, file, events, date) + 1);
    if forall i :: 0 <= i < |events| ==> events[i].write.Saved? {
      SavedIsAll(caps, file, events, date, "worldmonitor");
    }
  }

  lemma TimesOrder(a: nat, b: nat, m: nat)
    requires a <= b
    ensures a * m <= b * m
  {
  }
}
