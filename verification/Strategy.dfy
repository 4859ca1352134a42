/** The signal engine: thresholds with a deadband, cooldowns, and a position gate, fed by any sequence of scores. */
module Strategy {
  import opened Numbers
  import opened Text

  datatype Signal = Long | Short | CloseLong | CloseShort {
    predicate IsEntry() {
      Long? || Short?
    }

    /** The exit that undoes an entry. */
    function Close(): Signal
      requires IsEntry()
    {
      if Long? then CloseLong else CloseShort
    }
  }

  datatype Config = Config(
    longEntry: real, shortEntry: real, deadband: real, confidenceMinimum: real,
    entryCooldownMs: nat, exitCooldownMs: nat, stalenessNs: nat,
    maxLongUnits: real, maxShortUnits: real, allowShort: bool)

  datatype Prediction = Prediction(computedNs: nat, confidence: real, score: real)

  datatype Engine = Engine(state: int, lastEntryNs: nat, lastExitNs: nat, net: real)

  const NEW_ENGINE := Engine(0, 0, 0, 0.0)

  /** A prediction with the three readings of the clock it meets; a reset; or a change of the position held. */
  datatype Event =
    | Evaluate(p: Prediction, staleNs: nat, coolNs: nat, stampNs: nat)
    | Reset
    | UpdatePosition(delta: real)

  // ---------- one step ----------

  predicate CooledDown(e: Engine, c: Config, score: real, now: nat) {
    if score > c.longEntry || score < c.shortEntry then
      SaturatingSub(now, e.lastEntryNs) > c.entryCooldownMs * NS_PER_MS
    else
      SaturatingSub(now, e.lastExitNs) > c.exitCooldownMs * NS_PER_MS
  }

  /** The signal a score raises in a state. */
  function Raised(state: int, c: Config, score: real): Option<Signal> {
    if state == 0 then
      if score > c.longEntry then Some(Long)
      else if score < c.shortEntry && c.allowShort then Some(Short)
      else None
    else if state == 1 then
      if score < c.longEntry - c.deadband then Some(CloseLong) else None
    else if state == -1 then
      if score > c.shortEntry + c.deadband then Some(CloseShort) else None
    else None
  }

  function StateAfter(state: int, signal: Option<Signal>): int {
    match signal
    case None => state
    case Some(Long) => 1
    case Some(Short) => -1
    case Some(_) => 0
  }

  /** The state that a signal leaves behind, entries and exits stamped apart. */
  function Stamped(e: Engine, signal: Option<Signal>, now: nat): Engine {
    match signal
    case None => e
    case Some(s) =>
      if s.IsEntry() then e.(state := StateAfter(e.state, signal), lastEntryNs := now)
      else e.(state := StateAfter(e.state, signal), lastExitNs := now)
  }

  predicate Considered(e: Engine, c: Config, ev: Event)
    requires ev.Evaluate?
  {
    && SaturatingSub(ev.staleNs, ev.p.computedNs) <= c.stalenessNs
    && ev.p.confidence >= c.confidenceMinimum
    && CooledDown(e, c, ev.p.score, ev.coolNs)
  }

  /** The signal of the hysteresis machine, before the position gate. */
  function Signalled(e: Engine, c: Config, ev: Event): Option<Signal> {
    if ev.Evaluate? && Considered(e, c, ev) then Raised(e.state, c, ev.p.score) else None
  }

  predicate Gate(e: Engine, c: Config, signal: Signal) {
    match signal
    case Long => e.net < c.maxLongUnits
    case Short => c.allowShort && e.net > -c.maxShortUnits
    case _ => true
  }

  /** What `evaluate` returns: a gated entry is lost, although it has changed the state. */
  function Emitted(e: Engine, c: Config, ev: Event): Option<Signal> {
    var signal := Signalled(e, c, ev);
    if signal.Some? && Gate(e, c, signal.value) then signal else None
  }

  function Step(e: Engine, c: Config, ev: Event): Engine {
    match ev
    case Evaluate(_, _, _, stampNs) => Stamped(e, Signalled(e, c, ev), stampNs)
    case Reset => e.(state := 0)
    case UpdatePosition(delta) => e.(net := e.net + delta)
  }

  /**
   When each signal is raised, in the figures of prediction, configuration and engine: the prediction is fresh and
   confident enough, the cooldown its score calls for has passed, and the score is past the threshold of the state.
   */
  lemma SignalInFigures(e: Engine, c: Config, ev: Event)
    ensures Signalled(e, c, ev).Some? ==> ev.Evaluate?
    ensures ev.Evaluate? ==>
              var score := ev.p.score;
              var considered :=
                && ev.staleNs <= ev.p.computedNs + c.stalenessNs
                && c.confidenceMinimum <= ev.p.confidence
                && if c.longEntry < score || score < c.shortEntry then
                     e.lastEntryNs + c.entryCooldownMs * 1_000_000 < ev.coolNs
                   else
                     e.lastExitNs + c.exitCooldownMs * 1_000_000 < ev.coolNs;
              && (Signalled(e, c, ev) == Some(Long) <==> considered && e.state == 0 && c.longEntry < score)
              && (Signalled(e, c, ev) == Some(Short) <==>
                    considered && e.state == 0 && score < c.shortEntry && score <= c.longEntry && c.allowShort)
              && (Signalled(e, c, ev) == Some(CloseLong) <==>
                    considered && e.state == 1 && score < c.longEntry - c.deadband)
              && (Signalled(e, c, ev) == Some(CloseShort) <==>
                    considered && e.state == -1 && c.shortEntry + c.deadband < score)
  {
  }

  /**
   What an event leaves behind: an evaluation the side of its signal, gated or not, and its stamp; a reset no side; a
   position update the position; and nothing else changes.
   */
  lemma StepInFigures(e: Engine, c: Config, ev: Event)
    ensures var e', signal := Step(e, c, ev), Signalled(e, c, ev);
            && e'.net == (if ev.UpdatePosition? then e.net + ev.delta else e.net)
            && e'.state == (if ev.Reset? then 0 else
                            match signal case None => e.state case Some(Long) => 1 case Some(Short) => -1 case _ => 0)
            && e'.lastEntryNs == (if signal == Some(Long) || signal == Some(Short) then ev.stampNs else e.lastEntryNs)
            && e'.lastExitNs ==
               if signal == Some(CloseLong) || signal == Some(CloseShort) then ev.stampNs else e.lastExitNs
  {
    hide Considered, Raised;
  }

  function Run(c: Config, events: seq<Event>): Engine {
    if events == [] then NEW_ENGINE else Step(Run(c, events[..|events| - 1]), c, events[|events| - 1])
  }

  datatype Stamp = Stamp(signal: Signal, ns: nat)

  /** All signals of the hysteresis machine during a run, with their stamps. */
  function Signals(c: Config, events: seq<Event>): seq<Stamp> {
    if events == [] then []
    else
      var before, ev := events[..|events| - 1], events[|events| - 1];
      var signal := Signalled(Run(c, before), c, ev);
      Signals(c, before) + if signal.Some? then [Stamp(signal.value, ev.stampNs)] else []
  }

  /** Readings of the clock never go back. */
  ghost predicate Chronological(events: seq<Event>) {
    events == [] ||
    var before, ev := events[..|events| - 1], events[|events| - 1];
    Chronological(before) && (ev.Evaluate? ==> Clock(before) <= ev.staleNs <= ev.coolNs <= ev.stampNs)
  }

  function Clock(events: seq<Event>): nat {
    if events == [] then 0
    else
      var ev := events[|events| - 1];
      if ev.Evaluate? then ev.stampNs else Clock(events[..|events| - 1])
  }

  lemma RunStep(c: Config, events: seq<Event>, ev: Event)
    ensures Run(c, events + [ev]) == Step(Run(c, events), c, ev)
  {
    assert (events + [ev])[..|events|] == events;
  }

  // ---------- the deadband against the total variation ----------

  /** The exits returned by `evaluate` during a run. */
  function Exits(c: Config, events: seq<Event>): nat {
    if events == [] then 0
    else
      var before, ev := events[..|events| - 1], events[|events| - 1];
      var out := Emitted(Run(c, before), c, ev);
      Exits(c, before) + if out.Some? && !out.value.IsEntry() then 1 else 0
  }

  /** The scores fed in, whether or not they were acted on. */
  function Scores(events: seq<Event>): seq<real> {
    if events == [] then []
    else
      var ev := events[|events| - 1];
      Scores(events[..|events| - 1]) + if ev.Evaluate? then [ev.p.score] else []
  }

  lemma ExitsStep(c: Config, events: seq<Event>, ev: Event)
    ensures var out := Emitted(Run(c, events), c, ev);
            Exits(c, events + [ev]) == Exits(c, events) + if out.Some? && !out.value.IsEntry() then 1 else 0
    ensures Scores(events + [ev]) == Scores(events) + if ev.Evaluate? then [ev.p.score] else []
  {
    hide Run, Emitted;
    assert (events + [ev])[..|events|] == events;
  }

  function Variation(scores: seq<real>): real {
    if |scores| < 2 then 0.0
    else Variation(scores[..|scores| - 1]) + Abs(scores[|scores| - 1] - scores[|scores| - 2])
  }

  /** How far the last score has already gone from the threshold its position was entered at. */
  function Owed(state: int, c: Config, score: real): real {
    if state == 1 then c.longEntry - score else if state == -1 then score - c.shortEntry else 0.0
  }

  /** What the variation so far has paid for: the exits, and the way back from the threshold. */
  ghost predicate Paid(e: Engine, c: Config, exits: nat, scores: seq<real>) {
    var spent := Times(exits, c.deadband);
    && -1 <= e.state <= 1
    && spent <= Variation(scores)
    && (e.state != 0 ==> scores != [] && spent + Owed(e.state, c, scores[|scores| - 1]) <= Variation(scores))
  }

  function Times(n: nat, x: real): real {
    n as real * x
  }

  lemma OneMore(n: nat, x: real)
    ensures Times(n + 1, x) == Times(n, x) + x && Times(0, x) == 0.0
  {
  }

  lemma VariationGrows(scores: seq<real>, score: real)
    ensures Variation(scores + [score]) ==
            if scores == [] then 0.0 else Variation(scores) + Abs(score - scores[|scores| - 1])
  {
    assert (scores + [score])[..|scores|] == scores;
  }

  lemma StepPays(e: Engine, c: Config, ev: Event, exits: nat, scores: seq<real>)
    requires 0.0 <= c.deadband && Paid(e, c, exits, scores)
    ensures var out := Emitted(e, c, ev);
            Paid(Step(e, c, ev), c, exits + (if out.Some? && !out.value.IsEntry() then 1 else 0),
                 scores + if ev.Evaluate? then [ev.p.score] else [])
  {
    hide Considered, Variation, Times;
    var out := Emitted(e, c, ev);
    if ev.Evaluate? {
      var score := ev.p.score;
      VariationGrows(scores, score);
      OneMore(exits, c.deadband);
      NoVariation();
      assert (scores + [score])[|scores|] == score;
      assert out.Some? && !out.value.IsEntry() ==> e.state != 0 && c.deadband < Owed(e.state, c, score);
      assert Step(e, c, ev).state != e.state && Step(e, c, ev).state != 0 ==>
               Owed(Step(e, c, ev).state, c, score) < 0.0;
      assert scores != [] ==>
               Owed(e.state, c, score) <= Owed(e.state, c, scores[|scores| - 1]) + Abs(score - scores[|scores| - 1]);
    } else {
      assert scores + [] == scores;
    }
  }

  lemma NoVariation()
    ensures Variation([]) == 0.0
  {
  }

  lemma {:induction false} RunPays(c: Config, events: seq<Event>)
    requires 0.0 <= c.deadband
    ensures Paid(Run(c, events), c, Exits(c, events), Scores(events))
  {
    if events == [] {
      NoVariation();
      OneMore(0, c.deadband);
    } else {
      hide Step, Emitted, Paid;
      var before := events[..|events| - 1];
      RunPays(c, before);
      StepPays(Run(c, before), c, events[|events| - 1], Exits(c, before), Scores(before));
    }
  }

  /** Deadband bound: every exit costs the score sequence a deadband of movement, whatever was filtered or gated. */
  lemma {:induction false} DeadbandBound(c: Config, events: seq<Event>)
    requires 0.0 <= c.deadband
    ensures Exits(c, events) as real * c.deadband <= Variation(Scores(events))
  {
    hide Run, Exits, Scores, Variation;
    RunPays(c, events);
  }

  // ---------- alternation ----------

  /** Even places hold entries, odd ones the exit that undoes the entry just before. */
  ghost predicate InTurn(signals: seq<Stamp>, i: nat)
    requires i < |signals|
  {
    if i % 2 == 0 then signals[i].signal.IsEntry()
    else signals[i - 1].signal.IsEntry() && signals[i].signal == signals[i - 1].signal.Close()
  }

  ghost predicate Alternating(signals: seq<Stamp>) {
    forall i: nat :: i < |signals| ==> InTurn(signals, i)
  }

  /** Signals alternate, each exit undoes the entry before it, and the state is the side that is open. */
  lemma {:induction false} SignalsAlternate(c: Config, events: seq<Event>)
    requires forall i :: 0 <= i < |events| ==> !events[i].Reset?
    ensures var signals := Signals(c, events);
            && Alternating(signals)
            && Run(c, events).state ==
               if |signals| % 2 == 0 then 0 else if signals[|signals| - 1].signal.Long? then 1 else -1
  {
    if events != [] {
      hide Considered;
      var before, ev := events[..|events| - 1], events[|events| - 1];
      SignalsAlternate(c, before);
      var signals, signals' := Signals(c, before), Signals(c, events);
      if |signals| % 2 == 1 {
        assert InTurn(signals, |signals| - 1);
      }
      forall i: nat | i < |signals'|
        ensures InTurn(signals', i)
      {
        assert i < |signals| ==> InTurn(signals, i);
      }
    }
  }

  /** No event takes the engine from one side to the other. */
  lemma NeverFlips(e: Engine, c: Config, ev: Event)
    requires -1 <= e.state <= 1
    ensures -1 <= Step(e, c, ev).state <= 1 && Step(e, c, ev).state * e.state != -1
  {
    hide Considered;
  }

  // ---------- cooldowns ----------

  ghost predicate Apart(signals: seq<Stamp>, entry: bool, ns: nat) {
    forall i, j :: 0 <= i < j < |signals| && signals[i].signal.IsEntry() == signals[j].signal.IsEntry() == entry ==>
      signals[i].ns + ns < signals[j].ns
  }

  ghost predicate NoneAfter(signals: seq<Stamp>, entry: bool, ns: nat) {
    forall i :: 0 <= i < |signals| && signals[i].signal.IsEntry() == entry ==> signals[i].ns <= ns
  }

  function ShorterCooldownMs(c: Config): nat {
    if c.entryCooldownMs <= c.exitCooldownMs then c.entryCooldownMs else c.exitCooldownMs
  }

  ghost predicate Spaced(e: Engine, c: Config, signals: seq<Stamp>, clock: nat) {
    && e.lastEntryNs <= clock && e.lastExitNs <= clock
    && (e.state != 0 ==> e.lastExitNs <= e.lastEntryNs)
    && NoneAfter(signals, true, e.lastEntryNs) && NoneAfter(signals, false, e.lastExitNs)
    && Apart(signals, true, c.entryCooldownMs * NS_PER_MS)
    && Apart(signals, false, ShorterCooldownMs(c) * NS_PER_MS)
  }

  lemma ApartGrows(signals: seq<Stamp>, s: Stamp, entry: bool, ns: nat, last: nat)
    requires Apart(signals, entry, ns) && NoneAfter(signals, entry, last)
    requires s.signal.IsEntry() == entry ==> last + ns < s.ns
    ensures Apart(signals + [s], entry, ns)
    ensures NoneAfter(signals + [s], entry, if s.signal.IsEntry() == entry then s.ns else last)
  {
  }

  /** A signal that was let through comes more than its cooldown after the last of its kind. */
  lemma SignalIsCool(e: Engine, c: Config, ev: Event)
    requires Signalled(e, c, ev).Some? && ev.coolNs <= ev.stampNs
    requires e.state != 0 ==> e.lastExitNs <= e.lastEntryNs
    ensures Signalled(e, c, ev).value.IsEntry() ==>
              e.state == 0 && e.lastEntryNs + c.entryCooldownMs * NS_PER_MS < ev.stampNs
    ensures !Signalled(e, c, ev).value.IsEntry() ==> e.lastExitNs + ShorterCooldownMs(c) * NS_PER_MS < ev.stampNs
  {
    assert ShorterCooldownMs(c) * NS_PER_MS <= c.entryCooldownMs * NS_PER_MS;
    assert ShorterCooldownMs(c) * NS_PER_MS <= c.exitCooldownMs * NS_PER_MS;
  }

  lemma StepIsSpaced(e: Engine, c: Config, ev: Event, signals: seq<Stamp>, clock: nat)
    requires Spaced(e, c, signals, clock)
    requires ev.Evaluate? ==> clock <= ev.staleNs <= ev.coolNs <= ev.stampNs
    ensures var signal := Signalled(e, c, ev);
            Spaced(Step(e, c, ev), c, signals + (if signal.Some? then [Stamp(signal.value, ev.stampNs)] else []),
                   if ev.Evaluate? then ev.stampNs else clock)
  {
    hide Signalled, Apart, NoneAfter, ShorterCooldownMs;
    var signal := Signalled(e, c, ev);
    if signal.Some? {
      SignalledIsEvaluated(e, c, ev);
      SignalIsCool(e, c, ev);
      var s := Stamp(signal.value, ev.stampNs);
      ApartGrows(signals, s, true, c.entryCooldownMs * NS_PER_MS, e.lastEntryNs);
      ApartGrows(signals, s, false, ShorterCooldownMs(c) * NS_PER_MS, e.lastExitNs);
    } else {
      assert signals + [] == signals;
    }
  }

  lemma SignalledIsEvaluated(e: Engine, c: Config, ev: Event)
    requires Signalled(e, c, ev).Some?
    ensures ev.Evaluate?
  {
  }

  lemma {:induction false} RunIsSpaced(c: Config, events: seq<Event>)
    requires Chronological(events)
    ensures Spaced(Run(c, events), c, Signals(c, events), Clock(events))
  {
    if events != [] {
      hide Step, Signalled, Spaced;
      var before := events[..|events| - 1];
      RunIsSpaced(c, before);
      StepIsSpaced(Run(c, before), c, events[|events| - 1], Signals(c, before), Clock(before));
    }
  }

  /**
   Entries are stamped more than the entry cooldown apart, exits more than the shorter cooldown; resets do not matter.
   */
  lemma CooldownsHold(c: Config, events: seq<Event>)
    requires Chronological(events)
    ensures Apart(Signals(c, events), true, c.entryCooldownMs * NS_PER_MS)
    ensures Apart(Signals(c, events), false, ShorterCooldownMs(c) * NS_PER_MS)
  {
    RunIsSpaced(c, events);
  }

  /** How many entries are stamped between two readings of the clock, both included. */
  function EntriesIn(signals: seq<Stamp>, first: nat, last: nat): nat {
    if signals == [] then 0
    else
      var s := signals[|signals| - 1];
      EntriesIn(signals[..|signals| - 1], first, last) + if s.signal.IsEntry() && first <= s.ns <= last then 1 else 0
  }

  /** The entries counted are the signals that open a side and are stamped in between. */
  lemma {:induction false} EntriesAreCounted(signals: seq<Stamp>, first: nat, last: nat)
    ensures EntriesIn(signals, first, last) ==
            |set i | 0 <= i < |signals| && signals[i].signal.IsEntry() && first <= signals[i].ns <= last|
  {
    if signals != [] {
      var front, n := signals[..|signals| - 1], |signals| - 1;
      EntriesAreCounted(front, first, last);
      var fewer := set i | 0 <= i < n && front[i].signal.IsEntry() && first <= front[i].ns <= last;
      var all := set i | 0 <= i < |signals| && signals[i].signal.IsEntry() && first <= signals[i].ns <= last;
      assert all == fewer + if signals[n].signal.IsEntry() && first <= signals[n].ns <= last then {n} else {};
    }
  }

  /** Entries more than `gap` apart: the latest one in a window comes `gap` after its start for each but the first. */
  lemma {:induction false} EntriesNeedTime(signals: seq<Stamp>, gap: nat, first: nat, last: nat) returns (i: nat)
    requires Apart(signals, true, gap) && 1 <= EntriesIn(signals, first, last)
    ensures i < |signals| && signals[i].signal.IsEntry()
    ensures first + (EntriesIn(signals, first, last) - 1) * gap <= signals[i].ns <= last
  {
    var front, s := signals[..|signals| - 1], signals[|signals| - 1];
    var n := EntriesIn(front, first, last);
    i := |signals| - 1;
    if n >= 1 {
      FrontApart(signals, gap);
      var j := EntriesNeedTime(front, gap, first, last);
      assert front[j] == signals[j];
      if s.signal.IsEntry() && first <= s.ns <= last {
        assert signals[j].ns + gap < s.ns;
        OneMoreGap(n - 1, gap);
      } else {
        i := j;
      }
    }
  }

  lemma FrontApart(signals: seq<Stamp>, gap: nat)
    requires signals != [] && Apart(signals, true, gap)
    ensures Apart(signals[..|signals| - 1], true, gap)
  {
  }

  lemma OneMoreGap(n: nat, gap: nat)
    ensures (n + 1) * gap == n * gap + gap
  {
  }

  /** In any window of the clock, entries after the first are rationed by the entry cooldown. */
  lemma EntriesRationed(c: Config, events: seq<Event>, first: nat, last: nat)
    requires Chronological(events)
    ensures var n := EntriesIn(Signals(c, events), first, last);
            n == 0 || first + (n - 1) * (c.entryCooldownMs * NS_PER_MS) <= last
  {
    hide Signals, Chronological, EntriesIn, Apart;
    CooldownsHold(c, events);
    if EntriesIn(Signals(c, events), first, last) != 0 {
      var i := EntriesNeedTime(Signals(c, events), c.entryCooldownMs * NS_PER_MS, first, last);
    }
  }

  // ---------- the position gate ----------

  /** No entry gets out past the position limits, every exit gets out, and a gated entry has still moved the machine. */
  lemma GateStopsOnlyEntries(e: Engine, c: Config, ev: Event)
    requires Signalled(e, c, ev).Some?
    ensures var signal, out := Signalled(e, c, ev), Emitted(e, c, ev);
            && (out.None? <==>
                (signal.value.Long? && c.maxLongUnits <= e.net) || (signal.value.Short? && e.net <= -c.maxShortUnits))
            && (out.Some? ==> out == signal)
            && (signal.value.IsEntry() ==>
                e.state == 0 && Step(e, c, ev).state != 0 && Step(e, c, ev).lastEntryNs == ev.stampNs)
  {
    hide Considered;
  }

  /** What became of a run's entries: returned or lost at the gate; and the resets that met an open side. */
  datatype Tally = Tally(returned: nat, gated: nat, abandoned: nat)

  function Counted(c: Config, events: seq<Event>): Tally {
    if events == [] then Tally(0, 0, 0)
    else
      var before, ev := events[..|events| - 1], events[|events| - 1];
      var t, e := Counted(c, before), Run(c, before);
      var signal := Signalled(e, c, ev);
      if ev.Reset? && e.state != 0 then t.(abandoned := t.abandoned + 1)
      else if signal.None? || !signal.value.IsEntry() then t
      else if Emitted(e, c, ev).Some? then t.(returned := t.returned + 1)
      else t.(gated := t.gated + 1)
  }

  /** The signal of the event at `i`, and what `evaluate` returned for it. */
  function SignalAt(c: Config, events: seq<Event>, i: nat): Option<Signal>
    requires i < |events|
  {
    Signalled(Run(c, events[..i]), c, events[i])
  }

  function ReturnedAt(c: Config, events: seq<Event>, i: nat): Option<Signal>
    requires i < |events|
  {
    Emitted(Run(c, events[..i]), c, events[i])
  }

  /** An entry raised and not returned. */
  predicate GatedAt(c: Config, events: seq<Event>, i: nat)
    requires i < |events|
  {
    IsEntry(SignalAt(c, events, i)) && ReturnedAt(c, events, i).None?
  }

  /** A reset of an open side. */
  predicate OpenReset(c: Config, events: seq<Event>, i: nat)
    requires i < |events|
  {
    events[i] == Reset && Run(c, events[..i]).state != 0
  }

  predicate IsEntry(signal: Option<Signal>) {
    signal == Some(Long) || signal == Some(Short)
  }

  predicate IsExit(signal: Option<Signal>) {
    signal == Some(CloseLong) || signal == Some(CloseShort)
  }

  /** Where an entry was returned. */
  ghost function Returned(c: Config, events: seq<Event>): set<int> {
    set i | 0 <= i < |events| && IsEntry(ReturnedAt(c, events, i))
  }

  /** Where an entry was raised and nothing returned. */
  ghost function Gated(c: Config, events: seq<Event>): set<int> {
    set i | 0 <= i < |events| && GatedAt(c, events, i)
  }

  /** Where an open side was reset. */
  ghost function Abandoned(c: Config, events: seq<Event>): set<int> {
    set i | 0 <= i < |events| && OpenReset(c, events, i)
  }

  /** Where an exit was returned. */
  ghost function Exited(c: Config, events: seq<Event>): set<int> {
    set i | 0 <= i < |events| && IsExit(ReturnedAt(c, events, i))
  }

  /** The tally counts the events at which an entry was returned, or gated, or an open side reset; exits likewise. */
  lemma {:induction false} TallyCounts(c: Config, events: seq<Event>)
    ensures var t := Counted(c, events);
            && t.returned == |Returned(c, events)| && t.gated == |Gated(c, events)|
            && t.abandoned == |Abandoned(c, events)| && Exits(c, events) == |Exited(c, events)|
  {
    if events == [] {
      NothingCounted(c);
    } else {
      hide Counted, Exits, SignalAt, ReturnedAt, OpenReset, GatedAt, IsEntry, IsExit, Returned, Gated;
      hide Abandoned, Exited;
      TallyCounts(c, events[..|events| - 1]);
      TallyStep(c, events);
      ReturnedStep(c, events);
      GatedStep(c, events);
      AbandonedStep(c, events);
      ExitedStep(c, events);
    }
  }

  lemma ReturnedStep(c: Config, events: seq<Event>)
    requires events != []
    ensures var before, n := events[..|events| - 1], |events| - 1;
            |Returned(c, events)| == |Returned(c, before)| + if IsEntry(ReturnedAt(c, events, n)) then 1 else 0
  {
    hide SignalAt, ReturnedAt, IsEntry, IsExit, OpenReset;
    var before, n := events[..|events| - 1], |events| - 1;
    SameBefore(c, events);
    assert Returned(c, events) == Returned(c, before) + if IsEntry(ReturnedAt(c, events, n)) then {n} else {};
  }

  lemma GatedStep(c: Config, events: seq<Event>)
    requires events != []
    ensures var before, n := events[..|events| - 1], |events| - 1;
            |Gated(c, events)| == |Gated(c, before)| + if GatedAt(c, events, n) then 1 else 0
  {
    hide SignalAt, ReturnedAt, IsEntry, IsExit, OpenReset, GatedAt;
    var before, n := events[..|events| - 1], |events| - 1;
    SameBefore(c, events);
    assert Gated(c, events) == Gated(c, before) + if GatedAt(c, events, n) then {n} else {};
  }

  lemma AbandonedStep(c: Config, events: seq<Event>)
    requires events != []
    ensures var before, n := events[..|events| - 1], |events| - 1;
            |Abandoned(c, events)| == |Abandoned(c, before)| + if OpenReset(c, events, n) then 1 else 0
  {
    hide SignalAt, ReturnedAt, IsEntry, IsExit, OpenReset;
    var before, n := events[..|events| - 1], |events| - 1;
    SameBefore(c, events);
    assert Abandoned(c, events) == Abandoned(c, before) + if OpenReset(c, events, n) then {n} else {};
  }

  lemma ExitedStep(c: Config, events: seq<Event>)
    requires events != []
    ensures var before, n := events[..|events| - 1], |events| - 1;
            |Exited(c, events)| == |Exited(c, before)| + if IsExit(ReturnedAt(c, events, n)) then 1 else 0
  {
    hide SignalAt, ReturnedAt, IsEntry, IsExit, OpenReset;
    var before, n := events[..|events| - 1], |events| - 1;
    SameBefore(c, events);
    assert Exited(c, events) == Exited(c, before) + if IsExit(ReturnedAt(c, events, n)) then {n} else {};
  }

  lemma NothingCounted(c: Config)
    ensures Counted(c, []) == Tally(0, 0, 0) && Exits(c, []) == 0
  {
  }

  lemma SameBefore(c: Config, events: seq<Event>)
    requires events != []
    ensures var before := events[..|events| - 1];
            forall i :: 0 <= i < |before| ==>
              && SignalAt(c, events, i) == SignalAt(c, before, i)
              && ReturnedAt(c, events, i) == ReturnedAt(c, before, i)
              && (OpenReset(c, events, i) <==> OpenReset(c, before, i))
              && (GatedAt(c, events, i) <==> GatedAt(c, before, i))
  {
    hide Run, Signalled, Emitted;
    var before := events[..|events| - 1];
    assert forall i :: 0 <= i < |before| ==> before[..i] == events[..i] && before[i] == events[i];
  }

  lemma TallyStep(c: Config, events: seq<Event>)
    requires events != []
    ensures var n := |events| - 1;
            var t, t' := Counted(c, events[..n]), Counted(c, events);
            && t'.returned == t.returned + (if IsEntry(ReturnedAt(c, events, n)) then 1 else 0)
            && t'.gated ==
               t.gated + (if GatedAt(c, events, n) then 1 else 0)
            && t'.abandoned == t.abandoned + (if OpenReset(c, events, n) then 1 else 0)
            && Exits(c, events) == Exits(c, events[..n]) + if IsExit(ReturnedAt(c, events, n)) then 1 else 0
  {
    hide Run, Considered, Raised, Gate;
  }

  /**
   Every entry, returned or gated, is answered by one returned exit, one reset, or is still open:
   so exits outnumber the entries returned exactly by the entries the gate has swallowed and
   neither a reset nor the open side accounts for.
   */
  lemma {:induction false} EntriesAreAnswered(c: Config, events: seq<Event>)
    ensures var t := Counted(c, events);
            && -1 <= Run(c, events).state <= 1
            && t.returned + t.gated == Exits(c, events) + t.abandoned + if Run(c, events).state != 0 then 1 else 0
  {
    if events != [] {
      hide Considered;
      EntriesAreAnswered(c, events[..|events| - 1]);
    }
  }

  /**
   No long units allowed, a high score, and a low one: the entry is gated, the exit comes out, and
   nothing was ever held.
   */
  lemma ExitWithoutEntry()
    ensures var c := Config(0.5, -0.5, 0.1, 0.0, 0, 0, 0, 0.0, 0.0, false);
            var high, low := Evaluate(Prediction(1, 1.0, 0.9), 1, 1, 1), Evaluate(Prediction(2, 1.0, 0.2), 2, 2, 2);
            && Chronological([high, low])
            && Emitted(Run(c, []), c, high) == None
            && Emitted(Run(c, [high]), c, low) == Some(CloseLong)
            && Counted(c, [high, low]) == Tally(0, 1, 0) && Exits(c, [high, low]) == 1
  {
    var c := Config(0.5, -0.5, 0.1, 0.0, 0, 0, 0, 0.0, 0.0, false);
    var high, low := Evaluate(Prediction(1, 1.0, 0.9), 1, 1, 1), Evaluate(Prediction(2, 1.0, 0.2), 2, 2, 2);
    assert [high][..0] == [] && [high, low][..1] == [high];
    assert Run(c, [high]) == Engine(1, 1, 0, 0.0);
    assert Chronological([]) && Chronological([high]);
    assert Counted(c, [high]) == Tally(0, 1, 0) && Exits(c, [high]) == 0;
  }

  // ---------- the simple form ----------

  function Filtered(state: int, deadband: real, score: real, longThreshold: real, shortThreshold: real): int {
    if state == 0 then
      if score > longThreshold then 1 else if score < shortThreshold then -1 else 0
    else if state == 1 then
      if score < longThreshold - deadband then 0 else 1
    else if state == -1 then
      if score > shortThreshold + deadband then 0 else -1
    else 0
  }

  class HysteresisFilter {
    const deadband: real
    var state: int

    constructor (deadband: real)
      ensures this.deadband == deadband && state == 0
    {
      this.deadband := deadband;
      state := 0;
    }

    method Evaluate(score: real, longThreshold: real, shortThreshold: real) returns (result: int)
      requires -1 <= state <= 1
      modifies this
      ensures result == state == Filtered(old(state), deadband, score, longThreshold, shortThreshold)
      ensures -1 <= state <= 1 && old(state) * state != -1
      ensures state != old(state) == 1 ==> score < longThreshold - deadband
      ensures state != old(state) == -1 ==> score > shortThreshold + deadband
      ensures forall c: Config {:trigger Raised(old(state), c, score)} ::
                && c.allowShort && c.deadband == deadband
                && c.longEntry == longThreshold && c.shortEntry == shortThreshold ==>
                  state == StateAfter(old(state), Raised(old(state), c, score))
    {
      if state == 0 {
        if score > longThreshold {
          state := 1;
        } else if score < shortThreshold {
          state := -1;
        }
      } else if state == 1 {
        if score < longThreshold - deadband {
          state := 0;
        }
      } else {
        if score > shortThreshold + deadband {
          state := 0;
        }
      }
      result := state;
    }
  }

  /** The engine's machine and the plain filter move alike on a score exactly when no forbidden short is asked for. */
  lemma AgreesWithFilter(state: int, c: Config, score: real)
    requires -1 <= state <= 1
    ensures StateAfter(state, Raised(state, c, score)) == Filtered(state, c.deadband, score, c.longEntry, c.shortEntry)
            <==> c.allowShort || !(state == 0 && score < c.shortEntry && score <= c.longEntry)
  {
  }

  /** The state of a filter of its own deadband that was fed these scores at fixed thresholds. */
  function FilteredRun(c: Config, scores: seq<real>): int {
    if scores == [] then 0
    else Filtered(FilteredRun(c, scores[..|scores| - 1]), c.deadband, scores[|scores| - 1], c.longEntry, c.shortEntry)
  }

  /** How often it came back to neutral. */
  function Returns(c: Config, scores: seq<real>): nat {
    if scores == [] then 0
    else
      var before := scores[..|scores| - 1];
      Returns(c, before) + if FilteredRun(c, before) != 0 && FilteredRun(c, scores) == 0 then 1 else 0
  }

  /** An engine that lets every prediction through: no cooldown, any confidence and position, shorts allowed. */
  function Open(c: Config): Config {
    c.(confidenceMinimum := 0.0, entryCooldownMs := 0, exitCooldownMs := 0, stalenessNs := 0, allowShort := true)
  }

  /** One fresh prediction a nanosecond. */
  function Fed(scores: seq<real>): seq<Event> {
    if scores == [] then []
    else
      var now := |scores|;
      Fed(scores[..now - 1]) + [Evaluate(Prediction(now, 1.0, scores[now - 1]), now, now, now)]
  }

  /** One prediction fed to an open engine whose stamps lie in the past moves it as the filter would move. */
  lemma OpenStep(e: Engine, c: Config, score: real, now: nat)
    requires -1 <= e.state <= 1 && e.lastEntryNs < now && e.lastExitNs < now
    ensures var ev := Evaluate(Prediction(now, 1.0, score), now, now, now);
            var e', out := Step(e, Open(c), ev), Emitted(e, Open(c), ev);
            && e'.state == Filtered(e.state, c.deadband, score, c.longEntry, c.shortEntry) && -1 <= e'.state <= 1
            && e'.lastEntryNs <= now && e'.lastExitNs <= now
            && (out.Some? && !out.value.IsEntry() <==> e.state != 0 && e'.state == 0)
  {
    assert CooledDown(e, Open(c), score, now);
  }

  /**
   The filter is the engine with everything let through: it stands where that engine does, and its returns are the
   exits.
   */
  lemma {:induction false} FilterIsOpenEngine(c: Config, scores: seq<real>)
    ensures var e := Run(Open(c), Fed(scores));
            && e.state == FilteredRun(c, scores) && -1 <= e.state <= 1
            && Exits(Open(c), Fed(scores)) == Returns(c, scores)
            && Scores(Fed(scores)) == scores
            && e.lastEntryNs <= |scores| && e.lastExitNs <= |scores|
  {
    if scores == [] {
      NothingFed(Open(c));
    } else {
      hide Filtered, Step, Emitted, Open, Run, Exits, Scores, Fed, FilteredRun, Returns;
      var before, now := scores[..|scores| - 1], |scores|;
      var ev := Evaluate(Prediction(now, 1.0, scores[now - 1]), now, now, now);
      OneMoreScore(c, scores);
      FilterIsOpenEngine(c, before);
      RunStep(Open(c), Fed(before), ev);
      ExitsStep(Open(c), Fed(before), ev);
      OpenStep(Run(Open(c), Fed(before)), c, scores[now - 1], now);
    }
  }

  lemma OneMoreScore(c: Config, scores: seq<real>)
    requires scores != []
    ensures var now := |scores|;
            var before, score := scores[..now - 1], scores[now - 1];
            && FilteredRun(c, scores) == Filtered(FilteredRun(c, before), c.deadband, score, c.longEntry, c.shortEntry)
            && Returns(c, scores) ==
               Returns(c, before) + (if FilteredRun(c, before) != 0 && FilteredRun(c, scores) == 0 then 1 else 0)
            && Fed(scores) == Fed(before) + [Evaluate(Prediction(now, 1.0, score), now, now, now)]
            && scores == before + [score]
  {
    hide Filtered;
  }

  lemma NothingFed(c: Config)
    ensures Run(c, []) == NEW_ENGINE && Exits(c, []) == 0 && Scores([]) == [] && Fed([]) == []
  {
  }

  /** So each return of the filter costs the scores a deadband of movement. */
  lemma FilterDeadbandBound(c: Config, scores: seq<real>)
    requires 0.0 <= c.deadband
    ensures Returns(c, scores) as real * c.deadband <= Variation(scores)
  {
    hide *;
    FilterIsOpenEngine(c, scores);
    OpenKeepsDeadband(c);
    DeadbandBound(Open(c), Fed(scores));
  }

  lemma OpenKeepsDeadband(c: Config)
    ensures Open(c).deadband == c.deadband
  {
  }

  // ---------- the engine ----------

  class StrategyEngine {
    const config: Config
    var hysteresisState: int
    var lastEntryNs: nat
    var lastExitNs: nat
    var netPosition: real
    ghost var events: seq<Event>

    function Fields(): Engine
      reads this
    {
      Engine(hysteresisState, lastEntryNs, lastExitNs, netPosition)
    }

    ghost predicate Valid()
      reads this
    {
      Fields() == Run(config, events)
    }

    constructor (config: Config)
      ensures Valid() && events == [] && this.config == config
    {
      this.config := config;
      hysteresisState, lastEntryNs, lastExitNs, netPosition, events := 0, 0, 0, 0.0, [];
    }

    method Evaluate(p: Prediction, staleNs: nat, coolNs: nat, stampNs: nat) returns (intent: Option<Signal>)
      requires Valid()
      modifies this
      ensures Valid() && events == old(events) + [Event.Evaluate(p, staleNs, coolNs, stampNs)]
      ensures intent == Emitted(old(Fields()), config, Event.Evaluate(p, staleNs, coolNs, stampNs))
      ensures intent.Some? ==> staleNs <= p.computedNs + config.stalenessNs && config.confidenceMinimum <= p.confidence
      ensures intent == Some(Long) ==> old(netPosition) < config.maxLongUnits
      ensures intent == Some(Short) ==> config.allowShort && -config.maxShortUnits < old(netPosition)
    {
      hide Run;
      RunStep(config, events, Event.Evaluate(p, staleNs, coolNs, stampNs));
      events := events + [Event.Evaluate(p, staleNs, coolNs, stampNs)];
      if SaturatingSub(staleNs, p.computedNs) > config.stalenessNs {
        return None;
      }
      if p.confidence < config.confidenceMinimum {
        return None;
      }
      var cool := CheckCooldownForScore(p.score, coolNs);
      if !cool {
        return None;
      }
      intent := ApplyHysteresis(p.score, stampNs);
      if intent.Some? {
        var open := CheckPositionGate(intent.value);
        if !open {
          intent := None;
        }
      }
    }

    method CheckCooldownForScore(score: real, now: nat) returns (cool: bool)
      ensures cool <==> CooledDown(Fields(), config, score, now)
    {
      if score > config.longEntry {
        cool := SaturatingSub(now, lastEntryNs) > config.entryCooldownMs * NS_PER_MS;
      } else if score < config.shortEntry {
        cool := SaturatingSub(now, lastEntryNs) > config.entryCooldownMs * NS_PER_MS;
      } else {
        cool := SaturatingSub(now, lastExitNs) > config.exitCooldownMs * NS_PER_MS;
      }
    }

    method ApplyHysteresis(score: real, now: nat) returns (intent: Option<Signal>)
      modifies `hysteresisState, `lastEntryNs, `lastExitNs
      ensures intent == Raised(old(hysteresisState), config, score)
      ensures Fields() == Stamped(old(Fields()), intent, now)
    {
      intent := None;
      if hysteresisState == 0 {
        if score > config.longEntry {
          hysteresisState, lastEntryNs := 1, now;
          intent := Some(Long);
        } else if score < config.shortEntry && config.allowShort {
          hysteresisState, lastEntryNs := -1, now;
          intent := Some(Short);
        }
      } else if hysteresisState == 1 {
        if score < config.longEntry - config.deadband {
          hysteresisState, lastExitNs := 0, now;
          intent := Some(CloseLong);
        }
      } else if hysteresisState == -1 {
        if score > config.shortEntry + config.deadband {
          hysteresisState, lastExitNs := 0, now;
          intent := Some(CloseShort);
        }
      }
    }

    method CheckPositionGate(signal: Signal) returns (open: bool)
      ensures open <==> Gate(Fields(), config, signal)
    {
      match signal
      case Long => open := netPosition < config.maxLongUnits;
      case Short => open := config.allowShort && netPosition > -config.maxShortUnits;
      case _ => open := true;
    }

    method UpdatePosition(delta: real)
      requires Valid()
      modifies this
      ensures Valid() && events == old(events) + [Event.UpdatePosition(delta)]
      ensures netPosition == old(netPosition) + delta
    {
      RunStep(config, events, Event.UpdatePosition(delta));
      events := events + [Event.UpdatePosition(delta)];
      netPosition := netPosition + delta;
    }

    method ResetHysteresis()
      requires Valid()
      modifies this
      ensures Valid() && events == old(events) + [Reset]
      ensures hysteresisState == 0 && netPosition == old(netPosition)
    {
      RunStep(config, events, Reset);
      events := events + [Reset];
      hysteresisState := 0;
    }
  }
}
