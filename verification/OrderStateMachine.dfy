/** The life of one order: which events it accepts, the log it keeps, and the average price of its fills. */
module OrderMachine {
  import opened Text

  datatype State = Pending | Submitted | PartiallyFilled | Filled | Cancelled | Rejected | Expired | Replaced

  datatype Event =
    | Submit
    | PartialFill(qty: real, price: real)
    | FullFill(qty: real, price: real)
    | Cancel
    | Reject(reason: string)
    | Expire
    | Replace
  {
    predicate IsFill() {
      PartialFill? || FullFill?
    }
  }

  datatype Entry = Entry(from: State, to: State, event: Event, timestampNs: nat)

  datatype Result = Ok(state: State) | Err(from: State, to: State, event: Event)

  datatype Machine = Machine(
    state: State, filled: real, avg: real, lastNs: nat, reason: Option<string>,
    metadataCount: nat, counter: nat, log: seq<Entry>)

  const NEW_MACHINE := Machine(Pending, 0.0, 0.0, 0, None, 0, 0, [])

  datatype Timed = Timed(event: Event, ns: nat)

  function AllowedTransitions(s: State): set<State> {
    match s
    case Pending => {Submitted, Rejected}
    case Submitted => {PartiallyFilled, Filled, Cancelled, Rejected}
    case PartiallyFilled => {PartiallyFilled, Filled, Cancelled}
    case _ => {}
  }

  predicate CanTransition(from: State, to: State) {
    to in AllowedTransitions(from)
  }

  predicate IsTerminal(s: State) {
    s.Filled? || s.Cancelled? || s.Rejected? || s.Expired? || s.Replaced?
  }

  predicate IsActive(s: State) {
    s.Pending? || s.Submitted? || s.PartiallyFilled?
  }

  function Target(e: Event): State {
    match e
    case Submit => Submitted
    case PartialFill(_, _) => PartiallyFilled
    case FullFill(_, _) => Filled
    case Cancel => Cancelled
    case Reject(_) => Rejected
    case Expire => Expired
    case Replace => Replaced
  }

  function Paid(qty: real, price: real): real {
    qty * price
  }

  /** The average price of what was filled before and what is filled now. */
  function Blend(avg: real, filled: real, price: real, qty: real): real
    requires filled + qty > 0.0
  {
    (avg * filled + price * qty) / (filled + qty)
  }

  /** The average after one more fill; an empty total leaves nothing to average. */
  function AverageAfter(m: Machine, e: Event): real
    requires e.IsFill()
  {
    if m.filled + e.qty > 0.0 then Blend(m.avg, m.filled, e.price, e.qty)
    else if e.PartialFill? then 0.0 else e.price
  }

  function WithMetadata(m: Machine, e: Event, ns: nat): Machine {
    var m' := m.(lastNs := ns);
    match e
    case PartialFill(qty, _) => m'.(avg := AverageAfter(m, e), filled := m.filled + qty)
    case FullFill(qty, _) => m'.(avg := AverageAfter(m, e), filled := m.filled + qty)
    case Reject(reason) => m'.(reason := Some(reason))
    case _ => m'
  }

  /** The machine after an event; one that is refused changes nothing. */
  function Applied(m: Machine, e: Event, ns: nat): Machine {
    if !CanTransition(m.state, Target(e)) then m
    else
      WithMetadata(m, e, ns).(
      state := Target(e), metadataCount := m.metadataCount + 1, counter := m.counter + 1,
      log := m.log + [Entry(m.state, Target(e), e, ns)])
  }

  function Run(events: seq<Timed>): Machine {
    if events == [] then NEW_MACHINE
    else
      var last := events[|events| - 1];
      Applied(Run(events[..|events| - 1]), last.event, last.ns)
  }

  lemma RunStep(events: seq<Timed>, t: Timed)
    ensures Run(events + [t]) == Applied(Run(events), t.event, t.ns)
  {
    assert (events + [t])[..|events|] == events;
  }

  // ---------- the language of accepted events ----------

  /** Every event of the word is accepted by a machine that has accepted the ones before it. */
  ghost predicate Accepted(word: seq<Event>) {
    forall i :: 0 <= i < |word| ==> CanTransition(StateAfter(word[..i]), Target(word[i]))
  }

  function StateAfter(word: seq<Event>): State {
    if word == [] then Pending else Target(word[|word| - 1])
  }

  /**
   A whole life: Submit, then any number of partial fills, then a full fill or a cancel; or a rejection, before or
   after Submit.
   */
  ghost predicate WholeLife(word: seq<Event>) {
    || (|word| == 1 && word[0].Reject?)
    || (|word| == 2 && word[0].Submit? && word[1].Reject?)
    || (&& |word| >= 2 && word[0].Submit?
        && (word[|word| - 1].FullFill? || word[|word| - 1].Cancel?)
        && forall i :: 1 <= i < |word| - 1 ==> word[i].PartialFill?)
  }

  ghost predicate Completes(word: seq<Event>, life: seq<Event>) {
    word <= life && WholeLife(life)
  }

  lemma LivesAreAccepted(word: seq<Event>, life: seq<Event>)
    requires Completes(word, life)
    ensures Accepted(word)
  {
    forall i | 0 <= i < |word|
      ensures CanTransition(StateAfter(word[..i]), Target(word[i]))
    {
      assert word[i] == life[i];
      if i > 0 {
        assert word[..i][i - 1] == life[i - 1];
      }
    }
  }

  /** How an accepted word can be brought to its end. */
  function Completion(word: seq<Event>): seq<Event> {
    match StateAfter(word)
    case Pending => [Submit, Cancel]
    case Submitted => word + [Cancel]
    case PartiallyFilled => word + [Cancel]
    case _ => word
  }

  lemma {:induction false} AcceptedWordsHaveShape(word: seq<Event>)
    requires Accepted(word) && |word| >= 2
    ensures word[0].Submit?
    ensures forall i :: 1 <= i < |word| - 1 ==> word[i].PartialFill?
    ensures var last := word[|word| - 1];
            last.PartialFill? || last.FullFill? || last.Cancel? || (|word| == 2 && last.Reject?)
  {
    assert CanTransition(StateAfter(word[..0]), Target(word[0]));
    assert CanTransition(StateAfter(word[..1]), Target(word[1]));
    assert word[..1][0] == word[0];
    if |word| > 2 {
      var front := word[..|word| - 1];
      assert forall i :: 0 <= i < |front| ==> front[..i] == word[..i];
      AcceptedWordsHaveShape(front);
      assert CanTransition(StateAfter(front), Target(word[|word| - 1]));
    }
  }

  lemma AcceptedWordsComplete(word: seq<Event>)
    requires Accepted(word)
    ensures Completes(word, Completion(word))
  {
    if |word| >= 2 {
      AcceptedWordsHaveShape(word);
    } else if |word| == 1 {
      assert CanTransition(StateAfter(word[..0]), Target(word[0]));
    }
  }

  /** The words a machine accepts are exactly the prefixes of whole lives. */
  lemma AcceptedIsPrefixOfLife(word: seq<Event>)
    ensures Accepted(word) <==> exists life :: Completes(word, life)
  {
    if Accepted(word) {
      AcceptedWordsComplete(word);
    }
    if life :| Completes(word, life) {
      LivesAreAccepted(word, life);
    }
  }

  // ---------- the log ----------

  function Events(log: seq<Entry>): seq<Event> {
    if log == [] then [] else Events(log[..|log| - 1]) + [log[|log| - 1].event]
  }

  /** The step recorded at place `i` is allowed and starts where the one before ended. */
  ghost predicate Linked(log: seq<Entry>, i: nat)
    requires i < |log|
  {
    && log[i].to == Target(log[i].event)
    && CanTransition(log[i].from, log[i].to)
    && log[i].from == if i == 0 then Pending else log[i - 1].to
  }

  /** The log is a chain of allowed steps from Pending to the state, as long as both counters say. */
  ghost predicate Chained(m: Machine) {
    && |m.log| == m.metadataCount == m.counter
    && (forall i: nat :: i < |m.log| ==> Linked(m.log, i))
    && m.state == if m.log == [] then Pending else m.log[|m.log| - 1].to
  }

  lemma {:induction false} EventsOf(log: seq<Entry>)
    ensures |Events(log)| == |log| && forall i :: 0 <= i < |log| ==> Events(log)[i] == log[i].event
  {
    if log != [] {
      EventsOf(log[..|log| - 1]);
    }
  }

  lemma AppliedIsChained(m: Machine, e: Event, ns: nat)
    requires Chained(m)
    ensures Chained(Applied(m, e, ns))
  {
    hide AverageAfter, CanTransition;
    var m' := Applied(m, e, ns);
    forall i: nat | i < |m'.log|
      ensures Linked(m'.log, i)
    {
      assert i < |m.log| ==> Linked(m.log, i);
    }
  }

  /** For every sequence of events, accepted or refused: the log is a chain whose events are an accepted word. */
  lemma {:induction false} LogIsChain(events: seq<Timed>)
    ensures var m := Run(events);
            && Chained(m) && Accepted(Events(m.log)) && !m.state.Expired? && !m.state.Replaced?
  {
    if events != [] {
      hide Applied;
      var last := events[|events| - 1];
      LogIsChain(events[..|events| - 1]);
      AppliedIsChained(Run(events[..|events| - 1]), last.event, last.ns);
    }
    ChainIsAccepted(Run(events));
  }

  lemma ChainIsAccepted(m: Machine)
    requires Chained(m)
    ensures Accepted(Events(m.log)) && !m.state.Expired? && !m.state.Replaced?
  {
    hide CanTransition, Events;
    EventsOf(m.log);
    var word := Events(m.log);
    forall i | 0 <= i < |word|
      ensures CanTransition(StateAfter(word[..i]), Target(word[i]))
    {
      assert Linked(m.log, i);
      if i > 0 {
        assert Linked(m.log, i - 1);
        assert word[..i][i - 1] == m.log[i - 1].event;
      }
    }
    if m.log != [] {
      assert Linked(m.log, |m.log| - 1);
      OnlyOrdinaryTargets(m.log[|m.log| - 1].from, m.state);
    }
  }

  lemma OnlyOrdinaryTargets(from: State, to: State)
    ensures CanTransition(from, to) ==> !to.Expired? && !to.Replaced?
  {
  }

  /** Once terminal, a machine refuses everything. */
  lemma TerminalIsFinal(m: Machine, e: Event, ns: nat)
    ensures IsTerminal(m.state) ==> Applied(m, e, ns) == m
    ensures IsTerminal(m.state) <==> !IsActive(m.state)
  {
  }

  function WordOf(events: seq<Timed>): seq<Event> {
    seq(|events|, i requires 0 <= i < |events| => events[i].event)
  }

  lemma AcceptedOneMore(word: seq<Event>, e: Event)
    ensures Accepted(word + [e]) <==> Accepted(word) && CanTransition(StateAfter(word), Target(e))
  {
    hide CanTransition, StateAfter;
    var longer := word + [e];
    assert longer[..|word|] == word;
    assert forall i :: 0 <= i < |word| ==> longer[..i] == word[..i] && longer[i] == word[i];
    if Accepted(longer) {
      forall i | 0 <= i < |word|
        ensures CanTransition(StateAfter(word[..i]), Target(word[i]))
      {
        assert CanTransition(StateAfter(longer[..i]), Target(longer[i]));
      }
      assert CanTransition(StateAfter(longer[..|word|]), Target(longer[|word|]));
    }
  }

  /** A machine run on timed events logs all of them, that is refuses none, exactly if their word is accepted. */
  lemma {:induction false} AcceptedIsLogged(events: seq<Timed>)
    ensures var m := Run(events);
            && |m.log| <= |events|
            && (|m.log| == |events| <==> Accepted(WordOf(events)))
            && (|m.log| == |events| ==> m.state == StateAfter(WordOf(events)))
  {
    if events != [] {
      hide CanTransition, WithMetadata, Accepted, Target;
      var before, last := events[..|events| - 1], events[|events| - 1];
      AcceptedIsLogged(before);
      assert WordOf(events) == WordOf(before) + [last.event];
      AcceptedOneMore(WordOf(before), last.event);
    } else {
      assert Accepted(WordOf([]));
    }
  }

  /** So a machine takes a sequence of events without a refusal exactly if it is the beginning of a whole life. */
  lemma MachineTakesLives(events: seq<Timed>)
    ensures |Run(events).log| == |events| <==> exists life :: Completes(WordOf(events), life)
  {
    hide Run, Accepted, Completes;
    AcceptedIsLogged(events);
    AcceptedIsPrefixOfLife(WordOf(events));
  }

  // ---------- the fills ----------

  function FilledIn(log: seq<Entry>): real {
    if log == [] then 0.0
    else
      var e := log[|log| - 1].event;
      FilledIn(log[..|log| - 1]) + if e.IsFill() then e.qty else 0.0
  }

  function PaidIn(log: seq<Entry>): real {
    if log == [] then 0.0
    else
      var e := log[|log| - 1].event;
      PaidIn(log[..|log| - 1]) + if e.IsFill() then Paid(e.qty, e.price) else 0.0
  }

  ghost predicate NonNegativeFills(log: seq<Entry>) {
    forall i :: 0 <= i < |log| ==> log[i].event.IsFill() ==> 0.0 <= log[i].event.qty
  }

  ghost predicate PricesWithin(log: seq<Entry>, low: real, high: real) {
    forall i :: 0 <= i < |log| ==> log[i].event.IsFill() ==> low <= log[i].event.price <= high
  }

  /** The running total and average are those of the fills in the log. */
  ghost predicate Weighted(m: Machine) {
    && m.filled == FilledIn(m.log)
    && Paid(m.filled, m.avg) == PaidIn(m.log)
  }

  lemma BlendTimesTotal(avg: real, filled: real, price: real, qty: real)
    requires filled + qty > 0.0
    ensures Paid(filled + qty, Blend(avg, filled, price, qty)) == Paid(filled, avg) + Paid(qty, price)
  {
    assert (filled + qty) * ((avg * filled + price * qty) / (filled + qty)) == avg * filled + price * qty;
  }

  lemma AverageTimesTotal(m: Machine, e: Event)
    requires e.IsFill() && 0.0 <= m.filled && 0.0 <= e.qty
    ensures Paid(m.filled + e.qty, AverageAfter(m, e)) == Paid(m.filled, m.avg) + Paid(e.qty, e.price)
  {
    if m.filled + e.qty > 0.0 {
      BlendTimesTotal(m.avg, m.filled, e.price, e.qty);
    } else {
      assert m.filled == 0.0 && e.qty == 0.0;
      assert forall price :: Paid(0.0, price) == 0.0;
    }
  }

  /** The machine is where the log says: its state, the quantity filled, the reason given, the last time. */
  lemma LogTellsState(events: seq<Timed>)
    ensures var m := Run(events);
            && m.filled == FilledIn(m.log)
            && (if m.log == [] then m.lastNs == 0 && m.reason == None && m.state == Pending
                else
                  var last := m.log[|m.log| - 1];
                  && m.lastNs == last.timestampNs
                  && m.reason == (if last.event.Reject? then Some(last.event.reason) else None)
                  && (m.state == Submitted <==> last.event == Submit)
                  && (m.state == PartiallyFilled <==> last.event.PartialFill?)
                  && (m.state == Filled <==> last.event.FullFill?) && (m.state == Cancelled <==> last.event == Cancel)
                  && (m.state == Rejected <==> last.event.Reject?) && (m.state == Expired <==> last.event == Expire)
                  && (m.state == Replaced <==> last.event == Replace))
  {
    hide Run, FilledIn, CanTransition;
    var m := Run(events);
    RunTells(events);
    LogIsChain(events);
    if m.log != [] {
      assert Linked(m.log, |m.log| - 1);
    }
  }

  ghost predicate Tells(m: Machine) {
    && m.filled == FilledIn(m.log)
    && (m.log == [] ==> m.lastNs == 0 && m.reason == None)
    && (m.log != [] ==>
          var last := m.log[|m.log| - 1];
          && m.lastNs == last.timestampNs
          && m.reason == if last.event.Reject? then Some(last.event.reason) else None)
  }

  lemma {:induction false} RunTells(events: seq<Timed>)
    ensures Tells(Run(events))
  {
    if events != [] {
      hide Applied, Tells, Chained;
      var before, last := events[..|events| - 1], events[|events| - 1];
      RunTells(before);
      LogIsChain(before);
      AppliedTells(Run(before), last.event, last.ns);
    }
  }

  lemma AppliedTells(m: Machine, e: Event, ns: nat)
    requires Chained(m) && Tells(m)
    ensures Tells(Applied(m, e, ns))
  {
    hide Applied, FilledIn, CanTransition, Chained;
    LogGrows(m.log, Entry(m.state, Target(e), e, ns));
    AppliedShows(m, e, ns);
    RejectedIsFinal(m);
  }

  /** What an event leaves in the fields beside the average. */
  lemma AppliedShows(m: Machine, e: Event, ns: nat)
    ensures var m' := Applied(m, e, ns);
            if !CanTransition(m.state, Target(e)) then m' == m
            else
              && m'.log == m.log + [Entry(m.state, Target(e), e, ns)] && m'.lastNs == ns && m'.state == Target(e)
              && m'.filled == m.filled + (if e.IsFill() then e.qty else 0.0)
              && m'.reason == if e.Reject? then Some(e.reason) else m.reason
  {
    hide AverageAfter, CanTransition;
  }

  /** The average after a fill: weighted by volume, or, when nothing is filled in all, 0 or the price of the last. */
  lemma AverageInFigures(m: Machine, e: Event)
    requires e.IsFill()
    ensures var avg, total := AverageAfter(m, e), m.filled + e.qty;
            if 0.0 < total then avg * total == m.avg * m.filled + e.price * e.qty
            else avg == if e.FullFill? then e.price else 0.0
  {
    if 0.0 < m.filled + e.qty {
      BlendTimesTotal(m.avg, m.filled, e.price, e.qty);
    }
  }

  lemma RejectedIsFinal(m: Machine)
    requires Chained(m)
    ensures m.log != [] && m.log[|m.log| - 1].event.Reject? ==> forall to :: !CanTransition(m.state, to)
  {
    if m.log != [] {
      assert Linked(m.log, |m.log| - 1);
    }
  }

  lemma {:induction false} FilledIsNonNegative(log: seq<Entry>)
    requires NonNegativeFills(log)
    ensures 0.0 <= FilledIn(log)
  {
    if log != [] {
      FilledIsNonNegative(log[..|log| - 1]);
    }
  }

  lemma LogGrows(log: seq<Entry>, entry: Entry)
    ensures var e := entry.event;
            && FilledIn(log + [entry]) == FilledIn(log) + (if e.IsFill() then e.qty else 0.0)
            && PaidIn(log + [entry]) == PaidIn(log) + (if e.IsFill() then Paid(e.qty, e.price) else 0.0)
            && (NonNegativeFills(log + [entry]) <==> NonNegativeFills(log) && (e.IsFill() ==> 0.0 <= e.qty))
  {
    hide Paid;
    var log' := log + [entry];
    assert log'[..|log|] == log && log'[|log|] == entry;
    assert forall i :: 0 <= i < |log| ==> log'[i] == log[i];
  }

  lemma AppliedIsWeighted(m: Machine, e: Event, ns: nat)
    requires Weighted(m) && NonNegativeFills(Applied(m, e, ns).log)
    ensures Weighted(Applied(m, e, ns))
  {
    if CanTransition(m.state, Target(e)) {
      hide AverageAfter, Paid, CanTransition, FilledIn, PaidIn, NonNegativeFills;
      LogGrows(m.log, Entry(m.state, Target(e), e, ns));
      FilledIsNonNegative(m.log);
      if e.IsFill() {
        AverageTimesTotal(m, e);
      }
    }
  }

  /**
   For non-negative fills the total is the sum of quantities, and average times total the sum of quantity times price.
   */
  lemma {:induction false} AverageIsVolumeWeighted(events: seq<Timed>)
    requires NonNegativeFills(Run(events).log)
    ensures Weighted(Run(events))
  {
    if events == [] {
      assert Paid(0.0, 0.0) == 0.0;
    } else {
      hide Applied, Weighted, NonNegativeFills;
      var last := events[|events| - 1];
      LogPrefix(Run(events[..|events| - 1]), last.event, last.ns);
      AverageIsVolumeWeighted(events[..|events| - 1]);
      AppliedIsWeighted(Run(events[..|events| - 1]), last.event, last.ns);
    }
  }

  lemma LogPrefix(m: Machine, e: Event, ns: nat)
    requires NonNegativeFills(Applied(m, e, ns).log)
    ensures NonNegativeFills(m.log)
  {
    hide AverageAfter;
    LogGrows(m.log, Entry(m.state, Target(e), e, ns));
  }

  lemma {:induction false} PaidWithinPrices(log: seq<Entry>, low: real, high: real)
    requires NonNegativeFills(log) && PricesWithin(log, low, high)
    ensures Paid(FilledIn(log), low) <= PaidIn(log) <= Paid(FilledIn(log), high)
  {
    if log == [] {
      assert Paid(0.0, low) == 0.0 && Paid(0.0, high) == 0.0;
    } else {
      hide Paid;
      var rest, e := log[..|log| - 1], log[|log| - 1].event;
      PaidWithinPrices(rest, low, high);
      if e.IsFill() {
        PaidAdds(FilledIn(rest), e.qty, low);
        PaidAdds(FilledIn(rest), e.qty, high);
        PaidGrows(e.qty, low, e.price);
        PaidGrows(e.qty, e.price, high);
      }
    }
  }

  lemma PaidAdds(a: real, b: real, price: real)
    ensures Paid(a + b, price) == Paid(a, price) + Paid(b, price)
  {
  }

  lemma PaidGrows(qty: real, low: real, high: real)
    requires 0.0 <= qty && low <= high
    ensures Paid(qty, low) <= Paid(qty, high)
  {
    assert qty * (high - low) >= 0.0;
  }

  /** The average lies within any bounds that all fill prices keep, so between the least and the greatest of them. */
  lemma AverageWithinPrices(events: seq<Timed>, low: real, high: real)
    requires var m := Run(events);
             NonNegativeFills(m.log) && PricesWithin(m.log, low, high) && 0.0 < m.filled
    ensures low <= Run(events).avg <= high
  {
    hide Run, NonNegativeFills, PricesWithin, FilledIn, PaidIn, Paid;
    var m := Run(events);
    AverageIsVolumeWeighted(events);
    PaidWithinPrices(m.log, low, high);
    if m.avg < low {
      PaidGrowsStrictly(m.filled, m.avg, low);
    }
    if high < m.avg {
      PaidGrowsStrictly(m.filled, high, m.avg);
    }
  }

  lemma PaidGrowsStrictly(qty: real, low: real, high: real)
    requires 0.0 < qty && low < high
    ensures Paid(qty, low) < Paid(qty, high)
  {
    assert qty * (high - low) > 0.0;
  }

  // ---------- the machine ----------

  class OrderStateMachine {
    var currentState: State
    var totalFilledQty: real
    var avgFillPrice: real
    var lastEventTimestampNs: nat
    var rejectionReason: Option<string>
    var metadataTransitionCount: nat
    var transitionCount: nat
    var transitionLog: seq<Entry>
    ghost var events: seq<Timed>

    function Fields(): Machine
      reads this
    {
      Machine(currentState, totalFilledQty, avgFillPrice, lastEventTimestampNs, rejectionReason,
              metadataTransitionCount, transitionCount, transitionLog)
    }

    ghost predicate Valid()
      reads this
    {
      Fields() == Run(events)
    }

    constructor ()
      ensures Valid() && events == [] && Fields() == NEW_MACHINE
      ensures currentState == Pending && totalFilledQty == avgFillPrice == 0.0 && lastEventTimestampNs == 0
      ensures rejectionReason == None && metadataTransitionCount == transitionCount == 0 && transitionLog == []
    {
      currentState, totalFilledQty, avgFillPrice, lastEventTimestampNs := Pending, 0.0, 0.0, 0;
      rejectionReason, metadataTransitionCount, transitionCount, transitionLog := None, 0, 0, [];
      events := [];
    }

    method ApplyEvent(event: Event, timestampNs: nat) returns (result: Result)
      requires Valid()
      modifies this
      ensures Valid() && events == old(events) + [Timed(event, timestampNs)]
      ensures Fields() == Applied(old(Fields()), event, timestampNs)
      ensures result == if CanTransition(old(currentState), Target(event)) then Ok(Target(event))
                        else Err(old(currentState), Target(event), event)
      ensures event == Expire ==> result == Err(old(currentState), Expired, Expire)
      ensures event == Replace ==> result == Err(old(currentState), Replaced, Replace)
    {
      hide Run, AverageAfter;
      RunStep(events, Timed(event, timestampNs));
      events := events + [Timed(event, timestampNs)];
      var target := Target(event);
      if target !in AllowedTransitions(currentState) {
        return Err(currentState, target, event);
      }
      var oldState := currentState;
      UpdateMetadataForEvent(event, timestampNs);
      currentState := target;
      metadataTransitionCount := metadataTransitionCount + 1;
      transitionCount := transitionCount + 1;
      transitionLog := transitionLog + [Entry(oldState, target, event, timestampNs)];
      result := Ok(target);
    }

    method UpdateMetadataForEvent(event: Event, timestampNs: nat)
      modifies `lastEventTimestampNs, `avgFillPrice, `totalFilledQty, `rejectionReason
      ensures Fields() == WithMetadata(old(Fields()), event, timestampNs)
    {
      hide Blend;
      lastEventTimestampNs := timestampNs;
      match event
      case PartialFill(qty, price) =>
        var total := totalFilledQty + qty;
        avgFillPrice := if total > 0.0 then Blend(avgFillPrice, totalFilledQty, price, qty) else 0.0;
        totalFilledQty := total;
      case FullFill(qty, price) =>
        var total := totalFilledQty + qty;
        avgFillPrice := if total > 0.0 then Blend(avgFillPrice, totalFilledQty, price, qty) else price;
        totalFilledQty := total;
      case Reject(reason) =>
        rejectionReason := Some(reason);
      case _ =>
    }
  }
}
