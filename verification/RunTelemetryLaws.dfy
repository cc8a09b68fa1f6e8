/** What one run's telemetry keeps over every stream of spans, points and ticks, and how its CHURN alerts match a replay. */
module RunTelemetryLaws {
  import opened Wrappers
  import opened Text
  import opened Churn
  import opened RunTelemetry

  datatype Event = SpanEvent(span: Span, now: real) | PointEvent(point: Point, now: real) | TickEvent(now: real)

  function FoldEvent(run: Run, event: Event, rules: Settings): (Run, seq<Alert>) {
    match event
    case SpanEvent(span, now) => FoldSpan(run, span, now, rules)
    case PointEvent(point, now) => FoldPoint(run, point, now, rules)
    case TickEvent(now) => FoldTick(run, now, rules)
  }

  function FoldAll(run: Run, events: seq<Event>, rules: Settings): (Run, seq<Alert>)
    decreases |events|
  {
    if events == [] then (run, [])
    else
      var (next, alerts) := FoldEvent(run, events[0], rules);
      var (last, rest) := FoldAll(next, events[1..], rules);
      (last, alerts + rest)
  }

  // ---- sessions ----

  /** The pid and generation a record names; a tick names none. */
  function RecordSession(event: Event): (int, Option<int>) {
    match event
    case SpanEvent(span, _) => (span.pid, span.generation)
    case PointEvent(point, _) => (point.pid, point.generation)
    case TickEvent(_) => (0, None)
  }

  /** A record of an older generation, or of another process of the same one, changes no run state and raises nothing. */
  lemma StaleRecordsChangeNothing(run: Run, event: Event, rules: Settings)
    requires run.session.Some? && RecordSession(event).1.Some?
    requires RecordSession(event).1.value <= run.session.value.generation
    requires Some(Session(RecordSession(event).0, RecordSession(event).1.value)) != run.session
    ensures FoldEvent(run, event, rules) == (run, [])
  {
  }

  /** The session only moves forward: it stays, or a higher generation replaces it. */
  ghost predicate SessionForward(a: Option<Session>, b: Option<Session>) {
    a == b || (b.Some? && (a.None? || a.value.generation < b.value.generation))
  }

  // ---- the wait and turn invariants ----

  ghost predicate CarriesKind(series: Series) {
    Get(series, "wait_kind") != ""
  }

  ghost predicate WaitInv(wait: Wait) {
    && (wait.kind != "" <==> wait.series.Some?)
    && (wait.series.Some? && CarriesKind(wait.series.value) ==> wait.series.value !in wait.closed)
  }

  ghost predicate TurnInv(turn: Turn) {
    turn.active == Some(false) ==> turn.idle == 0.0 && turn.elapsed == 0.0
  }

  ghost predicate RunInv(run: Run) {
    WaitInv(run.wait) && TurnInv(run.turn)
  }

  /** Same session, no closed series forgotten, and nothing about CHURN changed or raised. */
  ghost predicate Quiet(run: Run, run': Run, alerts: seq<Alert>) {
    && run'.session == run.session && run.wait.closed <= run'.wait.closed
    && run'.tally == run.tally && (CHURN in run'.fired <==> CHURN in run.fired)
    && forall alert :: alert in alerts ==> alert.rule != CHURN
  }

  lemma NodeActiveKeeps(run: Run, node: string, value: real)
    requires RunInv(run)
    ensures RunInv(OnNodeActive(run, node, value)) && Quiet(run, OnNodeActive(run, node, value), [])
  {
  }

  lemma WaitActiveKeeps(run: Run, attrs: Attrs, value: real)
    requires RunInv(run)
    requires value >= 1.0 && CarriesKind(attrs) ==> attrs !in run.wait.closed
    ensures var (run', alerts) := OnWaitActive(run, attrs, value); RunInv(run') && Quiet(run, run', alerts)
  {
  }

  lemma WaitElapsedKeeps(run: Run, attrs: Attrs, value: real)
    requires RunInv(run)
    requires CarriesKind(attrs) ==> attrs !in run.wait.closed
    ensures var (run', alerts) := OnWaitElapsed(run, attrs, value); RunInv(run') && Quiet(run, run', alerts)
  {
  }

  lemma TurnPointKeeps(run: Run, point: Point, rules: Settings)
    requires RunInv(run)
    ensures RunInv(OnTurnPoint(run, point, rules)) && Quiet(run, OnTurnPoint(run, point, rules), [])
  {
  }

  lemma GaugeKeeps(run: Run, point: Point, now: real, rules: Settings)
    requires RunInv(run) && !StaleWaitPoint(run.wait, point)
    ensures var (run', alerts) := Gauge(run, point, now, rules);
      RunInv(run') && (point.name != "workhorse.gas.refuels" ==> Quiet(run, run', alerts))
      && run'.session == run.session && run.wait.closed <= run'.wait.closed
  {
    hide OnNodeActive, OnWaitActive, OnWaitElapsed, OnTurnPoint, Get;
    if point.name == "workhorse.node.active" {
      NodeActiveKeeps(run, Get(point.attrs, "node"), point.value);
    } else if point.name == "workhorse.wait.active" {
      WaitActiveKeeps(run, point.attrs, point.value);
    } else if point.name == "workhorse.wait.elapsed_s" {
      WaitElapsedKeeps(run, point.attrs, point.value);
    } else {
      TurnPointKeeps(run, point, rules);
    }
  }

  /** The invariants hold again, the session moved forward, and no closed series was forgotten within it. */
  ghost predicate Keeps(run: Run, next: Run) {
    && RunInv(next) && SessionForward(run.session, next.session)
    && (next.session == run.session ==> run.wait.closed <= next.wait.closed)
  }

  lemma SpanKeeps(run: Run, span: Span, now: real, rules: Settings)
    requires RunInv(run)
    ensures Keeps(run, FoldSpan(run, span, now, rules).0)
  {
    hide Observe, CountsAsVisit, EndingOf, Get;
  }

  lemma ArrivalKeeps(run: Run, point: Point)
    requires RunInv(run) && Accepts(run, point.pid, point.generation)
    ensures Keeps(run, PointArrived(run, point))
  {
  }

  lemma PointKeeps(run: Run, point: Point, now: real, rules: Settings)
    requires RunInv(run)
    ensures Keeps(run, FoldPoint(run, point, now, rules).0)
  {
    hide Gauge, PointArrived;
    if Accepts(run, point.pid, point.generation) {
      var arrived := PointArrived(run, point);
      ArrivalKeeps(run, point);
      if !StaleWaitPoint(arrived.wait, point) {
        GaugeKeeps(Stamped(arrived, point.name, now), point, now, rules);
      }
    }
  }

  /**
   * Every event keeps the invariants: a wait has a kind exactly when it has a series, a series that carries a kind is
   * not both open and closed, an inactive turn has no idle or elapsed time. The session moves forward, and while it
   * stays no closed series is forgotten.
   */
  lemma EventKeeps(run: Run, event: Event, rules: Settings)
    requires RunInv(run)
    ensures var run' := FoldEvent(run, event, rules).0;
      && RunInv(run') && SessionForward(run.session, run'.session)
      && (run'.session == run.session ==> run.wait.closed <= run'.wait.closed)
  {
    hide FoldSpan, FoldPoint;
    match event {
      case SpanEvent(span, now) => SpanKeeps(run, span, now, rules);
      case TickEvent(_) =>
      case PointEvent(point, now) => PointKeeps(run, point, now, rules);
    }
  }

  lemma {:induction false} EventsKeep(run: Run, events: seq<Event>, rules: Settings)
    requires RunInv(run)
    ensures var run' := FoldAll(run, events, rules).0;
      && RunInv(run') && SessionForward(run.session, run'.session)
      && (run'.session == run.session ==> run.wait.closed <= run'.wait.closed)
    decreases |events|
  {
    hide FoldEvent;
    if events != [] {
      var next := FoldEvent(run, events[0], rules).0;
      EventKeeps(run, events[0], rules);
      EventsKeep(next, events[1..], rules);
    }
  }

  /** Within one session no late record, in any order, reopens a wait that was closed. */
  lemma AClosedWaitStaysClosed(run: Run, events: seq<Event>, rules: Settings, series: Series)
    requires RunInv(run) && series in run.wait.closed && CarriesKind(series)
    requires FoldAll(run, events, rules).0.session == run.session
    ensures FoldAll(run, events, rules).0.wait.series != Some(series)
  {
    EventsKeep(run, events, rules);
  }

  lemma FreshRunsSatisfyTheInvariant(runId: string, now: real)
    ensures RunInv(FreshRun(runId, now))
  {
  }

  /** Every run groom has seen from its first record on is in such a state, and a wait it closed is not open later in that session. */
  lemma NoRunReopensAClosedWait(runId: string, now: real, before: seq<Event>, after: seq<Event>, rules: Settings, series: Series)
    ensures var run := FoldAll(FreshRun(runId, now), before, rules).0;
      var last := FoldAll(FreshRun(runId, now), before + after, rules).0;
      && RunInv(last)
      && (series in run.wait.closed && CarriesKind(series) && last.session == run.session ==> last.wait.series != Some(series))
  {
    hide RunInv, FreshRun;
    FreshRunsSatisfyTheInvariant(runId, now);
    EventsKeep(FreshRun(runId, now), before, rules);
    var run := FoldAll(FreshRun(runId, now), before, rules).0;
    EventsKeep(run, after, rules);
    FoldAllAppend(FreshRun(runId, now), before, after, rules);
    if series in run.wait.closed && CarriesKind(series) && FoldAll(run, after, rules).0.session == run.session {
      AClosedWaitStaysClosed(run, after, rules, series);
    }
  }

  // ---- endings, and rules raised once a session ----

  /** The time a record speaks of. */
  function RecordTs(event: Event): real {
    match event
    case SpanEvent(span, _) => span.endTs
    case PointEvent(point, _) => point.ts
    case TickEvent(now) => now
  }

  predicate EndsTheRun(event: Event) {
    event.SpanEvent? && StartsWith(event.span.name, "run:")
  }

  /** The record is the first of a session newer than the run's. */
  predicate StartsASession(run: Run, event: Event) {
    var (_, generation) := RecordSession(event);
    generation.Some? && (run.session.None? || generation.value > run.session.value.generation)
  }

  /**
   * An ended run is taken to run again exactly when a record that is no ending starts a new session, or, for records that
   * name no generation, speaks of a time after the ending. Nothing else withdraws an ending, and a tick never does.
   */
  lemma EndingIsWithdrawnExactlyWhen(run: Run, event: Event, rules: Settings)
    requires run.ending.terminal != ""
    ensures FoldEvent(run, event, rules).0.ending.terminal == "" <==>
      && !event.TickEvent? && !EndsTheRun(event)
      && (StartsASession(run, event)
          || (run.session.None? && RecordSession(event).1.None? && RecordTs(event) > run.ending.ts))
  {
    match event {
      case SpanEvent(span, now) => hide Observe, CountsAsVisit;
      case PointEvent(point, now) =>
        if Accepts(run, point.pid, point.generation) {
          PointLeavesEnding(run, point, now, rules);
        }
        hide FoldPoint;
      case TickEvent(_) =>
    }
  }

  /** The session and the ending are the same, and so are the rules raised of those that are raised once a session. */
  ghost predicate SameOnce(run: Run, next: Run, alerts: seq<Alert>) {
    && next.session == run.session && next.ending == run.ending
    && (forall rule :: rule in ONCE_A_SESSION ==> (rule in next.fired <==> rule in run.fired))
    && forall alert :: alert in alerts ==> alert.rule !in ONCE_A_SESSION
  }

  lemma WaitActiveFiresOther(run: Run, attrs: Attrs, value: real)
    ensures SameOnce(run, OnWaitActive(run, attrs, value).0, OnWaitActive(run, attrs, value).1)
  {
  }

  lemma WaitElapsedFiresOther(run: Run, attrs: Attrs, value: real)
    ensures SameOnce(run, OnWaitElapsed(run, attrs, value).0, OnWaitElapsed(run, attrs, value).1)
  {
  }

  lemma NodeAndTurnFireOther(run: Run, point: Point, node: string, value: real, rules: Settings)
    ensures SameOnce(run, OnNodeActive(run, node, value), []) && SameOnce(run, OnTurnPoint(run, point, rules), [])
  {
  }

  lemma GaugeFiresOther(run: Run, point: Point, now: real, rules: Settings)
    ensures SameOnce(run, Gauge(run, point, now, rules).0, Gauge(run, point, now, rules).1)
  {
    WaitActiveFiresOther(run, point.attrs, point.value);
    WaitElapsedFiresOther(run, point.attrs, point.value);
    NodeAndTurnFireOther(run, point, Get(point.attrs, "node"), point.value, rules);
    hide OnNodeActive, OnWaitActive, OnWaitElapsed, OnTurnPoint, Get;
  }

  lemma PointLeavesEnding(run: Run, point: Point, now: real, rules: Settings)
    requires Accepts(run, point.pid, point.generation)
    ensures FoldPoint(run, point, now, rules).0.ending == PointArrived(run, point).ending
  {
    var arrived := PointArrived(run, point);
    if !StaleWaitPoint(arrived.wait, point) {
      GaugeFiresOther(Stamped(arrived, point.name, now), point, now, rules);
      hide Gauge;
    }
  }

  /** What nothing within a session discards. */
  const ONCE_A_SESSION: set<Rule> := {WATCHDOG, GAVE_UP, ENDED}

  function Raised(alerts: seq<Alert>, rule: Rule): nat {
    if alerts == [] then 0 else (if alerts[0].rule == rule then 1 else 0) + Raised(alerts[1..], rule)
  }

  lemma {:induction false} RaisedAppend(a: seq<Alert>, b: seq<Alert>, rule: Rule)
    ensures Raised(a + b, rule) == Raised(a, rule) + Raised(b, rule)
  {
    if a == [] {
      assert a + b == b;
    } else {
      assert (a + b)[1..] == a[1..] + b && (a + b)[0] == a[0];
      RaisedAppend(a[1..], b, rule);
    }
  }

  lemma {:induction false} NotRaised(alerts: seq<Alert>, rule: Rule)
    requires forall alert :: alert in alerts ==> alert.rule != rule
    ensures Raised(alerts, rule) == 0
  {
    if alerts != [] {
      assert alerts[0] in alerts;
      NotRaised(alerts[1..], rule);
    }
  }

  /** Within a session one record raises such a rule at most once, never one already raised, and keeps it raised. */
  lemma EventRaisesOnce(run: Run, event: Event, rules: Settings, rule: Rule)
    requires rule in ONCE_A_SESSION && run.session.Some? && FoldEvent(run, event, rules).0.session == run.session
    ensures var (next, alerts) := FoldEvent(run, event, rules);
      && Raised(alerts, rule) == (if rule in next.fired && rule !in run.fired then 1 else 0)
      && (rule in run.fired ==> rule in next.fired)
  {
    match event {
      case SpanEvent(span, now) => SpanRaisesOnce(run, span, now, rules, rule);
      case TickEvent(now) => TickRaisesOther(run, now, rules, rule);
      case PointEvent(point, now) => PointRaisesOther(run, point, now, rules, rule);
    }
  }

  lemma TickRaisesOther(run: Run, now: real, rules: Settings, rule: Rule)
    requires rule in ONCE_A_SESSION
    ensures var (next, alerts) := FoldTick(run, now, rules);
      Raised(alerts, rule) == 0 && (rule in next.fired <==> rule in run.fired)
  {
    NotRaised(FoldTick(run, now, rules).1, rule);
  }

  lemma PointRaisesOther(run: Run, point: Point, now: real, rules: Settings, rule: Rule)
    requires rule in ONCE_A_SESSION && run.session.Some? && FoldPoint(run, point, now, rules).0.session == run.session
    ensures var (next, alerts) := FoldPoint(run, point, now, rules);
      Raised(alerts, rule) == 0 && (rule in next.fired <==> rule in run.fired)
  {
    hide Gauge;
    if Accepts(run, point.pid, point.generation) {
      var arrived := PointArrived(run, point);
      if !StaleWaitPoint(arrived.wait, point) {
        var stamped := Stamped(arrived, point.name, now);
        GaugeFiresOther(stamped, point, now, rules);
        NotRaised(Gauge(stamped, point, now, rules).1, rule);
      }
    }
  }

  /** From one state to the next a rule is raised exactly when it is newly in the set, and it stays there. */
  ghost predicate RaisedIfNew(run: Run, next: Run, alerts: seq<Alert>, rule: Rule) {
    && next.session == run.session && (rule in run.fired ==> rule in next.fired)
    && Raised(alerts, rule) == if rule in next.fired && rule !in run.fired then 1 else 0
  }

  lemma FireIfRaises(condition: bool, run: Run, fired: Rule, visit: Option<Visit>, rule: Rule)
    ensures var (next, alerts) := FireIf(condition, run, fired, visit); RaisedIfNew(run, next, alerts, rule)
  {
  }

  lemma VisitRaisesOther(run: Run, span: Span, rules: Settings, rule: Rule)
    requires rule != CHURN
    ensures var (next, alerts) := FoldVisit(run, span, rules); RaisedIfNew(run, next, alerts, rule)
  {
    hide Observe, CountsAsVisit, FireIf;
    if CountsAsVisit(span) {
      var seen := Observe(run.tally.labels, run.tally.counts, span.node, span.attrs);
      var tallied := run.(
        tally := Tally(seen.labels, seen.counts),
        fired := if seen.moved then run.fired - {CHURN} else run.fired);
      FireIfRaises(seen.repeats >= rules.churnRepeats, tallied, CHURN, Some((span, seen.repeats)), rule);
    }
  }

  lemma SpanRaisesOnce(run: Run, span: Span, now: real, rules: Settings, rule: Rule)
    requires rule in ONCE_A_SESSION && run.session.Some? && FoldSpan(run, span, now, rules).0.session == run.session
    ensures var (next, alerts) := FoldSpan(run, span, now, rules);
      && Raised(alerts, rule) == (if rule in next.fired && rule !in run.fired then 1 else 0)
      && (rule in run.fired ==> rule in next.fired)
  {
    hide Observe, CountsAsVisit, FoldVisit, FireIf;
    if Accepts(run, span.pid, span.generation) {
      var arrived := SpanArrived(run, span, now);
      if StartsWith(span.name, "run:") {
        FireIfRaises(true, arrived.(ending := EndingOf(span, now)), ENDED, None, rule);
        FireIsFireIf(arrived.(ending := EndingOf(span, now)), ENDED);
      } else {
        var (r1, a1) := FireIf("watchdog_kill" in span.events, arrived, WATCHDOG, None);
        var (r2, a2) := FireIf(span.node in rules.giveupNodes, r1, GAVE_UP, None);
        var (r3, a3) := FoldVisit(r2, span, rules);
        FireIfRaises("watchdog_kill" in span.events, arrived, WATCHDOG, None, rule);
        FireIfRaises(span.node in rules.giveupNodes, r1, GAVE_UP, None, rule);
        VisitRaisesOther(r2, span, rules, rule);
        RaisedAppend(a1 + a2, a3, rule);
        RaisedAppend(a1, a2, rule);
      }
    }
  }

  lemma FireIsFireIf(run: Run, rule: Rule)
    ensures FireIf(true, run, rule, None) == Fire(run, rule, None)
  {
  }

  /**
   * Within one session, however many spans carry the event, name a give-up node or end the run, each of these rules is
   * raised at most once, and not at all if it had been.
   */
  lemma {:induction false} SessionRaisesOnce(run: Run, events: seq<Event>, rules: Settings, rule: Rule)
    requires rule in ONCE_A_SESSION && run.session.Some? && RunInv(run)
    requires FoldAll(run, events, rules).0.session == run.session
    ensures Raised(FoldAll(run, events, rules).1, rule) <= if rule in run.fired then 0 else 1
    decreases |events|
  {
    hide FoldEvent, RunInv;
    if events != [] {
      var (next, alerts) := FoldEvent(run, events[0], rules);
      EventKeeps(run, events[0], rules);
      EventsKeep(next, events[1..], rules);
      EventRaisesOnce(run, events[0], rules, rule);
      SessionRaisesOnce(next, events[1..], rules, rule);
      RaisedAppend(alerts, FoldAll(next, events[1..], rules).1, rule);
    }
  }

  // ---- ticks page once ----

  function RulesOf(alerts: seq<Alert>): set<Rule> {
    if alerts == [] then {} else {alerts[0].rule} + RulesOf(alerts[1..])
  }

  /** No alert repeats a rule that was fired before it. */
  predicate EachRuleOnce(alerts: seq<Alert>, fired: set<Rule>) {
    alerts == [] || (alerts[0].rule !in fired && EachRuleOnce(alerts[1..], fired + {alerts[0].rule}))
  }

  predicate OnlyTicks(events: seq<Event>) {
    forall i :: 0 <= i < |events| ==> events[i].TickEvent?
  }

  lemma OneTick(run: Run, now: real, rules: Settings)
    ensures var (next, alerts) := FoldTick(run, now, rules);
      && |alerts| <= 1 && (alerts == [] ==> next == run)
      && (alerts != [] ==> alerts[0].rule !in run.fired && next.fired == run.fired + {alerts[0].rule})
  {
  }

  /** Between two records, ticks raise each rule at most once, and never one already raised. */
  lemma {:induction false} TicksPageOnce(run: Run, events: seq<Event>, rules: Settings)
    requires OnlyTicks(events)
    ensures var (run', alerts) := FoldAll(run, events, rules);
      EachRuleOnce(alerts, run.fired) && run'.fired == run.fired + RulesOf(alerts)
    decreases |events|
  {
    hide FoldTick, FoldSpan, FoldPoint;
    if events != [] {
      assert events[0].TickEvent?;
      var (next, first) := FoldTick(run, events[0].now, rules);
      OneTick(run, events[0].now, rules);
      TicksPageOnce(next, events[1..], rules);
      var (_, rest) := FoldAll(next, events[1..], rules);
      if first == [] {
        assert first + rest == rest;
      } else {
        assert (first + rest)[1..] == rest;
      }
    }
  }

  // ---- streaming refines the batch replay ----

  function SpansOf(events: seq<Event>): seq<Span> {
    if events == [] then []
    else if events[0].SpanEvent? then [events[0].span] + SpansOf(events[1..])
    else SpansOf(events[1..])
  }

  /** The visits the CHURN alerts name, in order. */
  function ChurnVisits(alerts: seq<Alert>): seq<Visit> {
    if alerts == [] then []
    else if alerts[0].rule == CHURN && alerts[0].visit.Some? then [alerts[0].visit.value] + ChurnVisits(alerts[1..])
    else ChurnVisits(alerts[1..])
  }

  lemma {:induction false} ChurnVisitsAppend(a: seq<Alert>, b: seq<Alert>)
    ensures ChurnVisits(a + b) == ChurnVisits(a) + ChurnVisits(b)
  {
    if a == [] {
      assert a + b == b;
    } else {
      assert (a + b)[1..] == a[1..] + b && (a + b)[0] == a[0];
      ChurnVisitsAppend(a[1..], b);
    }
  }

  /**
   * Records in the order a run emits them: all with a generation, generations nondecreasing, one pid per generation,
   * no node named `run:`, no refuel.
   */
  ghost predicate Emitted(events: seq<Event>, session: Option<Session>)
    decreases |events|
  {
    events == [] ||
    (var event, rest := events[0], events[1..];
     if event.TickEvent? then Emitted(rest, session)
     else
       var (pid, generation) := RecordSession(event);
       && generation.Some?
       && (var named := Session(pid, generation.value);
           && (session.None? || session == Some(named) || session.value.generation < named.generation)
           && (event.SpanEvent? ==> !StartsWith(event.span.node, "run:"))
           && (event.PointEvent? ==> event.point.name != "workhorse.gas.refuels")
           && Emitted(rest, Some(named))))
  }

  /** The stream's state against the replay's: same tally, and the same CHURN flag once the replay reaches its generation. */
  ghost predicate Tracks(run: Run, labels: map<string, Signature>, counts: map<string, nat>, fired: bool, generation: Option<int>) {
    && run.tally == Tally(labels, counts)
    && (generation.None? ==> !fired)
    && (generation.Some? ==> run.session.Some? && generation.value <= run.session.value.generation)
    && (CHURN in run.fired <==> fired && run.session.Some? && generation == Some(run.session.value.generation))
  }

  /** Points that are no refuel and ticks leave the tally alone, and CHURN with it while the session stays. */
  lemma OtherEventsLeaveChurnAlone(run: Run, event: Event, rules: Settings)
    requires !event.SpanEvent? && RunInv(run)
    requires event.PointEvent? ==>
      && event.point.name != "workhorse.gas.refuels" && event.point.generation.Some?
      && Accepts(run, event.point.pid, event.point.generation)
    ensures var (run', alerts) := FoldEvent(run, event, rules);
      && run'.tally == run.tally
      && ChurnVisits(alerts) == []
      && (event.PointEvent? ==> run'.session == Some(Session(event.point.pid, event.point.generation.value)))
      && (event.TickEvent? ==> run'.session == run.session)
      && (run'.session == run.session ==> (CHURN in run'.fired <==> CHURN in run.fired))
      && (run'.session != run.session ==> CHURN !in run'.fired)
  {
    if event.PointEvent? {
      var point, now := event.point, event.now;
      var arrived := PointArrived(run, point);
      if !StaleWaitPoint(arrived.wait, point) {
        GaugeKeeps(Stamped(arrived, point.name, now), point, now, rules);
        NoChurnVisits(Gauge(Stamped(arrived, point.name, now), point, now, rules).1);
      }
      hide Gauge;
    }
  }

  lemma {:induction false} NoChurnVisits(alerts: seq<Alert>)
    requires forall alert :: alert in alerts ==> alert.rule != CHURN
    ensures ChurnVisits(alerts) == []
  {
    if alerts != [] {
      NoChurnVisits(alerts[1..]);
    }
  }

  /** One accepted span moves the stream and the replay to states that track each other, with the same alert. */
  lemma SpanTracks(run: Run, span: Span, now: real, rules: Settings,
                   labels: map<string, Signature>, counts: map<string, nat>, fired: bool, generation: Option<int>, rest: seq<Span>)
    requires Tracks(run, labels, counts, fired, generation)
    requires span.generation.Some? && Accepts(run, span.pid, span.generation)
    requires !StartsWith(span.node, "run:")
    ensures var (run', alerts) := FoldSpan(run, span, now, rules);
      && run'.session == Some(Session(span.pid, span.generation.value))
      && exists labels', counts', fired' ::
        && Tracks(run', labels', counts', fired', span.generation)
        && Replay(labels, counts, fired, generation, [span] + rest, rules.churnRepeats)
             == ChurnVisits(alerts) + Replay(labels', counts', fired', span.generation, rest, rules.churnRepeats)
  {
    var spans := [span] + rest;
    assert spans[1..] == rest && spans[0] == span;
    var (run', alerts) := FoldSpan(run, span, now, rules);
    var fired1 := fired && !(span.generation != generation && generation.Some?);
    var arrived := SpanArrived(run, span, now);
    assert arrived.tally == run.tally;
    assert CHURN in arrived.fired <==> fired1;
    if !CountsAsVisit(span) {
      VisitlessSpan(run, span, now, rules);
      assert Tracks(run', labels, counts, fired1, span.generation);
      assert [] + Replay(labels, counts, fired1, span.generation, rest, rules.churnRepeats)
          == Replay(labels, counts, fired1, span.generation, rest, rules.churnRepeats);
    } else {
      var seen := Observe(labels, counts, span.node, span.attrs);
      var held := fired1 && !seen.moved;
      var fired2 := seen.repeats >= rules.churnRepeats || held;
      VisitingSpan(run, span, now, rules);
      assert Tracks(run', seen.labels, seen.counts, fired2, span.generation);
      var later := Replay(seen.labels, seen.counts, fired2, span.generation, rest, rules.churnRepeats);
      assert [] + later == later;
    }
  }

  lemma VisitlessSpan(run: Run, span: Span, now: real, rules: Settings)
    requires Accepts(run, span.pid, span.generation) && !CountsAsVisit(span)
    ensures var (run', alerts) := FoldSpan(run, span, now, rules);
      var arrived := SpanArrived(run, span, now);
      && run'.tally == arrived.tally && run'.session == arrived.session
      && (CHURN in run'.fired <==> CHURN in arrived.fired)
      && ChurnVisits(alerts) == []
  {
    hide SpanArrived, CountsAsVisit;
    var arrived := SpanArrived(run, span, now);
    if !StartsWith(span.name, "run:") {
      var (r1, a1) := FireIf("watchdog_kill" in span.events, arrived, WATCHDOG, None);
      var (r2, a2) := FireIf(span.node in rules.giveupNodes, r1, GAVE_UP, None);
      ChurnVisitsAppend(a1 + a2, []);
      ChurnVisitsAppend(a1, a2);
      assert ChurnVisits(a1) == [] && ChurnVisits(a2) == [];
    }
  }

  lemma VisitingSpan(run: Run, span: Span, now: real, rules: Settings)
    requires Accepts(run, span.pid, span.generation) && CountsAsVisit(span) && !StartsWith(span.node, "run:")
    ensures var (run', alerts) := FoldSpan(run, span, now, rules);
      var arrived := SpanArrived(run, span, now);
      var seen := Observe(arrived.tally.labels, arrived.tally.counts, span.node, span.attrs);
      var held := CHURN in arrived.fired && !seen.moved;
      && run'.tally == Tally(seen.labels, seen.counts) && run'.session == arrived.session
      && (CHURN in run'.fired <==> held || seen.repeats >= rules.churnRepeats)
      && ChurnVisits(alerts) == if seen.repeats >= rules.churnRepeats && !held then [(span, seen.repeats)] else []
  {
    hide SpanArrived, Observe;
    var arrived := SpanArrived(run, span, now);
    var (r1, a1) := FireIf("watchdog_kill" in span.events, arrived, WATCHDOG, None);
    var (r2, a2) := FireIf(span.node in rules.giveupNodes, r1, GAVE_UP, None);
    var (r3, a3) := FoldVisit(r2, span, rules);
    ChurnVisitsAppend(a1 + a2, a3);
    ChurnVisitsAppend(a1, a2);
    assert ChurnVisits(a1) == [] && ChurnVisits(a2) == [];
    assert [] + ChurnVisits(a3) == ChurnVisits(a3);
  }

  /** From tracking states, the CHURN alerts of the stream are the replay of its spans. */
  lemma {:induction false} StreamTracksReplay(
      run: Run, events: seq<Event>, rules: Settings,
      labels: map<string, Signature>, counts: map<string, nat>, fired: bool, generation: Option<int>)
    requires Emitted(events, run.session) && RunInv(run)
    requires Tracks(run, labels, counts, fired, generation)
    ensures ChurnVisits(FoldAll(run, events, rules).1)
         == Replay(labels, counts, fired, generation, SpansOf(events), rules.churnRepeats)
    decreases |events|
  {
    hide FoldSpan, FoldPoint, FoldTick, Observe, CountsAsVisit;
    if events != [] {
      var event, rest := events[0], events[1..];
      var (next, alerts) := FoldEvent(run, event, rules);
      ChurnVisitsAppend(alerts, FoldAll(next, rest, rules).1);
      EventKeeps(run, event, rules);
      if event.SpanEvent? {
        SpanTracks(run, event.span, event.now, rules, labels, counts, fired, generation, SpansOf(rest));
        var labels', counts', fired' :|
          && Tracks(next, labels', counts', fired', event.span.generation)
          && Replay(labels, counts, fired, generation, [event.span] + SpansOf(rest), rules.churnRepeats)
               == ChurnVisits(alerts) + Replay(labels', counts', fired', event.span.generation, SpansOf(rest), rules.churnRepeats);
        StreamTracksReplay(next, rest, rules, labels', counts', fired', event.span.generation);
      } else {
        OtherEventsLeaveChurnAlone(run, event, rules);
        StreamTracksReplay(next, rest, rules, labels, counts, fired, generation);
        assert [] + ChurnVisits(FoldAll(next, rest, rules).1) == ChurnVisits(FoldAll(next, rest, rules).1);
      }
    }
  }

  /**
   * A run's CHURN alerts, streamed in the order its spans ended with points and ticks anywhere between, are exactly
   * those of the batch replay of its stored spans: the same visits with the same counts.
   */
  lemma StreamingRefinesTheReplay(runId: string, now: real, events: seq<Event>, rules: Settings)
    requires Emitted(events, None) && InEndOrder(SpansOf(events))
    ensures ChurnVisits(FoldAll(FreshRun(runId, now), events, rules).1) == AlertsSpec(SpansOf(events), rules.churnRepeats)
  {
    hide Replay;
    StreamTracksReplay(FreshRun(runId, now), events, rules, map[], map[], false, None);
    SortOfSorted(SpansOf(events));
  }

  // ---- batches of one run ----

  datatype Batch = Batch(spans: seq<Span>, now: real)

  function BatchesSpec(runs: Runs, batches: seq<Batch>, rules: Settings): (Runs, seq<Alert>)
    decreases |batches|
  {
    if batches == [] then (runs, [])
    else
      var (runs', alerts) := SpansSpec(runs, batches[0].spans, batches[0].now, rules);
      Then(alerts, BatchesSpec(runs', batches[1..], rules))
  }

  function BatchEvents(batch: Batch): seq<Event> {
    seq(|batch.spans|, i requires 0 <= i < |batch.spans| => SpanEvent(batch.spans[i], batch.now))
  }

  function EventsOf(batches: seq<Batch>): seq<Event> {
    if batches == [] then [] else BatchEvents(batches[0]) + EventsOf(batches[1..])
  }

  lemma {:induction false} FoldAllAppend(run: Run, a: seq<Event>, b: seq<Event>, rules: Settings)
    ensures var (mid, first) := FoldAll(run, a, rules);
      var (last, rest) := FoldAll(mid, b, rules);
      FoldAll(run, a + b, rules) == (last, first + rest)
    decreases |a|
  {
    hide FoldEvent;
    if a == [] {
      assert a + b == b;
      assert [] + FoldAll(run, b, rules).1 == FoldAll(run, b, rules).1;
    } else {
      var (next, alerts) := FoldEvent(run, a[0], rules);
      assert (a + b)[1..] == a[1..] + b && (a + b)[0] == a[0];
      FoldAllAppend(next, a[1..], b, rules);
      var (mid, first) := FoldAll(next, a[1..], rules);
      var (last, rest) := FoldAll(mid, b, rules);
      assert alerts + (first + rest) == (alerts + first) + rest;
    }
  }

  /** A batch of one run's spans folds that run and leaves the others. */
  lemma {:induction false} OneRunBatch(runs: Runs, batch: Batch, runId: string, rules: Settings)
    requires runId != "" && batch.spans != []
    requires forall i :: 0 <= i < |batch.spans| ==> batch.spans[i].runId == runId
    ensures var (run, alerts) := FoldAll(RunIn(runs, runId, batch.now), BatchEvents(batch), rules);
      SpansSpec(runs, batch.spans, batch.now, rules) == (runs[runId := run], alerts)
    decreases |batch.spans|
  {
    hide FoldSpan;
    var span := batch.spans[0];
    var rest := Batch(batch.spans[1..], batch.now);
    var (run, alerts) := FoldSpan(RunIn(runs, runId, batch.now), span, batch.now, rules);
    assert BatchEvents(batch)[1..] == BatchEvents(rest);
    assert BatchEvents(batch)[0] == SpanEvent(span, batch.now);
    var mid := runs[runId := run];
    if rest.spans == [] {
      assert BatchEvents(rest) == [];
      assert SpansSpec(mid, rest.spans, batch.now, rules) == (mid, []);
    } else {
      OneRunBatch(mid, rest, runId, rules);
      var last := FoldAll(run, BatchEvents(rest), rules).0;
      assert mid[runId := last] == runs[runId := last];
    }
  }

  /** When the first span arrives. */
  function FirstNow(batches: seq<Batch>): real {
    if batches == [] then 0.0 else if batches[0].spans != [] then batches[0].now else FirstNow(batches[1..])
  }

  lemma EmptyBatch(runs: Runs, batches: seq<Batch>, rules: Settings)
    requires batches != [] && batches[0].spans == []
    ensures BatchesSpec(runs, batches, rules).1 == BatchesSpec(runs, batches[1..], rules).1
    ensures EventsOf(batches) == EventsOf(batches[1..])
  {
    assert BatchEvents(batches[0]) == [];
    assert [] + BatchesSpec(runs, batches[1..], rules).1 == BatchesSpec(runs, batches[1..], rules).1;
  }

  lemma {:induction false} OneRunBatches(runs: Runs, batches: seq<Batch>, runId: string, rules: Settings, now: real)
    requires runId != ""
    requires forall b, i :: b in batches && 0 <= i < |b.spans| ==> b.spans[i].runId == runId
    requires runId in runs || now == FirstNow(batches)
    ensures BatchesSpec(runs, batches, rules).1 == FoldAll(RunIn(runs, runId, now), EventsOf(batches), rules).1
    decreases |batches|
  {
    hide FoldEvent, SpansSpec, BatchEvents;
    if batches != [] {
      var batch, rest := batches[0], batches[1..];
      assert batch in batches;
      var start := RunIn(runs, runId, now);
      if batch.spans == [] {
        EmptyBatch(runs, batches, rules);
        OneRunBatches(runs, rest, runId, rules, now);
      } else {
        OneRunBatch(runs, batch, runId, rules);
        assert start == RunIn(runs, runId, batch.now);
        var (run, alerts) := FoldAll(start, BatchEvents(batch), rules);
        OneRunBatches(runs[runId := run], rest, runId, rules, now);
        FoldAllAppend(start, BatchEvents(batch), EventsOf(rest), rules);
      }
    }
  }

  /** However one run's spans are split into batches, `ingest_spans` raises the CHURN alerts of the replay. */
  lemma AnySplitIntoBatchesRefinesTheReplay(batches: seq<Batch>, runId: string, rules: Settings)
    requires runId != ""
    requires forall b, i :: b in batches && 0 <= i < |b.spans| ==> b.spans[i].runId == runId
    requires Emitted(EventsOf(batches), None) && InEndOrder(SpansOf(EventsOf(batches)))
    ensures ChurnVisits(BatchesSpec(map[], batches, rules).1) == AlertsSpec(SpansOf(EventsOf(batches)), rules.churnRepeats)
  {
    OneRunBatches(map[], batches, runId, rules, FirstNow(batches));
    StreamingRefinesTheReplay(runId, FirstNow(batches), EventsOf(batches), rules);
  }
}
